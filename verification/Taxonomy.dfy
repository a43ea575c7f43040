/** A user's categories, rules and fallback, and the endpoints that change them, one request at a time.

    A refused request leaves no trace: its transaction is rolled back. */
module Taxonomy {
  import opened Wrappers
  import opened Ordering
  import Tagging = Labels

  // ----- text ---------------------------------------------------------------

  predicate Space(c: char) { c in {' ', '\t', '\n', '\r'} }

  function StripLeft(s: string): (r: string)
    ensures r != "" ==> !Space(r[0])
    ensures s != "" && !Space(s[0]) ==> r == s
    ensures s != "" && !Space(s[|s| - 1]) ==> r != "" && r[|r| - 1] == s[|s| - 1]
  {
    if s != "" && Space(s[0]) then StripLeft(s[1..]) else s
  }

  function StripRight(s: string): (r: string)
    ensures |r| <= |s| && (r != "" ==> !Space(r[|r| - 1]) && r[0] == s[0])
    ensures s != "" && !Space(s[|s| - 1]) ==> r == s
    ensures s == "" ==> r == ""
  {
    if s != "" && Space(s[|s| - 1]) then StripRight(s[..|s| - 1]) else s
  }

  function Strip(s: string): string { StripRight(StripLeft(s)) }

  predicate Blanks(s: string) { forall k :: 0 <= k < |s| ==> Space(s[k]) }

  lemma {:induction false} StripLeftExact(s: string) returns (i: nat)
    ensures i <= |s| && Blanks(s[..i]) && StripLeft(s) == s[i..]
  {
    i := 0;
    if s != "" && Space(s[0]) {
      i := StripLeftExact(s[1..]);
      i := i + 1;
      assert forall k :: 0 < k < i ==> s[..i][k] == s[1..][..i - 1][k - 1];
    }
  }

  lemma {:induction false} StripRightExact(s: string) returns (j: nat)
    ensures j <= |s| && Blanks(s[j..]) && StripRight(s) == s[..j]
  {
    j := |s|;
    if s != "" && Space(s[|s| - 1]) {
      j := StripRightExact(s[..|s| - 1]);
      assert forall k :: j <= k < |s| - 1 ==> s[k] == s[..|s| - 1][j..][k - j];
    }
  }

  /** Stripping takes the outer blanks off and nothing else. */
  lemma StripExact(s: string) returns (i: nat, j: nat)
    ensures i <= j <= |s| && Blanks(s[..i]) && Blanks(s[j..]) && Strip(s) == s[i..j]
    ensures i < j ==> !Space(s[i]) && !Space(s[j - 1])
  {
    i := StripLeftExact(s);
    var left := s[i..];
    var n := StripRightExact(left);
    j := i + n;
    assert left[..n] == s[i..j] && left[n..] == s[j..];
  }

  lemma StripOnce(s: string)
    ensures Strip(Strip(s)) == Strip(s)
  {
  }

  function LowerChar(c: char): char { if 'A' <= c <= 'Z' then c - 'A' + 'a' else c }

  function Lower(s: string): (r: string)
    ensures |r| == |s| && forall k :: 0 <= k < |s| ==> r[k] == LowerChar(s[k])
  {
    seq(|s|, k requires 0 <= k < |s| => LowerChar(s[k]))
  }

  /** Case folding lowers ASCII text; elsewhere it may do anything, even lengthen. */
  ghost predicate FoldsAscii(fold: string -> string) {
    forall s {:trigger fold(s)} :: (forall k :: 0 <= k < |s| ==> s[k] < 128 as char) ==> fold(s) == Lower(s)
  }

  // ----- state --------------------------------------------------------------

  datatype Category = Category(
    key: string, gmailLabel: string, displayName: string, builtin: bool, enabled: bool,
    sortOrder: int, actions: Tagging.Actions)

  datatype Action = Assign | Exclude

  datatype Rule = Rule(
    id: nat, priority: int, createdAt: int, matchType: string, matchValue: string,
    action: Action, categoryKey: Option<string>, enabled: bool)

  /** The user's own settings: the master switch, the classifier's threshold, its model and extra instructions. */
  datatype Prefs = Prefs(enabled: bool, threshold: real, model: Option<string>, extra: Option<string>)

  const DEFAULTS := Prefs(true, 0.0, None, None)

  datatype State = State(categories: seq<Category>, rules: seq<Rule>, fallback: Option<string>, prefs: Prefs)

  const NO_ACTIONS := Tagging.Actions(false, false, false)

  const BUILTINS: seq<Category> := [
    Category("to_do", "to do", "To do", true, true, 0, NO_ACTIONS),
    Category("to_follow_up", "to follow up", "To follow up", true, true, 1, NO_ACTIONS),
    Category("notification", "notification", "Notification", true, true, 2, NO_ACTIONS),
    Category("fyi", "fyi", "FYI", true, true, 3, NO_ACTIONS),
    Category("marketing", "marketing", "Marketing", true, true, 4, NO_ACTIONS),
    Category("noise", "noise", "Noise", true, true, 5, NO_ACTIONS)
  ]

  function ByKey(categories: seq<Category>, key: string): (r: Option<Category>)
    ensures r.Some? ==> r.value in categories && r.value.key == key
    ensures r.None? ==> forall c :: c in categories ==> c.key != key
  {
    if categories == [] then None
    else if categories[0].key == key then Some(categories[0])
    else ByKey(categories[1..], key)
  }

  function Norm(fold: string -> string, s: string): string { fold(Strip(s)) }

  ghost predicate Apart(fold: string -> string, x: Category, y: Category) {
    x.key != y.key && x.gmailLabel != y.gmailLabel && Norm(fold, x.displayName) != Norm(fold, y.displayName)
  }

  predicate Targets(categories: seq<Category>, key: Option<string>) {
    key.Some? && ByKey(categories, key.value).Some?
  }

  /** Keys, labels and normalised names are each distinct; assign rules and the fallback name a category. */
  ghost predicate Sound(fold: string -> string, s: State) {
    && AllApart(fold, s.categories)
    && (forall r :: r in s.rules && r.action.Assign? ==> Targets(s.categories, r.categoryKey))
    && (s.fallback.Some? ==> Targets(s.categories, s.fallback))
    && DistinctIds(s.rules)
  }

  function Seeded(s: State): State { if s.categories == [] then s.(categories := BUILTINS) else s }

  /** A name without outer blanks normalises to the label that is its lower-case form. */
  lemma NormIs(fold: string -> string, name: string, lower: string)
    requires FoldsAscii(fold) && |name| == |lower| && name != ""
    requires !Space(name[0]) && !Space(name[|name| - 1])
    requires forall k :: 0 <= k < |name| ==> name[k] < 128 as char && LowerChar(name[k]) == lower[k]
    ensures Norm(fold, name) == lower
  {
    assert Strip(name) == name;
    assert Lower(name) == lower;
  }

  lemma BuiltinTextApart(i: nat, j: nat)
    requires i < j < 6
    ensures BUILTINS[i].key != BUILTINS[j].key && BUILTINS[i].gmailLabel != BUILTINS[j].gmailLabel
  {
    if i == 0 && j == 5 {
      assert BUILTINS[0].key[0] != BUILTINS[5].key[0] && BUILTINS[0].gmailLabel[0] != BUILTINS[5].gmailLabel[0];
    } else if i == 1 && j == 2 {
      assert BUILTINS[1].key[0] != BUILTINS[2].key[0] && BUILTINS[1].gmailLabel[0] != BUILTINS[2].gmailLabel[0];
    } else {
      assert |BUILTINS[i].key| != |BUILTINS[j].key| && |BUILTINS[i].gmailLabel| != |BUILTINS[j].gmailLabel|;
    }
  }

  lemma BuiltinNorm(fold: string -> string, i: nat)
    requires FoldsAscii(fold) && i < 6
    ensures Norm(fold, BUILTINS[i].displayName) == BUILTINS[i].gmailLabel
  {
    NormIs(fold, BUILTINS[i].displayName, BUILTINS[i].gmailLabel);
  }

  lemma BuiltinsApart(fold: string -> string)
    requires FoldsAscii(fold)
    ensures forall i, j :: 0 <= i < j < 6 ==> Apart(fold, BUILTINS[i], BUILTINS[j])
  {
    forall i: nat, j: nat | i < j < 6 ensures Apart(fold, BUILTINS[i], BUILTINS[j]) {
      BuiltinTextApart(i, j);
      BuiltinNorm(fold, i);
      BuiltinNorm(fold, j);
    }
  }

  // ----- edits --------------------------------------------------------------

  lemma ByKeyIff(categories: seq<Category>, key: string)
    ensures ByKey(categories, key).Some? <==> exists c :: c in categories && c.key == key
  {
  }

  lemma {:induction false} ByKeyFirst(cs: seq<Category>, key: string, i: nat)
    requires i < |cs| && cs[i].key == key && forall j :: 0 <= j < i ==> cs[j].key != key
    ensures ByKey(cs, key) == Some(cs[i])
  {
    if i > 0 { ByKeyFirst(cs[1..], key, i - 1); }
  }

  /** An empty taxonomy is seeded with the six built-in categories, in order; any other is left alone. */
  lemma SeededExact(s: State)
    ensures var t := Seeded(s);
            && t == s.(categories := t.categories)
            && (s.categories != [] ==> t == s)
            && (s.categories == [] ==>
                  && |t.categories| == 6 && (forall i :: 0 <= i < 6 ==> t.categories[i].sortOrder == i)
                  && (forall c :: c in t.categories ==> c.builtin && c.enabled && c.actions == NO_ACTIONS)
                  && t.categories[0].key == "to_do" && t.categories[1].key == "to_follow_up"
                  && t.categories[2].key == "notification" && t.categories[3].key == "fyi"
                  && t.categories[4].key == "marketing" && t.categories[5].key == "noise")
  {
  }

  lemma SeedSound(fold: string -> string, s: State)
    requires FoldsAscii(fold) && Sound(fold, s)
    ensures Sound(fold, Seeded(s))
  {
    if s.categories == [] {
      BuiltinsApart(fold);
      forall r | r in s.rules ensures !r.action.Assign? {
        assert ByKey([], "").None?;
      }
    }
  }

  /** What the pre-checks of a create amount to. */
  ghost predicate Novel(fold: string -> string, categories: seq<Category>, c: Category) {
    forall d :: d in categories ==> Apart(fold, d, c)
  }

  lemma AddSound(fold: string -> string, s: State, c: Category)
    requires Sound(fold, s) && Novel(fold, s.categories, c)
    ensures Sound(fold, s.(categories := s.categories + [c]))
  {
    var t := s.categories + [c];
    forall key | ByKey(s.categories, key).Some? ensures ByKey(t, key).Some? {
      assert ByKey(s.categories, key).value in t;
    }
  }

  /** Positions with the display name `i` replaced. */
  lemma RenameSound(fold: string -> string, s: State, i: nat, c: Category)
    requires Sound(fold, s) && i < |s.categories|
    requires c.key == s.categories[i].key && c.gmailLabel == s.categories[i].gmailLabel
    requires forall j :: 0 <= j < |s.categories| && j != i ==>
               Norm(fold, s.categories[j].displayName) != Norm(fold, c.displayName)
    ensures Sound(fold, s.(categories := s.categories[i := c]))
  {
    var t := s.categories[i := c];
    forall key | ByKey(s.categories, key).Some? ensures ByKey(t, key).Some? {
      var d := ByKey(s.categories, key).value;
      var j :| 0 <= j < |s.categories| && s.categories[j] == d;
      assert t[j] in t && t[j].key == key;
    }
  }

  /** A name that is the category's own, or that no other uses, normalises to no other category's. */
  lemma OthersNamedApart(fold: string -> string, s: State, i: nat, name: string)
    requires Sound(fold, s) && i < |s.categories|
    requires name == s.categories[i].displayName || !NameUsed(fold, s.categories, name, Some(s.categories[i].key))
    ensures forall j :: 0 <= j < |s.categories| && j != i ==>
              Norm(fold, s.categories[j].displayName) != Norm(fold, name)
  {
    forall j | 0 <= j < |s.categories| && j != i ensures Norm(fold, s.categories[j].displayName) != Norm(fold, name) {
      assert s.categories[j] in s.categories;
      assert if i < j then Apart(fold, s.categories[i], s.categories[j])
             else Apart(fold, s.categories[j], s.categories[i]);
    }
  }

  lemma PatchSound(fold: string -> string, s: State, i: nat, p: CategoryPatch)
    requires Sound(fold, s) && i < |s.categories|
    requires p.displayName.Set? ==> !NameUsed(fold, s.categories, Strip(p.displayName.value), Some(s.categories[i].key))
    ensures Sound(fold, s.(categories := s.categories[i := PatchedCategory(s.categories[i], p)]))
  {
    var c := PatchedCategory(s.categories[i], p);
    if p.displayName.Set? {
      StripOnce(p.displayName.value);
      assert !NameUsed(fold, s.categories, c.displayName, Some(s.categories[i].key));
    }
    OthersNamedApart(fold, s, i, c.displayName);
    RenameSound(fold, s, i, c);
  }

  function Without(categories: seq<Category>, key: string): (r: seq<Category>)
    ensures forall c :: c in r <==> c in categories && c.key != key
  {
    if categories == [] then []
    else (if categories[0].key == key then [] else [categories[0]]) + Without(categories[1..], key)
  }

  function RulesWithout(rules: seq<Rule>, key: string): (r: seq<Rule>)
    ensures forall x :: x in r <==> x in rules && x.categoryKey != Some(key)
  {
    if rules == [] then []
    else (if rules[0].categoryKey == Some(key) then [] else [rules[0]]) + RulesWithout(rules[1..], key)
  }

  /** Deleting a category takes its rules and the fallback with it. */
  function Deleted(s: State, key: string): State {
    s.(categories := Without(s.categories, key), rules := RulesWithout(s.rules, key),
       fallback := if s.fallback == Some(key) then None else s.fallback)
  }

  ghost predicate AllApart(fold: string -> string, cs: seq<Category>) {
    forall i, j :: 0 <= i < j < |cs| ==> Apart(fold, cs[i], cs[j])
  }

  lemma ApartCons(fold: string -> string, head: Category, rest: seq<Category>)
    requires AllApart(fold, rest) && forall d :: d in rest ==> Apart(fold, head, d)
    ensures AllApart(fold, [head] + rest)
  {
    var all := [head] + rest;
    forall i, j | 0 <= i < j < |all| ensures Apart(fold, all[i], all[j]) {
      assert all[j] == rest[j - 1];
      if i > 0 { assert all[i] == rest[i - 1]; }
    }
  }

  lemma {:induction false} WithoutApart(fold: string -> string, cs: seq<Category>, key: string)
    requires AllApart(fold, cs)
    ensures AllApart(fold, Without(cs, key))
  {
    if cs != [] {
      var head, tail := cs[0], cs[1..];
      var rest := Without(tail, key);
      WithoutApart(fold, tail, key);
      forall d | d in rest ensures Apart(fold, head, d) {
        var j :| 0 <= j < |tail| && tail[j] == d;
        assert Apart(fold, cs[0], cs[j + 1]);
      }
      ApartCons(fold, head, rest);
      assert Without(cs, key) == (if head.key == key then [] else [head]) + rest;
      assert [] + rest == rest;
    }
  }

  ghost predicate DistinctIds(rules: seq<Rule>) {
    forall i, j :: 0 <= i < j < |rules| ==> rules[i].id != rules[j].id
  }

  lemma {:induction false} RulesWithoutDistinct(rules: seq<Rule>, key: string)
    requires DistinctIds(rules)
    ensures DistinctIds(RulesWithout(rules, key))
  {
    if rules != [] {
      var head, tail := rules[0], rules[1..];
      var rest := RulesWithout(tail, key);
      RulesWithoutDistinct(tail, key);
      forall k | 0 <= k < |rest| ensures head.id != rest[k].id {
        assert rest[k] in tail;
        var j :| 0 <= j < |tail| && tail[j] == rest[k];
        assert rules[j + 1] == rest[k];
      }
      assert DistinctIds([head] + rest);
      assert RulesWithout(rules, key) == (if head.categoryKey == Some(key) then [] else [head]) + rest;
      assert [] + rest == rest;
    }
  }

  lemma DeleteSound(fold: string -> string, s: State, key: string)
    requires Sound(fold, s)
    ensures Sound(fold, Deleted(s, key))
    ensures ByKey(Deleted(s, key).categories, key).None?
    ensures var t := Deleted(s, key);
            && (forall c :: c in t.categories <==> c in s.categories && c.key != key)
            && (forall r :: r in t.rules <==> r in s.rules && r.categoryKey != Some(key))
            && t.fallback == (if s.fallback == Some(key) then None else s.fallback) && t.prefs == s.prefs
  {
    var t := Deleted(s, key);
    WithoutApart(fold, s.categories, key);
    RulesWithoutDistinct(s.rules, key);
    forall k | k != key && ByKey(s.categories, k).Some? ensures ByKey(t.categories, k).Some? {
      assert ByKey(s.categories, k).value in t.categories;
    }
  }

  // ----- requests -----------------------------------------------------------

  /** A field of a partial update: left out, explicitly null, or given. */
  datatype Field<T> = Absent | Null | Set(value: T)

  function Patched<T>(f: Field<T>, was: Option<T>): Option<T> {
    match f
    case Absent => was
    case Null => None
    case Set(v) => Some(v)
  }

  /** The switches a partial update of a category's actions gives; the others keep their value. */
  datatype ActionsPatch = ActionsPatch(archive: Option<bool>, markRead: Option<bool>, star: Option<bool>)

  function Or<T>(given: Option<T>, was: T): T { if given.Some? then given.value else was }

  function Merged(was: Tagging.Actions, p: ActionsPatch): Tagging.Actions {
    Tagging.Actions(Or(p.archive, was.archive), Or(p.markRead, was.markRead), Or(p.star, was.star))
  }

  predicate Follows(now: bool, given: Option<bool>, was: bool) { now == if given.Some? then given.value else was }

  datatype CategoryPatch = CategoryPatch(
    displayName: Field<string>, enabled: Field<bool>, sortOrder: Field<int>, actions: Field<ActionsPatch>)

  function Kept<T>(f: Field<T>, was: T): T { if f.Set? then f.value else was }

  function PatchedCategory(c: Category, p: CategoryPatch): Category {
    c.(displayName := if p.displayName.Set? then Strip(p.displayName.value) else c.displayName,
       enabled := Kept(p.enabled, c.enabled), sortOrder := Kept(p.sortOrder, c.sortOrder),
       actions := if p.actions.Set? then Merged(c.actions, p.actions.value) else c.actions)
  }

  /** A patched category: what is given stands, the name without outer blanks; key, label and origin never move. */
  lemma PatchedExact(c: Category, p: CategoryPatch)
    ensures var now := PatchedCategory(c, p);
            && now.key == c.key && now.gmailLabel == c.gmailLabel && now.builtin == c.builtin
            && (p.displayName.Set? ==> now.displayName == Strip(p.displayName.value))
            && (!p.displayName.Set? ==> now.displayName == c.displayName)
            && (p.enabled.Set? ==> now.enabled == p.enabled.value)
            && (!p.enabled.Set? ==> now.enabled == c.enabled)
            && (p.sortOrder.Set? ==> now.sortOrder == p.sortOrder.value)
            && (!p.sortOrder.Set? ==> now.sortOrder == c.sortOrder)
            && (!p.actions.Set? ==> now.actions == c.actions)
            && (p.actions.Set? ==>
                  && Follows(now.actions.archive, p.actions.value.archive, c.actions.archive)
                  && Follows(now.actions.markRead, p.actions.value.markRead, c.actions.markRead)
                  && Follows(now.actions.star, p.actions.value.star, c.actions.star))
    ensures Flipped(c, p)
            == if p.actions.Set? && p.actions.value.archive == Some(!c.actions.archive) then Some(!c.actions.archive)
               else None
    ensures NullsColumn(p) <==> p.displayName == Null || p.enabled == Null || p.sortOrder == Null
  {
  }

  /** Whether the patch nulls a column that takes none; nulling `actions` is refused before. */
  predicate NullsColumn(p: CategoryPatch) { p.displayName.Null? || p.enabled.Null? || p.sortOrder.Null? }

  /** The new archive switch, if the patch flips it: the mail already labelled is then moved to that side. */
  function Flipped(c: Category, p: CategoryPatch): Option<bool> {
    var archive := PatchedCategory(c, p).actions.archive;
    if archive != c.actions.archive then Some(archive) else None
  }

  datatype RuleDraft = RuleDraft(
    matchType: string, matchValue: string, action: Action, categoryKey: Option<string>, enabled: bool)

  datatype RulePatch = RulePatch(
    matchType: Field<string>, matchValue: Field<string>, action: Field<Action>, categoryKey: Field<string>,
    enabled: Field<bool>, priority: Field<int>)

  function PatchedRule(r: Rule, p: RulePatch): Rule {
    r.(matchType := Kept(p.matchType, r.matchType),
       matchValue := if p.matchValue.Set? then Strip(p.matchValue.value) else r.matchValue,
       action := Kept(p.action, r.action), categoryKey := Patched(p.categoryKey, r.categoryKey),
       enabled := Kept(p.enabled, r.enabled), priority := Kept(p.priority, r.priority))
  }

  /** A null for anything but the category fails, in stripping it or in the database. */
  predicate NullsRule(p: RulePatch) {
    p.matchType.Null? || p.matchValue.Null? || p.action.Null? || p.enabled.Null? || p.priority.Null?
  }

  /** A patched rule: what is given stands, a value without outer blanks, and a null only clears the category. */
  lemma PatchedRuleExact(r: Rule, p: RulePatch)
    ensures var now := PatchedRule(r, p);
            && now.id == r.id && now.createdAt == r.createdAt
            && now.matchType == (if p.matchType.Set? then p.matchType.value else r.matchType)
            && now.matchValue == (if p.matchValue.Set? then Strip(p.matchValue.value) else r.matchValue)
            && now.action == (if p.action.Set? then p.action.value else r.action)
            && now.enabled == (if p.enabled.Set? then p.enabled.value else r.enabled)
            && now.priority == (if p.priority.Set? then p.priority.value else r.priority)
            && (p.categoryKey == Absent ==> now.categoryKey == r.categoryKey)
            && (p.categoryKey == Null ==> now.categoryKey.None?)
            && (p.categoryKey.Set? ==> now.categoryKey == Some(p.categoryKey.value))
  {
  }

  datatype PrefsPatch = PrefsPatch(
    enabled: Field<bool>, fallback: Field<string>, threshold: Field<real>, model: Field<string>, extra: Field<string>)

  function PatchedPrefs(was: Prefs, p: PrefsPatch): Prefs {
    Prefs(Kept(p.enabled, was.enabled), Kept(p.threshold, was.threshold),
          Patched(p.model, was.model), Patched(p.extra, was.extra))
  }

  lemma PatchedPrefsExact(was: Prefs, p: PrefsPatch)
    ensures var now := PatchedPrefs(was, p);
            && now.enabled == (if p.enabled.Set? then p.enabled.value else was.enabled)
            && now.threshold == (if p.threshold.Set? then p.threshold.value else was.threshold)
            && (p.model == Absent ==> now.model == was.model) && (p.model == Null ==> now.model.None?)
            && (p.model.Set? ==> now.model == Some(p.model.value))
            && (p.extra == Absent ==> now.extra == was.extra) && (p.extra == Null ==> now.extra.None?)
            && (p.extra.Set? ==> now.extra == Some(p.extra.value))
  {
  }

  datatype Request =
    | ListAll
    | Create(displayName: string, sortOrder: int, actions: Tagging.Actions, labelMade: bool)
    | Update(key: string, categoryPatch: CategoryPatch)
    | Remove(key: string)
    | AddRule(draft: RuleDraft, now: int)
    | EditRule(at: nat, rulePatch: RulePatch)
    | DropRule(at: nat)
    | Reorder(ids: seq<nat>)
    | Configure(prefsPatch: PrefsPatch)

  ghost predicate IdsBelow(rules: seq<Rule>, nextId: nat) { forall r :: r in rules ==> r.id < nextId }

  lemma EditSound(fold: string -> string, s: State, k: nat, r: Rule, nextId: nat)
    requires Sound(fold, s) && IdsBelow(s.rules, nextId) && k < |s.rules|
    requires r.id == s.rules[k].id && TargetOk(s.categories, r.action, r.categoryKey)
    ensures Sound(fold, s.(rules := s.rules[k := r])) && IdsBelow(s.rules[k := r], nextId)
  {
    assert s.rules[k] in s.rules;
    forall x | x in s.rules[k := r] ensures x == r || x in s.rules {
      var i :| 0 <= i < |s.rules| && s.rules[k := r][i] == x;
      assert i == k || s.rules[i] == x;
    }
  }

  /** Some category other than the one keyed `except` has the same normalised name. */
  ghost predicate NameUsed(fold: string -> string, cs: seq<Category>, name: string, except: Option<string>) {
    exists c :: c in cs && Some(c.key) != except && Norm(fold, c.displayName) == Norm(fold, name)
  }

  /** A rule that assigns must name a category. */
  predicate TargetOk(cs: seq<Category>, action: Action, key: Option<string>) {
    action.Assign? ==> key.Some? && key.value != "" && Targets(cs, key)
  }

  /** The rule as an update would leave it; a null action is no assignment. */
  predicate EditOk(s: State, r: Rule, p: RulePatch) {
    p.action.Null? || TargetOk(s.categories, PatchedRule(r, p).action, PatchedRule(r, p).categoryKey)
  }

  /** A rule is taken exactly when it excludes or names a category there is; an update is judged by the action and
      category it would leave, where a null action counts as no assignment. */
  lemma TargetExactly(s: State, r: Rule, p: RulePatch, action: Action, key: Option<string>)
    ensures TargetOk(s.categories, action, key)
            <==> || action == Exclude
                 || (key.Some? && key.value != "" && exists c :: c in s.categories && c.key == key.value)
    ensures var left := if p.categoryKey == Absent then r.categoryKey
                        else if p.categoryKey == Null then None else Some(p.categoryKey.value);
            EditOk(s, r, p)
            <==> || p.action == Null || (if p.action.Set? then p.action.value else r.action) == Exclude
                 || (left.Some? && left.value != "" && exists c :: c in s.categories && c.key == left.value)
  {
    if key.Some? { ByKeyIff(s.categories, key.value); }
  }

  datatype Reply = Done | PaymentRequired | NotFound | Invalid | Conflict | BadGateway | ServerError

  /** `fold` is Unicode case folding; `dash` turns a normalised name into a key. */
  class Store {
    const fold: string -> string
    const dash: string -> string
    const reserved: set<string>
    const models: set<string>
    var state: State
    var nextId: nat

    constructor (fold: string -> string, dash: string -> string, reserved: set<string>, models: set<string>)
      requires FoldsAscii(fold)
      ensures Valid() && state == State([], [], None, DEFAULTS)
    {
      this.fold, this.dash, this.reserved, this.models := fold, dash, reserved, models;
      state := State([], [], None, DEFAULTS);
      nextId := 0;
    }

    ghost predicate Valid()
      reads this
    {
      FoldsAscii(fold) && Sound(fold, state) && IdsBelow(state.rules, nextId)
    }

    method Find(key: string) returns (i: int)
      ensures -1 <= i < |Seeded(state).categories|
      ensures i >= 0 ==> ByKey(Seeded(state).categories, key) == Some(Seeded(state).categories[i])
      ensures i == -1 ==> ByKey(Seeded(state).categories, key).None?
    {
      var cs := Seeded(state).categories;
      i := 0;
      while i < |cs|
        invariant 0 <= i <= |cs| && forall j :: 0 <= j < i ==> cs[j].key != key
      {
        if cs[i].key == key {
          ByKeyFirst(cs, key, i);
          return i;
        }
        i := i + 1;
      }
      ByKeyIff(cs, key);
      i := -1;
    }

    method NameTaken(cs: seq<Category>, name: string, except: Option<string>) returns (taken: bool)
      ensures taken <==> NameUsed(fold, cs, name, except)
    {
      taken := false;
      for k := 0 to |cs|
        invariant taken <==> NameUsed(fold, cs[..k], name, except)
      {
        assert cs[..k + 1] == cs[..k] + [cs[k]];
        if Some(cs[k].key) != except && Norm(fold, cs[k].displayName) == Norm(fold, name) { taken := true; }
      }
      assert cs[..|cs|] == cs;
    }

    /** The Gmail label is made before the row; `labelMade` tells whether Gmail agreed. */
    method CreateCategory(displayName: string, sortOrder: int, actions: Tagging.Actions, plan: bool, labelMade: bool)
      returns (reply: Reply)
      requires Valid()
      modifies this`state
      ensures Valid()
      ensures var name := Strip(displayName);
              var c := Category(dash(fold(name)), fold(name), name, false, true, sortOrder, actions);
              var cs := Seeded(old(state)).categories;
              && reply == (if !plan then PaymentRequired
                           else if c.key == "" || |c.gmailLabel| > 64 || |c.key| > 64 || c.gmailLabel in reserved
                             then Invalid
                           else if !Novel(fold, cs, c) then Invalid
                           else if !labelMade then BadGateway
                           else Done)
              && state == if reply.Done? then Seeded(old(state)).(categories := cs + [c]) else old(state)
    {
      if !plan { return PaymentRequired; }
      var s := Seeded(state);
      SeedSound(fold, state);
      var name := Strip(displayName);
      StripOnce(displayName);
      var c := Category(dash(fold(name)), fold(name), name, false, true, sortOrder, actions);
      if c.key == "" || |c.gmailLabel| > 64 || |c.key| > 64 || c.gmailLabel in reserved { return Invalid; }
      if d :| d in s.categories && d.key == c.key {
        assert !Apart(fold, d, c);
        return Invalid;
      }
      if d :| d in s.categories && d.gmailLabel == c.gmailLabel {
        assert !Apart(fold, d, c);
        return Invalid;
      }
      var taken := NameTaken(s.categories, name, None);
      if taken {
        ghost var d :| d in s.categories && Norm(fold, d.displayName) == Norm(fold, name);
        assert !Apart(fold, d, c);
        return Invalid;
      }
      assert Novel(fold, s.categories, c);
      if !labelMade { return BadGateway; }
      AddSound(fold, s, c);
      state := s.(categories := s.categories + [c]);
      reply := Done;
    }

    /** A null in a column that takes none fails when the row is written. By then the move of the mail already
        labelled has been queued; `queued` is what it was queued with. */
    method UpdateCategory(key: string, p: CategoryPatch, plan: bool)
      returns (reply: Reply, queued: Option<bool>, ghost i: int)
      requires Valid()
      modifies this`state
      ensures Valid()
      ensures var cs := Seeded(old(state)).categories;
              && (i == -1 || (0 <= i < |cs| && cs[i].key == key))
              && (i == -1 ==> ByKey(cs, key).None?)
              && reply == (if i < 0 then NotFound
                           else if !cs[i].builtin && !plan then PaymentRequired
                           else if p.displayName.Set? && NameUsed(fold, cs, Strip(p.displayName.value), Some(key))
                             then Invalid
                           else if p.actions.Null? then Invalid
                           else if NullsColumn(p) then ServerError
                           else Done)
              && queued == (if reply.Done? || reply.ServerError? then Flipped(cs[i], p) else None)
              && (!reply.Done? ==> state == old(state))
              && (reply.Done? ==> state == Seeded(old(state)).(categories := cs[i := PatchedCategory(cs[i], p)]))
      ensures queued.Some? ==>
                && p.actions.Set? && p.actions.value.archive == queued
                && 0 <= i < |Seeded(old(state)).categories|
                && Seeded(old(state)).categories[i].actions.archive != queued.value
    {
      queued := None;
      var at := Find(key);
      i := at;
      if at < 0 { return NotFound, None, at; }
      var s := Seeded(state);
      SeedSound(fold, state);
      var c := s.categories[at];
      ghost var was := c;
      if !c.builtin && !plan { return PaymentRequired, None, at; }
      if p.displayName.Set? {
        var name := Strip(p.displayName.value);
        var taken := NameTaken(s.categories, name, Some(c.key));
        if taken { return Invalid, None, at; }
        c := c.(displayName := name);
      }
      if p.actions.Null? { return Invalid, None, at; }
      if p.actions.Set? {
        var merged := Merged(c.actions, p.actions.value);
        if merged.archive != c.actions.archive { queued := Some(merged.archive); }
        c := c.(actions := merged);
      }
      if p.enabled.Set? { c := c.(enabled := p.enabled.value); }
      if p.sortOrder.Set? { c := c.(sortOrder := p.sortOrder.value); }
      assert c == PatchedCategory(was, p);
      if NullsColumn(p) { return ServerError, queued, at; }
      PatchSound(fold, s, at, p);
      state := s.(categories := s.categories[at := c]);
      reply := Done;
    }

    method RemoveCategory(key: string, plan: bool) returns (reply: Reply)
      requires Valid()
      modifies this`state
      ensures Valid()
      ensures var c := ByKey(Seeded(old(state)).categories, key);
              && reply == (if !plan then PaymentRequired
                           else if c.None? then NotFound
                           else if c.value.builtin then Conflict
                           else Done)
              && state == if reply.Done? then Deleted(Seeded(old(state)), key) else old(state)
    {
      if !plan { return PaymentRequired; }
      var i := Find(key);
      if i < 0 { return NotFound; }
      var s := Seeded(state);
      if s.categories[i].builtin { return Conflict; }
      SeedSound(fold, state);
      DeleteSound(fold, s, key);
      state := Deleted(s, key);
      reply := Done;
    }

    method CheckRuleTarget(action: Action, key: Option<string>) returns (ok: bool)
      ensures ok <==> TargetOk(Seeded(state).categories, action, key)
    {
      if action.Exclude? { return true; }
      if key.None? || key.value == "" { return false; }
      ok := ByKey(Seeded(state).categories, key.value).Some?;
    }

    method CreateRule(draft: RuleDraft, now: int, plan: bool) returns (reply: Reply)
      requires Valid()
      modifies this
      ensures Valid()
      ensures reply == (if !plan then PaymentRequired
                        else if !TargetOk(Seeded(old(state)).categories, draft.action, draft.categoryKey) then Invalid
                        else Done)
      ensures state == if reply.Done?
                       then Seeded(old(state)).(rules := old(state).rules
                              + [Rule(old(nextId), NextPriority(old(state).rules), now, draft.matchType,
                                      Strip(draft.matchValue), draft.action, draft.categoryKey, draft.enabled)])
                       else old(state)
    {
      if !plan { return PaymentRequired; }
      var ok := CheckRuleTarget(draft.action, draft.categoryKey);
      if !ok { return Invalid; }
      SeedSound(fold, state);
      var rule := Rule(nextId, NextPriority(state.rules), now, draft.matchType, Strip(draft.matchValue),
                       draft.action, draft.categoryKey, draft.enabled);
      state := Seeded(state).(rules := state.rules + [rule]);
      nextId := nextId + 1;
      reply := Done;
    }

    /** The rule as it would be after the update is what gets checked. No seeding happens here. */
    method UpdateRule(k: nat, p: RulePatch, plan: bool) returns (reply: Reply)
      requires Valid()
      modifies this`state
      ensures Valid()
      ensures reply == (if !plan then PaymentRequired
                        else if k >= |old(state).rules| then NotFound
                        else if !EditOk(old(state), old(state).rules[k], p) then Invalid
                        else if NullsRule(p) then ServerError
                        else Done)
      ensures state == if reply.Done?
                       then old(state).(rules := old(state).rules[k := PatchedRule(old(state).rules[k], p)])
                       else old(state)
    {
      if !plan { return PaymentRequired; }
      if k >= |state.rules| { return NotFound; }
      var r := state.rules[k];
      var newKey := Patched(p.categoryKey, r.categoryKey);
      var newAction := if p.action.Set? then p.action.value else r.action;
      if !p.action.Null? && newAction.Assign? {
        if newKey.None? || newKey.value == "" || ByKey(state.categories, newKey.value).None? { return Invalid; }
      }
      if NullsRule(p) { return ServerError; }
      r := r.(action := newAction, categoryKey := newKey);
      if p.matchType.Set? { r := r.(matchType := p.matchType.value); }
      if p.matchValue.Set? { r := r.(matchValue := Strip(p.matchValue.value)); }
      if p.enabled.Set? { r := r.(enabled := p.enabled.value); }
      if p.priority.Set? { r := r.(priority := p.priority.value); }
      assert r == PatchedRule(state.rules[k], p);
      EditSound(fold, state, k, r, nextId);
      state := state.(rules := state.rules[k := r]);
      reply := Done;
    }

    method RemoveRule(k: nat, plan: bool) returns (reply: Reply)
      requires Valid()
      modifies this`state
      ensures Valid()
      ensures !reply.Done? ==> state == old(state)
      ensures reply == (if !plan then PaymentRequired else if k >= |old(state).rules| then NotFound else Done)
      ensures reply.Done? ==>
                state == old(state).(rules := old(state).rules[..k] + old(state).rules[k + 1..])
    {
      if !plan { return PaymentRequired; }
      if k >= |state.rules| { return NotFound; }
      state := state.(rules := state.rules[..k] + state.rules[k + 1..]);
      reply := Done;
    }

    method ReorderRules(ids: seq<nat>, plan: bool) returns (reply: Reply)
      requires Valid()
      modifies this`state
      ensures Valid()
      ensures !reply.Done? ==> state == old(state)
      ensures reply == (if !plan then PaymentRequired
                        else if Reordered(old(state).rules, ids).None? then Invalid
                        else Done)
      ensures reply.Done? ==> state == old(state).(rules := Reordered(old(state).rules, ids).value)
    {
      if !plan { return PaymentRequired; }
      if !ListsEachOnce(state.rules, ids) { return Invalid; }
      var rules := WriteOrder(state.rules, ids);
      ReorderSound(fold, state, ids, rules);
      state := state.(rules := rules);
      reply := Done;
    }

    /** The model must be an allowed one and the fallback must name a category; a null switch or threshold
        fails when the row is written. */
    method UpdateSettings(p: PrefsPatch) returns (reply: Reply)
      requires Valid()
      modifies this`state
      ensures Valid()
      ensures reply == (if p.model.Set? && p.model.value !in models then Invalid
                        else if p.fallback.Set? && ByKey(Seeded(old(state)).categories, p.fallback.value).None?
                          then Invalid
                        else if p.enabled.Null? || p.threshold.Null? then ServerError
                        else Done)
      ensures state == if reply.Done?
                       then (if p.fallback.Set? then Seeded(old(state)) else old(state)).(
                              fallback := Patched(p.fallback, old(state).fallback),
                              prefs := PatchedPrefs(old(state).prefs, p))
                       else old(state)
    {
      if p.model.Set? && p.model.value !in models { return Invalid; }
      var s := state;
      if p.fallback.Set? {
        SeedSound(fold, state);
        var i := Find(p.fallback.value);
        if i < 0 { return Invalid; }
        s := Seeded(state);
        assert s.categories[i] in s.categories;
      }
      if p.enabled.Null? || p.threshold.Null? { return ServerError; }
      s := s.(fallback := Patched(p.fallback, s.fallback));
      if p.enabled.Set? { s := s.(prefs := s.prefs.(enabled := p.enabled.value)); }
      if p.threshold.Set? { s := s.(prefs := s.prefs.(threshold := p.threshold.value)); }
      s := s.(prefs := s.prefs.(model := Patched(p.model, s.prefs.model), extra := Patched(p.extra, s.prefs.extra)));
      state := s;
      reply := Done;
    }

    method ListCategories()
      requires Valid()
      modifies this`state
      ensures Valid() && state == Seeded(old(state))
    {
      SeedSound(fold, state);
      state := Seeded(state);
    }

    /** Any requests at all, each under whatever plan holds at that moment, leave the taxonomy sound. */
    method Serve(script: seq<(Request, bool)>)
      requires Valid()
      modifies this
      ensures Valid()
    {
      for k := 0 to |script|
        invariant Valid()
      {
        var (request, plan) := script[k];
        var reply;
        var queued: Option<bool>;
        ghost var at0;
        match request
        case ListAll => ListCategories();
        case Create(name, order, actions, labelMade) => reply := CreateCategory(name, order, actions, plan, labelMade);
        case Update(key, p) => reply, queued, at0 := UpdateCategory(key, p, plan);
        case Remove(key) => reply := RemoveCategory(key, plan);
        case AddRule(draft, now) => reply := CreateRule(draft, now, plan);
        case EditRule(at, p) => reply := UpdateRule(at, p, plan);
        case DropRule(at) => reply := RemoveRule(at, plan);
        case Reorder(ids) => reply := ReorderRules(ids, plan);
        case Configure(p) => reply := UpdateSettings(p);
      }
    }
  }

  // ----- rule order ---------------------------------------------------------

  function NextPriority(rules: seq<Rule>): (p: int)
    ensures forall r :: r in rules ==> r.priority < p
    ensures if rules == [] then p == 0 else exists r :: r in rules && p == r.priority + 1
  {
    if rules == [] then 0
    else
      var last := |rules| - 1;
      var p := NextPriority(rules[..last]);
      assert forall r :: r in rules ==> r in rules[..last] || r == rules[last];
      if last == 0 || p <= rules[last].priority then rules[last].priority + 1 else p
  }

  /** Evaluation order: priority, then age. */
  predicate RuleLe(x: Rule, y: Rule) {
    x.priority < y.priority || (x.priority == y.priority && x.createdAt <= y.createdAt)
  }

  function PositionOf(ids: seq<nat>, id: nat): (p: nat)
    ensures p <= |ids| && (id in ids <==> p < |ids|) && (p < |ids| ==> ids[p] == id)
    ensures forall q :: 0 <= q < p ==> ids[q] != id
  {
    if ids == [] || ids[0] == id then 0 else 1 + PositionOf(ids[1..], id)
  }

  function IdSet(ids: seq<nat>): set<nat> { set x | x in ids }

  predicate ListsEachOnce(rules: seq<Rule>, ids: seq<nat>) {
    |ids| == |IdSet(ids)| && IdSet(ids) == set r | r in rules :: r.id
  }

  /** `PUT /rules/order`: refused unless `ids` lists every rule once; then position is priority. */
  function Reordered(rules: seq<Rule>, ids: seq<nat>): Option<seq<Rule>> {
    if ListsEachOnce(rules, ids) then
      Some(seq(|rules|, k requires 0 <= k < |rules| => rules[k].(priority := PositionOf(ids, rules[k].id))))
    else None
  }

  /** A rule once the first `p` listed ids have had their priority written. */
  function Placed(r: Rule, ids: seq<nat>, p: nat): Rule {
    if PositionOf(ids, r.id) < p then r.(priority := PositionOf(ids, r.id)) else r
  }

  function PlacedUpTo(rules: seq<Rule>, ids: seq<nat>, p: nat): seq<Rule> {
    seq(|rules|, k requires 0 <= k < |rules| => Placed(rules[k], ids, p))
  }

  lemma RuleListed(rules: seq<Rule>, ids: seq<nat>, k: nat)
    requires ListsEachOnce(rules, ids) && k < |rules|
    ensures rules[k].id in ids
  {
    var have := set r | r in rules :: r.id;
    assert rules[k] in rules && rules[k].id in have;
  }

  lemma EachListed(rules: seq<Rule>, ids: seq<nat>, p: nat)
    requires ListsEachOnce(rules, ids) && p < |ids|
    ensures exists k :: 0 <= k < |rules| && rules[k].id == ids[p]
  {
    var have := set r | r in rules :: r.id;
    assert ids[p] in IdSet(ids) && ids[p] in have;
  }

  lemma SetSize(s: seq<nat>)
    ensures |IdSet(s)| <= |s|
  {
    if s != [] {
      SetSize(s[1..]);
      assert IdSet(s) == IdSet(s[1..]) + {s[0]};
    }
  }

  /** As many distinct values as positions: no value at two positions. */
  lemma {:induction false} NoDuplicates(s: seq<nat>, i: nat, j: nat)
    requires |s| == |IdSet(s)| && i < j < |s|
    ensures s[i] != s[j]
  {
    if s[i] == s[j] {
      var t := s[..i] + s[i + 1..];
      assert s[j] == t[j - 1];
      forall x | x in s ensures x in t {
        var k :| 0 <= k < |s| && s[k] == x;
        assert k < i ==> t[k] == x;
        assert k > i ==> t[k - 1] == x;
      }
      assert forall x :: x in t ==> x in s;
      assert IdSet(s) == IdSet(t);
      SetSize(t);
      assert false;
    }
  }

  lemma PlacedNext(rules: seq<Rule>, ids: seq<nat>, p: nat, k: nat, j: nat)
    requires ListsEachOnce(rules, ids) && p < |ids| && k < |rules| && j < |rules| && rules[k].id == ids[p]
    requires DistinctIds(rules)
    ensures Placed(rules[j], ids, p + 1)
            == if j == k then Placed(rules[k], ids, p).(priority := p) else Placed(rules[j], ids, p)
  {
    var q := PositionOf(ids, rules[j].id);
    if j == k && q < p {
      NoDuplicates(ids, q, p);
    }
  }

  lemma ReorderSound(fold: string -> string, s: State, ids: seq<nat>, rules: seq<Rule>)
    requires Sound(fold, s) && Reordered(s.rules, ids) == Some(rules)
    ensures Sound(fold, s.(rules := rules))
    ensures forall r :: r in rules ==> exists q :: q in s.rules && q.id == r.id
  {
    forall r | r in rules ensures exists q :: q in s.rules && q.id == r.id {
      var k :| 0 <= k < |rules| && rules[k] == r;
      assert s.rules[k] in s.rules;
    }
    forall r | r in rules && r.action.Assign? ensures Targets(s.categories, r.categoryKey) {
      var k :| 0 <= k < |rules| && rules[k] == r;
      assert s.rules[k] in s.rules;
    }
  }

  /** A request to reorder is taken exactly when it lists every rule, no other, and none twice. */
  lemma ReorderTakenExactly(rules: seq<Rule>, ids: seq<nat>)
    ensures Reordered(rules, ids).Some?
            <==> && (forall i, j :: 0 <= i < j < |ids| ==> ids[i] != ids[j])
                 && (forall r :: r in rules ==> r.id in ids)
                 && (forall id :: id in ids ==> exists r :: r in rules && r.id == id)
  {
    var have := set r | r in rules :: r.id;
    if ListsEachOnce(rules, ids) {
      forall i, j | 0 <= i < j < |ids| ensures ids[i] != ids[j] { NoDuplicates(ids, i, j); }
      forall r | r in rules ensures r.id in ids { assert r.id in have; }
      forall id | id in ids ensures exists r :: r in rules && r.id == id { assert id in IdSet(ids) && id in have; }
    }
    if (forall i, j :: 0 <= i < j < |ids| ==> ids[i] != ids[j]) && (forall r :: r in rules ==> r.id in ids)
       && (forall id :: id in ids ==> exists r :: r in rules && r.id == id)
    {
      DistinctSize(ids);
      forall id | id in ids ensures id in have {
        var r :| r in rules && r.id == id;
      }
      assert IdSet(ids) == have;
    }
  }

  lemma {:induction false} DistinctSize(ids: seq<nat>)
    requires forall i, j :: 0 <= i < j < |ids| ==> ids[i] != ids[j]
    ensures |IdSet(ids)| == |ids|
  {
    if ids != [] {
      DistinctSize(ids[1..]);
      assert IdSet(ids) == IdSet(ids[1..]) + {ids[0]};
      assert ids[0] !in IdSet(ids[1..]);
    }
  }

  /** After a reorder, rules are evaluated in the order the request gave. */
  lemma ReorderObeyed(rules: seq<Rule>, ids: seq<nat>, x: nat, y: nat)
    requires Reordered(rules, ids).Some? && x < |rules| && y < |rules| && rules[x].id != rules[y].id
    ensures var r := Reordered(rules, ids).value;
            && |r| == |rules|
            && r[x] == rules[x].(priority := r[x].priority) && r[y] == rules[y].(priority := r[y].priority)
    ensures var r := Reordered(rules, ids).value;
            Before(RuleLe, r, x, y) <==> PositionOf(ids, rules[x].id) < PositionOf(ids, rules[y].id)
  {
    var have := set r | r in rules :: r.id;
    assert rules[x] in rules && rules[x].id in have;
    assert rules[y] in rules && rules[y].id in have;
    assert rules[x].id in ids && rules[y].id in ids;
  }

  /** Writes each listed position into the rule it names. */
  method WriteOrder(rules: seq<Rule>, ids: seq<nat>) returns (byId: seq<Rule>)
    requires ListsEachOnce(rules, ids) && DistinctIds(rules)
    ensures Reordered(rules, ids) == Some(byId)
  {
    byId := rules;
    for p := 0 to |ids|
      invariant byId == PlacedUpTo(rules, ids, p)
    {
      EachListed(rules, ids, p);
      ghost var at :| 0 <= at < |rules| && rules[at].id == ids[p];
      assert byId[at].id == ids[p];
      var k :| 0 <= k < |rules| && byId[k].id == ids[p];
      PlacedStep(rules, ids, p, k);
      byId := byId[k := byId[k].(priority := p)];
    }
    AllPlaced(rules, ids);
  }

  lemma PlacedStep(rules: seq<Rule>, ids: seq<nat>, p: nat, k: nat)
    requires ListsEachOnce(rules, ids) && DistinctIds(rules) && p < |ids| && k < |rules| && rules[k].id == ids[p]
    ensures var was := PlacedUpTo(rules, ids, p); was[k := was[k].(priority := p)] == PlacedUpTo(rules, ids, p + 1)
  {
    var was := PlacedUpTo(rules, ids, p);
    var now := was[k := was[k].(priority := p)];
    forall j | 0 <= j < |rules| ensures now[j] == Placed(rules[j], ids, p + 1) {
      PlacedNext(rules, ids, p, k, j);
    }
  }

  lemma AllPlaced(rules: seq<Rule>, ids: seq<nat>)
    requires ListsEachOnce(rules, ids)
    ensures Reordered(rules, ids) == Some(PlacedUpTo(rules, ids, |ids|))
  {
    var placed := PlacedUpTo(rules, ids, |ids|);
    forall k | 0 <= k < |rules| ensures placed[k] == rules[k].(priority := PositionOf(ids, rules[k].id)) {
      RuleListed(rules, ids, k);
    }
    assert placed == Reordered(rules, ids).value;
  }

  /** A new rule is evaluated after every existing one. */
  lemma NewRuleLast(rules: seq<Rule>, rule: Rule, x: nat)
    requires rule.priority == NextPriority(rules) && x < |rules|
    ensures Before(RuleLe, rules + [rule], x, |rules|)
  {
    assert rules[x] in rules;
  }
}
