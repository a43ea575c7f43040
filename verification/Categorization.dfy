/** Deciding one message's category and labelling its mail, over a snapshot of the user's taxonomy. */
module Categorization {
  import opened Wrappers
  import opened Ordering
  import opened Taxonomy
  import opened Gmail
  import Tagging = Labels

  // ----- rules --------------------------------------------------------------

  lemma RuleLeOrders()
    ensures TotalPreorder(RuleLe)
  {
  }

  /** `k` is the first enabled rule that fits: no other such rule has a lower priority, or the same and
      an earlier creation. */
  ghost predicate FirstFit(rules: seq<Rule>, fits: Rule -> bool, k: Option<nat>) {
    match k
    case None => forall r :: r in rules && r.enabled ==> !fits(r)
    case Some(i) =>
      && i < |rules| && rules[i].enabled && fits(rules[i])
      && forall j: nat :: j < |rules| && j != i && rules[j].enabled && fits(rules[j]) ==> Sooner(rules, i, j)
  }

  /** Rule `i` is evaluated before rule `j`: a lower priority number, or the same and older, or listed before it. */
  predicate Sooner(rules: seq<Rule>, i: nat, j: nat)
    requires i < |rules| && j < |rules|
  {
    var x, y := rules[i], rules[j];
    || x.priority < y.priority
    || (x.priority == y.priority && (x.createdAt < y.createdAt || (x.createdAt == y.createdAt && i < j)))
  }

  lemma SoonerExactly(rules: seq<Rule>, i: nat, j: nat)
    requires i < |rules| && j < |rules| && i != j
    ensures Before(RuleLe, rules, i, j) <==> Sooner(rules, i, j)
  {
  }

  /** Takes the enabled rules in evaluation order and stops at the first that fits. */
  method MatchRule(rules: seq<Rule>, fits: Rule -> bool) returns (k: Option<nat>)
    ensures FirstFit(rules, fits, k)
  {
    RuleLeOrders();
    OrderSorts(RuleLe, rules);
    var order := Order(RuleLe, rules);
    for p := 0 to |order|
      invariant forall q :: 0 <= q < p ==> !(rules[order[q]].enabled && fits(rules[order[q]]))
    {
      if rules[order[p]].enabled && fits(rules[order[p]]) {
        forall j: nat | j < |rules| && j != order[p] && rules[j].enabled && fits(rules[j])
          ensures Sooner(rules, order[p], j)
        {
          SoonerExactly(rules, order[p], j);
          assert j in order;
          var q :| 0 <= q < |order| && order[q] == j;
          assert Before(RuleLe, rules, order[p], order[q]);
        }
        return Some(order[p]);
      }
    }
    forall r | r in rules && r.enabled ensures !fits(r) {
      var j: nat :| j < |rules| && rules[j] == r;
      assert j in order;
    }
    k := None;
  }

  // ----- the decision -------------------------------------------------------

  datatype Outcome = Excluded | RuleTargetMissing | NoCategories | Undecided | Chosen(category: Category)

  /** The classifier's pick, and how sure it is. */
  datatype Verdict = Verdict(key: Option<string>, confidence: real)

  /** Whether the pick stands: the threshold is inclusive. */
  predicate Trusted(s: State, v: Verdict) { v.key.Some? && v.confidence >= s.prefs.threshold }

  /** `matched` is the first rule that fits; without one the classifier decides. */
  function Decide(s: State, matched: Option<Rule>, verdict: Verdict): Outcome {
    if matched.Some? then
      if matched.value.action.Exclude? then Excluded
      else
        match ByKey(s.categories, if matched.value.categoryKey.Some? then matched.value.categoryKey.value else "")
        case None => RuleTargetMissing
        case Some(c) => Chosen(c)
    else if forall c :: c in s.categories ==> !c.enabled then NoCategories
    else
      var key := if Trusted(s, verdict) then verdict.key else s.fallback;
      if key.None? then Undecided
      else match ByKey(s.categories, key.value)
        case None => Undecided
        case Some(c) => Chosen(c)
  }

  /** In a sound taxonomy no rule points nowhere, and an unsure classifier never leaves mail
      undecided once a fallback is set. */
  lemma TargetNeverMissing(fold: string -> string, s: State, matched: Option<Rule>, verdict: Verdict)
    requires Sound(fold, s) && (matched.Some? ==> matched.value in s.rules)
    ensures var o := Decide(s, matched, verdict);
            && !o.RuleTargetMissing?
            && (o.Chosen? ==> o.category in s.categories)
            && (s.fallback.Some? && !Trusted(s, verdict) ==> !o.Undecided?)
  {
  }

  // ----- labelling ----------------------------------------------------------

  function LabelNames(categories: seq<Category>): (r: seq<string>)
    ensures |r| == |categories| && forall k :: 0 <= k < |r| ==> r[k] == categories[k].gmailLabel
  {
    seq(|categories|, k requires 0 <= k < |categories| => categories[k].gmailLabel)
  }

  predicate SameId(resolve: string -> Option<string>, c: Category, d: Category) {
    resolve(c.gmailLabel).Some? && resolve(c.gmailLabel) == resolve(d.gmailLabel)
  }

  /** Different label names that exist in Gmail have different ids, none of them the star. */
  ghost predicate IdsApart(resolve: string -> Option<string>, categories: seq<Category>) {
    && (forall c, d :: c in categories && d in categories && SameId(resolve, c, d) ==> c.gmailLabel == d.gmailLabel)
    && (forall c :: c in categories ==> resolve(c.gmailLabel) != Some(Tagging.STARRED))
  }

  /** On message labels `on`, the label of `chosen` is there and no other category's is. */
  ghost predicate WearsOnly(on: set<string>, categories: seq<Category>, resolve: string -> Option<string>,
                            chosen: Category)
  {
    forall d :: d in categories && resolve(d.gmailLabel).Some? ==>
      (resolve(d.gmailLabel).value in on <==> d == chosen)
  }

  lemma SameLabelSameCategory(fold: string -> string, s: State, c: Category, d: Category)
    requires Sound(fold, s) && c in s.categories && d in s.categories && c.gmailLabel == d.gmailLabel
    ensures c == d
  {
    var i :| 0 <= i < |s.categories| && s.categories[i] == c;
    var j :| 0 <= j < |s.categories| && s.categories[j] == d;
    assert i < j ==> Apart(fold, s.categories[i], s.categories[j]);
    assert j < i ==> Apart(fold, s.categories[j], s.categories[i]);
  }

  /** The call one choice leads to. */
  function CallFor(s: State, c: Category, resolve: string -> Option<string>): Tagging.Call
    requires resolve(c.gmailLabel).Some?
  {
    Tagging.Call(resolve(c.gmailLabel).value, c.actions, Tagging.Resolved(resolve, LabelNames(s.categories)))
  }

  /** Distinct labels in the taxonomy make the one label a call leaves name the one category chosen. */
  lemma LabelNamesChoice(fold: string -> string, s: State, resolve: string -> Option<string>, chosen: Category,
                         before: set<string>)
    requires Sound(fold, s) && IdsApart(resolve, s.categories) && chosen in s.categories
    requires resolve(chosen.gmailLabel).Some?
    ensures WearsOnly(Worn(before, CallFor(s, chosen, resolve)), s.categories, resolve, chosen)
  {
    var c := CallFor(s, chosen, resolve);
    var on := Worn(before, c);
    LabelsIds(s, resolve);
    Tagging.ExclusiveExactly(map["" := before], {""}, c, c.taxonomy, "");
    forall d | d in s.categories && resolve(d.gmailLabel).Some?
      ensures resolve(d.gmailLabel).value in on <==> d == chosen
    {
      var id := resolve(d.gmailLabel).value;
      assert id in on <==> id in Tagging.Verdicts(on, c.taxonomy);
      if id == c.winner {
        assert SameId(resolve, d, chosen);
        SameLabelSameCategory(fold, s, d, chosen);
      }
    }
  }

  /** A target's labels after a call. */
  function Worn(before: set<string>, c: Tagging.Call): set<string> { (before - Tagging.Removed(c)) + Tagging.Added(c) }

  lemma LabelsIds(s: State, resolve: string -> Option<string>)
    requires IdsApart(resolve, s.categories)
    ensures var ids := Tagging.Resolved(resolve, LabelNames(s.categories));
            && Tagging.STARRED !in ids
            && forall d :: d in s.categories && resolve(d.gmailLabel).Some? ==> resolve(d.gmailLabel).value in ids
  {
    var names := LabelNames(s.categories);
    forall d | d in s.categories ensures d.gmailLabel in names {
      var j :| 0 <= j < |s.categories| && s.categories[j] == d;
      assert names[j] == d.gmailLabel;
    }
    forall n | n in names ensures resolve(n) != Some(Tagging.STARRED) {
      var j :| 0 <= j < |names| && names[j] == n;
      assert s.categories[j] in s.categories;
    }
  }

  ghost function RuleAt(rules: seq<Rule>, k: Option<nat>): Option<Rule>
    requires k.Some? ==> k.value < |rules|
  {
    if k.Some? then Some(rules[k.value]) else None
  }

  ghost predicate HasKey(categories: seq<Category>, key: Option<string>) {
    key.Some? && exists c :: c in categories && c.key == key.value
  }

  /** What a pass must choose, by cases: nothing where a rule excludes or every category is off; the rule's
      category where one assigns, whatever the classifier says; else the classifier's pick if it is sure enough,
      and the fallback if it is not. */
  ghost predicate RightChoice(s: State, rule: Option<Rule>, verdict: Verdict, chosen: Option<string>) {
    if !s.prefs.enabled then chosen.None?
    else if rule.Some? then
      if rule.value.action == Exclude then chosen.None?
      else
        var target := if rule.value.categoryKey.Some? then rule.value.categoryKey else Some("");
        chosen == if HasKey(s.categories, target) then target else None
    else if forall c :: c in s.categories ==> !c.enabled then chosen.None?
    else if verdict.key.Some? && verdict.confidence >= s.prefs.threshold then
      chosen == if HasKey(s.categories, verdict.key) then verdict.key else None
    else
      chosen == if HasKey(s.categories, s.fallback) then s.fallback else None
  }

  /** A category by its key, should there be several the first. */
  ghost predicate Keyed(categories: seq<Category>, key: string, c: Category) {
    exists i :: 0 <= i < |categories| && categories[i] == c && c.key == key
                && forall j :: 0 <= j < i ==> categories[j].key != key
  }

  lemma {:induction false} ByKeyKeyed(categories: seq<Category>, key: string)
    requires ByKey(categories, key).Some?
    ensures Keyed(categories, key, ByKey(categories, key).value)
  {
    if categories[0].key != key {
      var rest := categories[1..];
      ByKeyKeyed(rest, key);
      var i :| 0 <= i < |rest| && rest[i] == ByKey(rest, key).value && rest[i].key == key
               && forall j :: 0 <= j < i ==> rest[j].key != key;
      forall j | 0 <= j < i + 1 ensures categories[j].key != key {
        if j > 0 { assert categories[j] == rest[j - 1]; }
      }
      assert categories[i + 1] == rest[i];
    }
  }

  /** The whole pass for one thread. Nothing is labelled unless a category was chosen and its label exists;
      what is returned is exactly what the mail then wears. */
  method CategorizeAndApply(s: State, fits: Rule -> bool, verdict: Verdict,
                            mailbox: Labels, targets: set<string>, resolve: string -> Option<string>,
                            ghost fold: string -> string)
    returns (after: Labels, key: Option<string>, raised: bool, ghost at: Option<nat>)
    ensures FirstFit(s.rules, fits, at)
    ensures var o := Decide(s, RuleAt(s.rules, at), verdict);
            && (key.Some? <==> s.prefs.enabled && o.Chosen? && resolve(o.category.gmailLabel).Some?)
            && (raised <==> s.prefs.enabled && o.Chosen? && resolve(o.category.gmailLabel).None?)
            && (key.None? ==> after == mailbox)
            && (key.Some? ==>
                  var c := CallFor(s, o.category, resolve);
                  && key == Some(o.category.key)
                  && after == Relabel(mailbox, targets, Tagging.Added(c), Tagging.Removed(c)))
    ensures var rule := RuleAt(s.rules, at);
            && (key.None? && !raised ==> RightChoice(s, rule, verdict, None) && after == mailbox)
            && (key.Some? ==> RightChoice(s, rule, verdict, key))
            && (raised ==> after == mailbox)
            && (raised ==>
                  exists c: Category :: Keyed(s.categories, c.key, c) && resolve(c.gmailLabel).None?
                    && RightChoice(s, rule, verdict, Some(c.key)))
    ensures key.Some? ==>
              exists c :: Keyed(s.categories, key.value, c) && resolve(c.gmailLabel).Some?
                && after == Relabel(mailbox, targets, Tagging.Added(CallFor(s, c, resolve)),
                                    Tagging.Removed(CallFor(s, c, resolve)))
    ensures Sound(fold, s) && IdsApart(resolve, s.categories) && key.Some? ==>
              exists c :: c in s.categories && c.key == key.value
                && forall m :: m in mailbox && m in targets ==> WearsOnly(after[m], s.categories, resolve, c)
  {
    after, key, raised := mailbox, None, false;
    var found := MatchRule(s.rules, fits);
    at := found;
    if !s.prefs.enabled { return; }
    var o := Decide(s, if found.Some? then Some(s.rules[found.value]) else None, verdict);
    if !o.Chosen? { return; }
    var c := o.category;
    var names := LabelNames(s.categories);
    after, raised := Tagging.ApplyCategory(mailbox, targets, resolve, c.gmailLabel, c.actions, names);
    ByKeyKeyed(s.categories, c.key);
    assert Keyed(s.categories, c.key, c);
    if raised { return; }
    key := Some(c.key);
    if Sound(fold, s) && IdsApart(resolve, s.categories) {
      forall m | m in mailbox && m in targets ensures WearsOnly(after[m], s.categories, resolve, c) {
        LabelNamesChoice(fold, s, resolve, c, mailbox[m]);
      }
    }
  }
}
