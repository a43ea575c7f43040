/** The part of Redis the guards use: integer values with an optional expiry, on one clock. */
module Redis {
  import opened Wrappers

  datatype Entry = Entry(value: int, deadline: Option<int>)

  /** What a reader sees at `now`: an entry is gone from its deadline on. */
  function Seen(slot: Option<Entry>, now: int): Option<Entry> {
    if slot.Some? && (slot.value.deadline.None? || now < slot.value.deadline.value) then slot else None
  }

  /** INCR: one more, or one on a missing key; the expiry is kept. */
  function Bumped(slot: Option<Entry>, now: int): Entry {
    match Seen(slot, now)
    case None => Entry(1, None)
    case Some(e) => Entry(e.value + 1, e.deadline)
  }

  /** EXPIRE: a missing key stays missing. */
  function WithTtl(slot: Option<Entry>, now: int, seconds: int): Option<Entry> {
    match Seen(slot, now)
    case None => None
    case Some(e) => Some(Entry(e.value, Some(now + seconds)))
  }

  class Store {
    var now: int
    var keys: map<string, Entry>

    constructor (now: int)
      ensures this.now == now && keys == map[]
    {
      this.now := now;
      keys := map[];
    }

    function Slot(key: string): Option<Entry>
      reads this
    {
      if key in keys then Some(keys[key]) else None
    }

    method Incr(key: string) returns (n: int)
      modifies this`keys
      ensures keys == old(keys)[key := Bumped(old(Slot(key)), now)]
      ensures n == keys[key].value
    {
      keys := keys[key := Bumped(Slot(key), now)];
      n := keys[key].value;
    }

    method Expire(key: string, seconds: int)
      modifies this`keys
      ensures keys == match WithTtl(old(Slot(key)), now, seconds)
                      case None => old(keys) - {key}
                      case Some(e) => old(keys)[key := e]
    {
      match WithTtl(Slot(key), now, seconds)
      case None => keys := keys - {key};
      case Some(e) => keys := keys[key := e];
    }

    /** SET key 1 NX EX seconds. */
    method SetNxEx(key: string, seconds: int) returns (ok: bool)
      modifies this`keys
      ensures ok <==> Seen(old(Slot(key)), now).None?
      ensures keys == if ok then old(keys)[key := Entry(1, Some(now + seconds))] else old(keys)
    {
      ok := Seen(Slot(key), now).None?;
      if ok { keys := keys[key := Entry(1, Some(now + seconds))]; }
    }

    method Delete(key: string)
      modifies this`keys
      ensures keys == old(keys) - {key}
    {
      keys := keys - {key};
    }
  }
}
