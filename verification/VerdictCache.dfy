/** The bouncer's bounded, expiring verdict cache. */
module VerdictCache {
  import opened Lru
  import opened Sets
  import opened Wrappers

  datatype Verdict = Verdict(deny: bool, scenario: string)

  datatype Entry = Entry(verdict: Verdict, expires: int)

  datatype State = State(entries: map<Key, Entry>, order: seq<Key>) {
    ghost predicate Valid(cap: nat) { Consistent(order, entries, cap) }
  }

  // ----- what each operation does -----

  function Got(s: State, key: Key, now: int): (Option<Verdict>, State) {
    if key !in s.entries then (None, s)
    else if now >= s.entries[key].expires then (None, State(s.entries - {key}, Without(s.order, key)))
    else (Some(s.entries[key].verdict), s.(order := Touched(s.order, key)))
  }

  /** The state after making room for one more key. */
  function Evicted(s: State, cap: nat): State {
    if |s.order| >= cap && s.order != [] then State(s.entries - {s.order[0]}, s.order[1..]) else s
  }

  function Stored(s: State, cap: nat, key: Key, v: Verdict, ttl: int, now: int): State {
    if ttl <= 0 then s
    else
      var room := if key in s.entries then s else Evicted(s, cap);
      State(room.entries[key := Entry(v, now + ttl)], Touched(room.order, key))
  }

  // ----- the cache -----

  class Cache {
    const max: nat
    var entries: map<Key, Entry>
    var order: seq<Key>

    ghost function Contents(): State
      reads this
    {
      State(entries, order)
    }

    ghost predicate Valid()
      reads this
    {
      Contents().Valid(max)
    }

    constructor (max: nat)
      ensures Valid() && this.max == max && Contents() == State(map[], [])
    {
      this.max, entries, order := max, map[], [];
    }

    method Get(key: Key, now: int) returns (found: Option<Verdict>)
      requires Valid()
      modifies this
      ensures Valid() && (found, Contents()) == Got(old(Contents()), key, now)
    {
      WithoutKeys(order, key);
      TouchedKeys(order, key);
      if key !in entries { return None; }
      var e := entries[key];
      if now >= e.expires {
        order := Without(order, key);
        entries := entries - {key};
        return None;
      }
      order := Touched(order, key);
      return Some(e.verdict);
    }

    method Store(key: Key, v: Verdict, ttl: int, now: int)
      requires Valid() && max >= 1
      modifies this
      ensures Valid() && Contents() == Stored(old(Contents()), max, key, v, ttl, now)
    {
      StoredValid(Contents(), max, key, v, ttl, now);
      if ttl <= 0 { return; }
      if key !in entries { MakeRoom(); }
      Place(key, Entry(v, now + ttl));
    }

    /** The key's entry is set and moved to the back, or added there. */
    method Place(key: Key, e: Entry)
      modifies this
      ensures Contents() == State(old(entries)[key := e], Touched(old(order), key))
    {
      entries := entries[key := e];
      order := Touched(order, key);
    }

    method MakeRoom()
      modifies this
      ensures Contents() == Evicted(old(Contents()), max)
    {
      if |order| >= max && order != [] {
        entries := entries - {order[0]};
        order := order[1..];
      }
    }
  }

  lemma EvictedValid(s: State, cap: nat)
    requires s.Valid(cap) && cap >= 1
    ensures Evicted(s, cap).Valid(cap) && |Evicted(s, cap).order| < cap
  {
    if |s.order| >= cap {
      assert s.order == [s.order[0]] + s.order[1..];
    }
  }

  lemma StoredValid(s: State, cap: nat, key: Key, v: Verdict, ttl: int, now: int)
    requires s.Valid(cap) && cap >= 1
    ensures Stored(s, cap, key, v, ttl, now).Valid(cap)
  {
    EvictedValid(s, cap);
    TouchedKeys(s.order, key);
    TouchedKeys(Evicted(s, cap).order, key);
  }

  // ----- runs -----

  datatype Op = Get | Put(verdict: Verdict, ttl: int)

  datatype Event = Event(op: Op, key: Key, at: int)

  predicate Ordered(run: seq<Event>) {
    forall i, j | 0 <= i < j < |run| :: run[i].at <= run[j].at
  }

  function Step(s: State, cap: nat, e: Event): State {
    match e.op
    case Get => Got(s, e.key, e.at).1
    case Put(v, ttl) => Stored(s, cap, e.key, v, ttl, e.at)
  }

  function After(cap: nat, run: seq<Event>): State {
    if run == [] then State(map[], []) else Step(After(cap, run[..|run| - 1]), cap, run[|run| - 1])
  }

  /** The latest verdict stored for the key, with its expiry. A put with a non-positive time to live
      stores nothing, and so leaves the one before it in force. */
  function LatestPut(run: seq<Event>, key: Key): Option<Entry> {
    if run == [] then None
    else
      var last := run[|run| - 1];
      if last.key == key && last.op.Put? && last.op.ttl > 0 then Some(Entry(last.op.verdict, last.at + last.op.ttl))
      else LatestPut(run[..|run| - 1], key)
  }

  /** The keys touched, in order: every stored put, and every get that hits. */
  function Touches(cap: nat, run: seq<Event>): seq<Key> {
    if run == [] then []
    else
      var last, before := run[|run| - 1], Touches(cap, run[..|run| - 1]);
      var touched := if last.op.Put? then last.op.ttl > 0
        else Got(After(cap, run[..|run| - 1]), last.key, last.at).0.Some?;
      if touched then before + [last.key] else before
  }

  // ----- main results -----

  /** In every reachable state map and list hold the same keys, each once, within the cap, the list
      in the order the keys were last touched. */
  lemma {:induction false} RunConsistent(cap: nat, run: seq<Event>)
    requires cap >= 1
    ensures After(cap, run).Valid(cap) && ByRecency(After(cap, run).order, Touches(cap, run))
  {
    if run != [] {
      var front, last := run[..|run| - 1], run[|run| - 1];
      RunConsistent(cap, front);
      StepConsistent(After(cap, front), cap, Touches(cap, front), last);
    }
  }

  lemma StepConsistent(s: State, cap: nat, touches: seq<Key>, e: Event)
    requires cap >= 1 && s.Valid(cap) && ByRecency(s.order, touches)
    ensures Step(s, cap, e).Valid(cap)
    ensures var touched := if e.op.Put? then e.op.ttl > 0 else Got(s, e.key, e.at).0.Some?;
      ByRecency(Step(s, cap, e).order, if touched then touches + [e.key] else touches)
  {
    WithoutKeys(s.order, e.key);
    WithoutByRecency(s.order, touches, e.key);
    TouchedKeys(s.order, e.key);
    TouchedByRecency(s.order, touches, e.key);
    if e.op.Put? {
      StoredValid(s, cap, e.key, e.op.verdict, e.op.ttl, e.at);
      EvictedValid(s, cap);
      TouchedByRecency(Evicted(s, cap).order, touches, e.key);
    }
  }

  /** A put that finds the cache full makes room by dropping the key touched longest ago. */
  lemma EvictsLongestUntouched(cap: nat, run: seq<Event>, other: Key)
    requires cap >= 1 && |After(cap, run).order| == cap
    ensures var s := After(cap, run); var gone := s.order[0];
      && Evicted(s, cap).entries == s.entries - {gone} && gone in s.entries
      && (other in s.entries && other != gone
          ==> LastTouch(Touches(cap, run), gone) < LastTouch(Touches(cap, run), other))
  {
    RunConsistent(cap, run);
    var s := After(cap, run);
    if other in s.entries && other != s.order[0] {
      var i :| 0 <= i < |s.order| && s.order[i] == other;
    }
  }

  /** Every entry is the latest put for its key. */
  lemma {:induction false} EntriesAreLatest(cap: nat, run: seq<Event>, key: Key)
    ensures key in After(cap, run).entries ==> LatestPut(run, key) == Some(After(cap, run).entries[key])
  {
    if run != [] { EntriesAreLatest(cap, run[..|run| - 1], key); }
  }

  /** A hit returns exactly the latest verdict stored for the key, and only before its expiry. */
  lemma HitIsLatest(cap: nat, run: seq<Event>, key: Key, now: int)
    ensures var found := Got(After(cap, run), key, now).0;
      found.Some? ==> LatestPut(run, key).Some? && found.value == LatestPut(run, key).value.verdict
                      && now < LatestPut(run, key).value.expires
  {
    EntriesAreLatest(cap, run, key);
  }

  /** A put with no time to live does not even clear the key: the verdict before it stays a hit. */
  lemma StaleVerdictExample(cap: nat, key: Key, deny: Verdict, allow: Verdict)
    requires cap >= 1
    ensures Got(After(cap, [Event(Put(deny, 60), key, 0), Event(Put(allow, 0), key, 1)]), key, 2).0 == Some(deny)
  {
    var first, both := [Event(Put(deny, 60), key, 0)], [Event(Put(deny, 60), key, 0), Event(Put(allow, 0), key, 1)];
    assert both[..1] == first && first[..0] == [];
    assert After(cap, both) == After(cap, first);
  }

  function KeysOf(run: seq<Event>): set<Key> {
    set i | 0 <= i < |run| :: run[i].key
  }

  /** The key's entry is in place, with only the given keys touched since. */
  ghost predicate Holds(s: State, key: Key, e: Entry, since: set<Key>) {
    && key in s.entries && s.entries[key] == e
    && Behind(s.order, key, since)
  }

  /** Conversely, a stored verdict is a hit until it expires unless at least cap other keys were used
      since: eviction takes no key out of turn. */
  lemma HitUntilCrowded(cap: nat, run: seq<Event>, key: Key, v: Verdict, ttl: int, at: int, rest: seq<Event>, now: int)
    requires cap >= 1 && ttl > 0 && now < at + ttl
    requires key !in KeysOf(rest) && |KeysOf(rest)| < cap
    ensures Got(After(cap, run + [Event(Put(v, ttl), key, at)] + rest), key, now).0 == Some(v)
  {
    var put := Event(Put(v, ttl), key, at);
    assert (run + [put])[..|run|] == run;
    var o := After(cap, run + [put]).order;
    assert o[|o| - 1] == key;
    StillHolds(cap, run + [put], key, Entry(v, at + ttl), rest);
  }

  lemma {:induction false} StillHolds(cap: nat, run: seq<Event>, key: Key, e: Entry, rest: seq<Event>)
    requires cap >= 1 && key !in KeysOf(rest) && |KeysOf(rest)| < cap
    requires Holds(After(cap, run), key, e, {})
    ensures Holds(After(cap, run + rest), key, e, KeysOf(rest))
  {
    if rest == [] {
      assert run + rest == run;
    } else {
      var front, last := rest[..|rest| - 1], rest[|rest| - 1];
      assert (run + rest)[..|run + rest| - 1] == run + front;
      KeysGrow(rest);
      SubsetSize(KeysOf(front), KeysOf(rest));
      StillHolds(cap, run, key, e, front);
      RunConsistent(cap, run + front);
      StepHolds(After(cap, run + front), cap, key, e, KeysOf(front), last);
    }
  }

  lemma KeysGrow(run: seq<Event>)
    requires run != []
    ensures KeysOf(run) == KeysOf(run[..|run| - 1]) + {run[|run| - 1].key}
  {
  }

  /** One use of another key keeps the entry, as long as fewer than cap keys are involved. */
  lemma StepHolds(s: State, cap: nat, key: Key, e: Entry, since: set<Key>, ev: Event)
    requires cap >= 1 && s.Valid(cap) && Holds(s, key, e, since)
    requires ev.key != key && |since + {ev.key}| < cap
    ensures Holds(Step(s, cap, ev), key, e, since + {ev.key})
  {
    var more := since + {ev.key};
    WithoutHolds(s.order, key, since, ev.key);
    if ev.op.Put? && ev.op.ttl > 0 && ev.key !in s.entries && |s.order| >= cap {
      if s.order[0] == key {
        assert s.order[0] !in s.order[1..];
        Crowd(s.order[1..] + [ev.key], more);
        assert false;
      }
      assert s.order[1..] == Without(s.order, s.order[0]);
      WithoutHolds(s.order, key, since, s.order[0]);
      WithoutHolds(s.order[1..], key, since, ev.key);
    }
  }

  ghost predicate Behind(order: seq<Key>, key: Key, since: set<Key>) {
    exists i | 0 <= i < |order| :: order[i] == key && forall j | i < j < |order| :: order[j] in since
  }

  lemma {:induction false} WithoutHolds(order: seq<Key>, key: Key, since: set<Key>, other: Key)
    requires Behind(order, key, since) && other != key
    ensures Behind(Without(order, other), key, since)
    ensures Behind(Touched(order, other), key, since + {other})
  {
    var i :| 0 <= i < |order| && order[i] == key && forall j | i < j < |order| :: order[j] in since;
    if order[0] == other {
      assert order[1..][i - 1] == key;
      AtBack(order[1..], i - 1, key, since, other);
    } else if i == 0 {
      WithoutMembers(order[1..], other);
      var w := Without(order[1..], other);
      forall j | 0 <= j < |w| ensures w[j] in since {
        assert w[j] in order[1..];
      }
      AtBack(Without(order, other), 0, key, since, other);
    } else {
      assert order[1..][i - 1] == key;
      WithoutHolds(order[1..], key, since, other);
      var w := Without(order[1..], other);
      var k :| 0 <= k < |w| && w[k] == key && forall j | k < j < |w| :: w[j] in since;
      AtBack([order[0]] + w, k + 1, key, since, other);
    }
  }

  lemma AtBack(order: seq<Key>, i: nat, key: Key, since: set<Key>, other: Key)
    requires i < |order| && order[i] == key && forall j | i < j < |order| :: order[j] in since
    ensures Behind(order, key, since) && Behind(order + [other], key, since + {other})
  {
    assert (order + [other])[i] == key;
  }

  lemma {:induction false} WithoutMembers(order: seq<Key>, other: Key)
    ensures forall k | k in Without(order, other) :: k in order
  {
    if order != [] { WithoutMembers(order[1..], other); }
  }

  /** Distinct keys drawn from a set are at most as many as the set. */
  lemma {:induction false} Crowd(keys: seq<Key>, among: set<Key>)
    requires Distinct(keys) && forall k | k in keys :: k in among
    ensures |keys| <= |among|
  {
    if keys != [] {
      forall k | k in keys[1..] ensures k in among - {keys[0]} {
        assert k in keys;
      }
      Crowd(keys[1..], among - {keys[0]});
    }
  }
}
