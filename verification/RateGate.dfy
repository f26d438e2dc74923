/** The login gates' bounded sliding window: a key may begin only so many attempts within a window,
    and a table full of live keys admits no new one. Times are on one non-decreasing clock. */
module RateGate {
  import opened Sets
  import opened Wrappers

  type Key = string

  datatype Entry = Entry(fails: nat, resetAt: int)

  type Entries = map<Key, Entry>

  datatype Limits = Limits(window: int, limit: int, maxKeys: int) {
    /** A fresh entry is granted before the limit is looked at. */
    function Most(): int { if limit < 1 then 1 else limit }
  }

  // ----- what each operation does to the table -----

  predicate Expired(e: Entry, now: int) { now > e.resetAt }

  function Live(m: Entries, now: int): Entries {
    map k | k in m && !Expired(m[k], now) :: m[k]
  }

  /** Expired keys are swept only when the table is full. */
  function Swept(c: Limits, m: Entries, now: int): Entries {
    if |m| < c.maxKeys then m else Live(m, now)
  }

  predicate Saturated(c: Limits, m: Entries, now: int) {
    |Swept(c, m, now)| >= c.maxKeys
  }

  function Counted(c: Limits, m: Entries, key: Key, now: int): Entries {
    m[key := Entry(if key in m then m[key].fails + 1 else 1, now + c.window)]
  }

  function WithoutExpired(m: Entries, key: Key, now: int): Entries {
    if key in m && Expired(m[key], now) then m - {key} else m
  }

  predicate AtLimit(c: Limits, m: Entries, key: Key, now: int) {
    if key !in m then Saturated(c, m, now) else !Expired(m[key], now) && m[key].fails >= c.limit
  }

  function Looked(c: Limits, m: Entries, key: Key, evict: bool, now: int): Entries {
    if key !in m then Swept(c, m, now) else if evict then WithoutExpired(m, key, now) else m
  }

  function Recorded(c: Limits, m: Entries, key: Key, now: int): Entries {
    if key in m then Counted(c, WithoutExpired(m, key, now), key, now)
    else if Saturated(c, m, now) then Swept(c, m, now)
    else Counted(c, Swept(c, m, now), key, now)
  }

  function Tried(c: Limits, m: Entries, key: Key, now: int): (bool, Entries) {
    var m := WithoutExpired(m, key, now);
    if key !in m then
      if Saturated(c, m, now) then (false, Swept(c, m, now)) else (true, Counted(c, Swept(c, m, now), key, now))
    else if m[key].fails >= c.limit then (false, m)
    else (true, Counted(c, m, key, now))
  }

  // ----- the gate -----

  class Gate {
    const limits: Limits
    var entries: Entries

    constructor (window: int, limit: int, maxKeys: int)
      ensures limits == Limits(window, limit, maxKeys) && entries == map[]
    {
      limits, entries := Limits(window, limit, maxKeys), map[];
    }

    method Sweep(now: int)
      modifies this
      ensures entries == Live(old(entries), now)
    {
      var todo := entries.Keys;
      while todo != {}
        invariant todo <= old(entries).Keys
        invariant entries == map k | k in old(entries)
          && (k in todo || !Expired(old(entries)[k], now)) :: old(entries)[k]
        decreases |todo|
      {
        var k :| k in todo;
        if k in entries && now > entries[k].resetAt {
          entries := entries - {k};
        }
        todo := todo - {k};
      }
    }

    method IsSaturated(now: int) returns (full: bool)
      modifies this
      ensures entries == Swept(limits, old(entries), now) && full == Saturated(limits, old(entries), now)
    {
      if |entries| < limits.maxKeys { return false; }
      Sweep(now);
      return |entries| >= limits.maxKeys;
    }

    method CheckLimit(key: Key, evict: bool, now: int) returns (at: bool)
      modifies this
      ensures at == AtLimit(limits, old(entries), key, now) && entries == Looked(limits, old(entries), key, evict, now)
    {
      if key !in entries {
        at := IsSaturated(now);
        return;
      }
      if now > entries[key].resetAt {
        if evict { entries := entries - {key}; }
        return false;
      }
      return entries[key].fails >= limits.limit;
    }

    method Record(key: Key, now: int)
      modifies this
      ensures entries == Recorded(limits, old(entries), key, now)
    {
      var fails := 0;
      if key !in entries || now > entries[key].resetAt {
        if key !in entries {
          var full := IsSaturated(now);
          if full { return; }
        }
      } else {
        fails := entries[key].fails;
      }
      entries := entries[key := Entry(fails + 1, now + limits.window)];
    }

    method TryBegin(key: Key, now: int) returns (granted: bool)
      modifies this
      ensures (granted, entries) == Tried(limits, old(entries), key, now)
    {
      if key in entries && now > entries[key].resetAt {
        entries := entries - {key};
      }
      var fails := 0;
      if key !in entries {
        var full := IsSaturated(now);
        if full { return false; }
      } else if entries[key].fails >= limits.limit {
        return false;
      } else {
        fails := entries[key].fails;
      }
      entries := entries[key := Entry(fails + 1, now + limits.window)];
      return true;
    }

    method Clear(key: Key)
      modifies this
      ensures entries == old(entries) - {key}
    {
      entries := entries - {key};
    }

    method Remaining(key: Key, now: int) returns (wait: int)
      modifies this
      ensures wait == Wait(limits, old(entries), key, now)
      ensures entries == if key in old(entries) then old(entries) else Swept(limits, old(entries), now)
    {
      if key !in entries {
        var full := IsSaturated(now);
        return if full then limits.window else 0;
      }
      var d := entries[key].resetAt - now;
      if d <= 0 || entries[key].fails < limits.limit { return 0; }
      return d;
    }
  }

  function Wait(c: Limits, m: Entries, key: Key, now: int): int {
    if key !in m then if Saturated(c, m, now) then c.window else 0
    else if m[key].resetAt <= now || m[key].fails < c.limit then 0
    else m[key].resetAt - now
  }

  // ----- runs -----

  datatype Op = TryBegin | Record | CheckLimit(evict: bool) | Clear | Remaining

  datatype Event = Event(op: Op, key: Key, at: int)

  /** The table after one operation, and whether it granted an attempt. */
  function Step(c: Limits, m: Entries, e: Event): (bool, Entries) {
    match e.op
    case TryBegin => Tried(c, m, e.key, e.at)
    case Record => (false, Recorded(c, m, e.key, e.at))
    case CheckLimit(evict) => (false, Looked(c, m, e.key, evict, e.at))
    case Clear => (false, m - {e.key})
    case Remaining => (false, if e.key in m then m else Swept(c, m, e.at))
  }

  predicate Ordered(run: seq<Event>) {
    forall i, j | 0 <= i < j < |run| :: run[i].at <= run[j].at
  }

  /** The table after a run from the empty one. */
  function After(c: Limits, run: seq<Event>): Entries {
    if run == [] then map[] else Step(c, After(c, run[..|run| - 1]), run[|run| - 1]).1
  }

  /** When the run granted the key an attempt. */
  function Grants(c: Limits, run: seq<Event>, key: Key): seq<int> {
    if run == [] then []
    else
      var last := run[|run| - 1];
      var before := Grants(c, run[..|run| - 1], key);
      if last.key == key && Step(c, After(c, run[..|run| - 1]), last).0 then before + [last.at] else before
  }

  // ----- main results -----

  /** Sweeping and expiry leave at most maxKeys keys, for ever. */
  lemma {:induction false} TableBounded(c: Limits, run: seq<Event>)
    requires c.maxKeys >= 0
    ensures |After(c, run)| <= c.maxKeys
  {
    if run != [] {
      TableBounded(c, run[..|run| - 1]);
      StepBounded(c, After(c, run[..|run| - 1]), run[|run| - 1]);
    }
  }

  lemma Added(m: Entries, key: Key, e: Entry)
    ensures |m[key := e]| <= |m| + 1 && (key in m ==> |m[key := e]| == |m|)
  {
    var n := m[key := e];
    assert n.Keys == m.Keys + {key};
    assert |n| == |n.Keys| && |m| == |m.Keys|;
  }

  lemma StepBounded(c: Limits, m: Entries, e: Event)
    requires |m| <= c.maxKeys
    ensures |Step(c, m, e).1| <= c.maxKeys
  {
    match e.op
    case TryBegin => TriedBounded(c, m, e.key, e.at);
    case Record => RecordedBounded(c, m, e.key, e.at);
    case CheckLimit(_) => FewerKeys(Looked(c, m, e.key, e.op.evict, e.at), m);
    case Clear => FewerKeys(m - {e.key}, m);
    case Remaining => FewerKeys(Swept(c, m, e.at), m);
  }

  lemma TriedBounded(c: Limits, m: Entries, key: Key, now: int)
    requires |m| <= c.maxKeys
    ensures |Tried(c, m, key, now).1| <= c.maxKeys
  {
    var w := WithoutExpired(m, key, now);
    FewerKeys(w, m);
    FewerKeys(Swept(c, w, now), w);
    CountedBounded(c, w, key, now);
    CountedBounded(c, Swept(c, w, now), key, now);
  }

  lemma RecordedBounded(c: Limits, m: Entries, key: Key, now: int)
    requires |m| <= c.maxKeys
    ensures |Recorded(c, m, key, now)| <= c.maxKeys
  {
    FewerKeys(Swept(c, m, now), m);
    if key in m {
      FewerKeys(Counted(c, WithoutExpired(m, key, now), key, now), m);
    } else {
      CountedBounded(c, Swept(c, m, now), key, now);
    }
  }

  lemma CountedBounded(c: Limits, m: Entries, key: Key, now: int)
    ensures |Counted(c, m, key, now)| <= |m| + 1 && (key in m ==> |Counted(c, m, key, now)| == |m|)
  {
    Added(m, key, Counted(c, m, key, now)[key]);
  }

  /** An attempt is refused exactly when the key is at its limit at that instant. */
  lemma RefusedIffAtLimit(c: Limits, run: seq<Event>, key: Key, now: int)
    requires c.maxKeys >= 0
    ensures !Tried(c, After(c, run), key, now).0 <==> AtLimit(c, After(c, run), key, now)
  {
    var m := After(c, run);
    TableBounded(c, run);
    if key in m && Expired(m[key], now) {
      assert (m - {key}).Keys == m.Keys - {key};
      assert |m - {key}| == |(m - {key}).Keys| < |m.Keys| == |m|;
    }
  }

  /** A key still at its limit waits a positive time, except at the very instant its entry runs
      out, which counts as inside the window but leaves nothing to wait. */
  lemma WaitIffAtLimit(c: Limits, m: Entries, key: Key, now: int)
    requires c.window > 0
    ensures Wait(c, m, key, now) > 0 <==> AtLimit(c, m, key, now) && !(key in m && m[key].resetAt == now)
  {
  }

  /** What ties a key's entry to the grants `g` it had so far: the last n of them are counted in the
      live entry, and every earlier one is more than a window old. */
  ghost predicate Tracks(c: Limits, m: Entries, key: Key, g: seq<int>, n: nat, now: int) {
    && n <= |g| && n <= c.Most()
    && (forall i | 0 <= i < |g| :: g[i] <= now)
    && (forall i | 0 <= i < |g| - n :: g[i] + c.window < now)
    && (n > 0 ==> key in m)
    && (key in m ==> n <= m[key].fails && forall i | |g| - n <= i < |g| :: g[i] + c.window <= m[key].resetAt)
  }

  /** Any Most() + 1 successive grants span more than a window. */
  ghost predicate Spaced(c: Limits, g: seq<int>) {
    forall i, j | 0 <= i && i + c.Most() <= j < |g| :: g[j] - g[i] > c.window
  }

  predicate InWindow(m: Entries, key: Key, now: int) {
    key in m && !Expired(m[key], now)
  }

  /** What one operation can do to one key. */
  lemma KeyAfter(c: Limits, m: Entries, key: Key, e: Event)
    ensures var (granted, m2) := Step(c, m, e); var mine := granted && e.key == key;
      && (mine ==> key in m2 && m2[key].resetAt == e.at + c.window)
      && (mine && InWindow(m, key, e.at) ==> m[key].fails < c.limit && m2[key].fails == m[key].fails + 1)
      && (mine && !InWindow(m, key, e.at) ==> m2[key].fails == 1)
      && (!mine && InWindow(m, key, e.at) && !(e.op == Clear && e.key == key) ==>
            key in m2 && (m2[key] == m[key] || m2[key] == Entry(m[key].fails + 1, e.at + c.window)))
      && (key in m2 ==> (key in m && m2[key] == m[key]) || m2[key].resetAt == e.at + c.window)
  {
    if e.key != key {
      OtherKey(c, m, key, e);
    } else {
      var w := WithoutExpired(m, key, e.at);
      assert key in Swept(c, m, e.at) ==> key in m && Swept(c, m, e.at)[key] == m[key];
      assert key in w <==> InWindow(m, key, e.at);
      match e.op
      case TryBegin => assert key !in w ==> key !in Swept(c, w, e.at);
      case Record =>
      case CheckLimit(_) =>
      case Clear =>
      case Remaining =>
    }
  }

  lemma OtherKey(c: Limits, m: Entries, key: Key, e: Event)
    requires e.key != key
    ensures var m2 := Step(c, m, e).1;
      (InWindow(m, key, e.at) ==> key in m2) && (key in m2 ==> key in m && m2[key] == m[key])
  {
    var w := WithoutExpired(m, e.key, e.at);
    assert InWindow(m, key, e.at) ==> key in Swept(c, w, e.at) && key in Swept(c, m, e.at);
    match e.op
    case TryBegin =>
    case Record =>
    case CheckLimit(_) =>
    case Clear =>
    case Remaining =>
  }

  lemma StepTracks(c: Limits, m: Entries, key: Key, g: seq<int>, n: nat, now: int, e: Event) returns (n2: nat)
    requires Tracks(c, m, key, g, n, now) && Spaced(c, g) && now <= e.at
    requires !(e.op == Clear && e.key == key)
    ensures var (granted, m2) := Step(c, m, e);
      var g2 := if granted && e.key == key then g + [e.at] else g;
      Tracks(c, m2, key, g2, n2, e.at) && Spaced(c, g2)
  {
    KeyAfter(c, m, key, e);
    var (granted, m2) := Step(c, m, e);
    var kept := if InWindow(m, key, e.at) then n else 0;
    n2 := if granted && e.key == key then kept + 1 else kept;
    KeyTracks(c, m, m2, key, g, n, now, e.at, granted && e.key == key, kept, n2);
  }

  /** The bookkeeping of StepTracks, with the tables known only through the key's own entry. */
  lemma KeyTracks(c: Limits, m: Entries, m2: Entries, key: Key, g: seq<int>, n: nat, now: int, at: int, mine: bool,
                  kept: nat, n2: nat)
    requires Tracks(c, m, key, g, n, now) && Spaced(c, g) && now <= at
    requires kept == (if InWindow(m, key, at) then n else 0) && n2 == if mine then kept + 1 else kept
    requires mine ==> key in m2 && m2[key].resetAt == at + c.window
    requires mine && InWindow(m, key, at) ==> m[key].fails < c.limit && m2[key].fails == m[key].fails + 1
    requires mine && !InWindow(m, key, at) ==> m2[key].fails == 1
    requires !mine && InWindow(m, key, at) ==>
      key in m2 && (m2[key] == m[key] || m2[key] == Entry(m[key].fails + 1, at + c.window))
    ensures var g2 := if mine then g + [at] else g; Tracks(c, m2, key, g2, n2, at) && Spaced(c, g2)
  {
    assert forall i | 0 <= i < |g| - kept :: g[i] + c.window < at;
  }

  lemma {:induction false} RunTracks(c: Limits, run: seq<Event>, key: Key, now: int) returns (n: nat)
    requires Ordered(run) && (run != [] ==> run[|run| - 1].at == now)
    requires forall e | e in run :: !(e.op == Clear && e.key == key)
    ensures Tracks(c, After(c, run), key, Grants(c, run, key), n, now) && Spaced(c, Grants(c, run, key))
  {
    if run == [] {
      n := 0;
    } else {
      var front, last := run[..|run| - 1], run[|run| - 1];
      var before := if front == [] then now else front[|front| - 1].at;
      n := RunTracks(c, front, key, before);
      n := StepTracks(c, After(c, front), key, Grants(c, front, key), n, before, last);
    }
  }

  ghost predicate Nondecreasing(ts: seq<int>) {
    forall i, j | 0 <= i < j < |ts| :: ts[i] <= ts[j]
  }

  /** How many of the times lie in a window. */
  function Within(ts: seq<int>, from: int, to: int): nat {
    if ts == [] then 0 else Within(ts[..|ts| - 1], from, to) + if from <= ts[|ts| - 1] <= to then 1 else 0
  }

  lemma {:induction false} SpacedIsBounded(c: Limits, g: seq<int>, from: int) returns (oldest: nat)
    requires Spaced(c, g) && Nondecreasing(g)
    ensures Within(g, from, from + c.window) <= c.Most()
    ensures oldest <= |g| && (oldest < |g| ==> g[oldest] >= from) && |g| - oldest >= Within(g, from, from + c.window)
    ensures forall i | 0 <= i < oldest :: g[i] < from
  {
    if g == [] {
      oldest := 0;
    } else {
      var front := g[..|g| - 1];
      oldest := SpacedIsBounded(c, front, from);
      if oldest == |front| && g[|front|] < from { oldest := oldest + 1; }
    }
  }

  /** Sliding-window lockout: in any run on a non-decreasing clock that never clears the key, every
      closed interval one window long holds at most the limit of granted attempts, through expiry,
      sweeping and saturation. */
  lemma WindowBound(c: Limits, run: seq<Event>, key: Key, from: int)
    requires Ordered(run) && forall e | e in run :: !(e.op == Clear && e.key == key)
    ensures Within(Grants(c, run, key), from, from + c.window) <= c.Most()
  {
    var n := RunTracks(c, run, key, if run == [] then 0 else run[|run| - 1].at);
    GrantsOrdered(c, run, key);
    var o := SpacedIsBounded(c, Grants(c, run, key), from);
  }

  /** A limit below one is no limit of zero: the first attempt is granted before it is looked at. */
  lemma LimitBelowOneGrants(c: Limits, key: Key, at: int)
    requires c.limit < 1 && c.maxKeys > 0
    ensures Grants(c, [Event(TryBegin, key, at)], key) == [at]
  {
    var run := [Event(TryBegin, key, at)];
    assert run[..0] == [] && After(c, []) == map[];
  }

  lemma {:induction false} GrantsOrdered(c: Limits, run: seq<Event>, key: Key)
    requires Ordered(run)
    ensures var g := Grants(c, run, key);
      && Nondecreasing(g)
      && (forall i | 0 <= i < |g| :: run != [] && g[i] <= run[|run| - 1].at)
  {
    if run != [] {
      var front := run[..|run| - 1];
      GrantsOrdered(c, front, key);
      GrantsGrow(c, run, key);
    }
  }

  lemma GrantsGrow(c: Limits, run: seq<Event>, key: Key)
    requires run != []
    ensures var before := Grants(c, run[..|run| - 1], key);
      Grants(c, run, key) == before || Grants(c, run, key) == before + [run[|run| - 1].at]
  {
  }

  // ----- saturation over runs -----

  /** The operation counts an event against the key: it grants an attempt, or records one. */
  predicate CountsKey(c: Limits, m: Entries, e: Event, key: Key) {
    e.key == key &&
    match e.op
    case TryBegin => Tried(c, m, key, e.at).0
    case Record => key in m || !Saturated(c, m, e.at)
    case _ => false
  }

  /** When the key was last counted and not cleared since. */
  function LastCounted(c: Limits, run: seq<Event>, key: Key): Option<int> {
    if run == [] then None
    else
      var front, last := run[..|run| - 1], run[|run| - 1];
      if CountsKey(c, After(c, front), last, key) then Some(last.at)
      else if last.op == Clear && last.key == key then None
      else LastCounted(c, front, key)
  }

  /** The key was counted within the last window. */
  predicate Active(c: Limits, run: seq<Event>, key: Key, now: int) {
    var t := LastCounted(c, run, key);
    t.Some? && now <= t.value + c.window
  }

  function KeysOf(run: seq<Event>): set<Key> { set i | 0 <= i < |run| :: run[i].key }

  function ActiveKeys(c: Limits, run: seq<Event>, now: int): set<Key> {
    set k | k in KeysOf(run) && Active(c, run, k, now)
  }

  /** One operation and one key's entry: counted, cleared, or left as it was while it is live. */
  lemma StepKey(c: Limits, m: Entries, e: Event, key: Key)
    ensures var m2 := Step(c, m, e).1;
      if CountsKey(c, m, e, key) then key in m2 && m2[key].resetAt == e.at + c.window
      else if e.op == Clear && e.key == key then key !in m2
      else (key in m2 ==> key in m && m2[key] == m[key]) && (InWindow(m, key, e.at) ==> key in m2)
  {
    if e.key != key {
      OtherKey(c, m, key, e);
    } else {
      var w := WithoutExpired(m, key, e.at);
      assert key in Swept(c, m, e.at) ==> key in m && Swept(c, m, e.at)[key] == m[key];
      match e.op
      case TryBegin => assert key !in w ==> key !in Swept(c, w, e.at);
      case Record =>
      case CheckLimit(_) =>
      case Clear =>
      case Remaining =>
    }
  }

  /** A key's entry says when the key was last counted, and stays until a window after that. */
  predicate Remembers(c: Limits, m: Entries, key: Key, t: Option<int>, now: int) {
    && (key in m ==> t == Some(m[key].resetAt - c.window))
    && (t.Some? && now <= t.value + c.window ==> key in m)
  }

  lemma {:induction false} EntryIsLast(c: Limits, run: seq<Event>, key: Key, now: int)
    requires Ordered(run) && (run != [] ==> run[|run| - 1].at <= now)
    ensures Remembers(c, After(c, run), key, LastCounted(c, run, key), now)
  {
    if run != [] {
      EntryIsLast(c, run[..|run| - 1], key, run[|run| - 1].at);
      StepRemembers(c, run, key, now);
    }
  }

  lemma StepRemembers(c: Limits, run: seq<Event>, key: Key, now: int)
    requires run != [] && run[|run| - 1].at <= now
    requires var front := run[..|run| - 1];
      Remembers(c, After(c, front), key, LastCounted(c, front, key), run[|run| - 1].at)
    ensures Remembers(c, After(c, run), key, LastCounted(c, run, key), now)
  {
    var front, last := run[..|run| - 1], run[|run| - 1];
    KeyRemembers(c, After(c, front), last, key, LastCounted(c, front, key), now);
  }

  lemma KeyRemembers(c: Limits, m: Entries, e: Event, key: Key, t: Option<int>, now: int)
    requires e.at <= now && Remembers(c, m, key, t, e.at)
    ensures Remembers(c, Step(c, m, e).1, key, if CountsKey(c, m, e, key) then Some(e.at)
                                               else if e.op == Clear && e.key == key then None else t, now)
  {
    StepKey(c, m, e, key);
  }

  lemma {:induction false} CountedKnown(c: Limits, run: seq<Event>, key: Key)
    ensures LastCounted(c, run, key).Some? ==> key in KeysOf(run)
  {
    if run != [] {
      var front, last := run[..|run| - 1], run[|run| - 1];
      CountedKnown(c, front, key);
      assert KeysOf(front) <= KeysOf(run) && last.key in KeysOf(run);
    }
  }

  /** The live keys of the table are those counted within the last window. */
  lemma LiveIsActive(c: Limits, run: seq<Event>, now: int)
    requires Ordered(run) && (run != [] ==> run[|run| - 1].at <= now)
    ensures Live(After(c, run), now).Keys == ActiveKeys(c, run, now)
  {
    forall k ensures k in Live(After(c, run), now) <==> k in ActiveKeys(c, run, now) {
      EntryIsLast(c, run, k, now);
      CountedKnown(c, run, k);
    }
  }

  /** Over any run, refused attempts and lookups included: a key not counted within the last window is
      refused exactly when at least maxKeys keys were counted within it. */
  lemma NewKeyRefusedIff(c: Limits, run: seq<Event>, key: Key, now: int)
    requires Ordered(run) && (run != [] ==> run[|run| - 1].at <= now) && c.maxKeys >= 0
    requires !Active(c, run, key, now)
    ensures !Tried(c, After(c, run), key, now).0 <==> |ActiveKeys(c, run, now)| >= c.maxKeys
  {
    var m := After(c, run);
    var w := WithoutExpired(m, key, now);
    TableBounded(c, run);
    LiveIsActive(c, run, now);
    EntryIsLast(c, run, key, now);
    CountedKnown(c, run, key);
    assert key !in w && Live(w, now) == Live(m, now);
    assert |Live(m, now)| == |Live(m, now).Keys|;
    FewerKeys(Live(m, now), w);
    if key in m {
      assert w.Keys == m.Keys - {key} && |w| == |w.Keys| && |m| == |m.Keys|;
    }
  }

  /** So a saturated gate admits a new key again as soon as the entries that saturate it have run out,
      however many refused attempts and lookups went on meanwhile. */
  lemma Recovers(c: Limits, run: seq<Event>, key: Key, now: int)
    requires Ordered(run) && (run != [] ==> run[|run| - 1].at <= now) && c.maxKeys > 0
    requires forall k | k in KeysOf(run) + {key} :: !Active(c, run, k, now)
    ensures Tried(c, After(c, run), key, now).0
  {
    NewKeyRefusedIff(c, run, key, now);
    assert ActiveKeys(c, run, now) == {};
  }

  // ----- the whole gate, without its table -----

  /** How often the key was counted in a row: each time within a window of the time before, and not cleared
      since. */
  function Streak(c: Limits, run: seq<Event>, key: Key): nat {
    if run == [] then 0
    else
      var front, last := run[..|run| - 1], run[|run| - 1];
      if CountsKey(c, After(c, front), last, key) then
        if Active(c, front, key, last.at) then Streak(c, front, key) + 1 else 1
      else if last.op == Clear && last.key == key then 0
      else Streak(c, front, key)
  }

  /** The key may go ahead: counted within the last window, fewer than limit times in a row; otherwise, while
      fewer than maxKeys keys were counted within it. */
  predicate MayBegin(c: Limits, run: seq<Event>, key: Key, now: int) {
    if Active(c, run, key, now) then Streak(c, run, key) < c.limit else |ActiveKeys(c, run, now)| < c.maxKeys
  }

  predicate UpTo(run: seq<Event>, now: int) {
    Ordered(run) && (run != [] ==> run[|run| - 1].at <= now)
  }

  /** An operation that counts a key adds one to its live entry, or makes a new one. */
  lemma CountsFails(c: Limits, m: Entries, e: Event, key: Key)
    requires CountsKey(c, m, e, key)
    ensures key in Step(c, m, e).1
    ensures Step(c, m, e).1[key].fails == if InWindow(m, key, e.at) then m[key].fails + 1 else 1
  {
    KeyAfter(c, m, key, e);
    assert key in Swept(c, m, e.at) ==> key in m;
    assert key in WithoutExpired(m, key, e.at) <==> InWindow(m, key, e.at);
  }

  lemma ActiveIff(c: Limits, run: seq<Event>, key: Key, now: int)
    requires UpTo(run, now)
    ensures Active(c, run, key, now) <==> InWindow(After(c, run), key, now)
    ensures Active(c, run, key, now) ==> After(c, run)[key].resetAt == LastCounted(c, run, key).value + c.window
  {
    EntryIsLast(c, run, key, now);
  }

  lemma {:induction false} FailsAreStreak(c: Limits, run: seq<Event>, key: Key)
    requires Ordered(run)
    ensures key in After(c, run) ==> After(c, run)[key].fails == Streak(c, run, key)
  {
    if run != [] {
      var front, last := run[..|run| - 1], run[|run| - 1];
      FailsAreStreak(c, front, key);
      ActiveIff(c, front, key, last.at);
      StepKey(c, After(c, front), last, key);
      if CountsKey(c, After(c, front), last, key) { CountsFails(c, After(c, front), last, key); }
    }
  }

  /** The table is full of live keys exactly when that many keys were counted within the last window. */
  lemma SaturatedIff(c: Limits, run: seq<Event>, now: int)
    requires UpTo(run, now) && c.maxKeys >= 0
    ensures Saturated(c, After(c, run), now) <==> |ActiveKeys(c, run, now)| >= c.maxKeys
    ensures (exists k :: k in After(c, run) && Expired(After(c, run)[k], now)) ==> |ActiveKeys(c, run, now)| < c.maxKeys
  {
    var m := After(c, run);
    TableBounded(c, run);
    LiveIsActive(c, run, now);
    FewerKeys(Live(m, now), m);
    assert |Live(m, now)| == |Live(m, now).Keys|;
    if k :| k in m && Expired(m[k], now) {
      FewerKeys(Live(m, now), m - {k});
      assert (m - {k}).Keys == m.Keys - {k} && |m - {k}| == |(m - {k}).Keys| && |m| == |m.Keys|;
    }
  }

  /** Over any run, an attempt is granted exactly when the key may begin. With what counts told by the same
      rule, the answers of a gate follow from the operations alone. */
  lemma GrantedIff(c: Limits, run: seq<Event>, key: Key, now: int)
    requires UpTo(run, now) && c.maxKeys >= 0
    ensures Tried(c, After(c, run), key, now).0 <==> MayBegin(c, run, key, now)
  {
    if Active(c, run, key, now) {
      ActiveIff(c, run, key, now);
      FailsAreStreak(c, run, key);
    } else {
      NewKeyRefusedIff(c, run, key, now);
    }
  }

  /** An attempt counts when it is granted, and a record unless its key is new and the gate full. */
  lemma CountsIff(c: Limits, run: seq<Event>, e: Event)
    requires UpTo(run, e.at) && c.maxKeys >= 0
    ensures CountsKey(c, After(c, run), e, e.key) <==>
      || (e.op == TryBegin && MayBegin(c, run, e.key, e.at))
      || (e.op == Record && (Active(c, run, e.key, e.at) || |ActiveKeys(c, run, e.at)| < c.maxKeys))
  {
    GrantedIff(c, run, e.key, e.at);
    ActiveIff(c, run, e.key, e.at);
    SaturatedIff(c, run, e.at);
  }

  /** A lookup finds the key at its limit exactly when it may not begin. */
  lemma AtLimitIff(c: Limits, run: seq<Event>, key: Key, now: int)
    requires UpTo(run, now) && c.maxKeys >= 0
    ensures AtLimit(c, After(c, run), key, now) <==> !MayBegin(c, run, key, now)
  {
    RefusedIffAtLimit(c, run, key, now);
    GrantedIff(c, run, key, now);
  }

  /** The announced wait: to the end of the window that began when the key was last counted, or a whole
      window while the gate is full. */
  lemma WaitIs(c: Limits, run: seq<Event>, key: Key, now: int)
    requires UpTo(run, now) && c.maxKeys >= 0
    ensures Wait(c, After(c, run), key, now) ==
            if MayBegin(c, run, key, now) then 0
            else if Active(c, run, key, now) then LastCounted(c, run, key).value + c.window - now
            else c.window
  {
    ActiveIff(c, run, key, now);
    FailsAreStreak(c, run, key);
    SaturatedIff(c, run, now);
  }

  /** Nobody is kept longer than announced: a key that was counted to its limit may begin once the wait is
      over, if it stays away and the gate is not full. */
  lemma WaitIsEnough(c: Limits, run: seq<Event>, key: Key, now: int, later: int)
    requires UpTo(run, now) && c.maxKeys >= 0 && Active(c, run, key, now) && !MayBegin(c, run, key, now)
    requires later > now + Wait(c, After(c, run), key, now) && |ActiveKeys(c, run, later)| < c.maxKeys
    ensures MayBegin(c, run, key, later)
  {
    WaitIs(c, run, key, now);
  }
}
