/** The rate limiter: a token bucket for each client, optional escalating blocks, and at most 16384
    buckets kept by recency. Times are reals on one non-decreasing clock. */
module RateLimiter {
  import opened Lru
  import opened Wrappers

  const MAX_BUCKETS := 16384
  const DEFAULT_BLOCK_MAX := 86400.0

  datatype Config = Config(capacity: real, refill: real, blockFor: real, backoff: real, blockMax: real) {
    predicate Valid() { capacity >= 1.0 && refill > 0.0 && blockFor >= 0.0 && (backoff > 1.0 ==> blockMax > 0.0) }
  }

  /** The compiled configuration, valid when its rate is: a window that does not parse leaves none.
      An unset duration is None, as is one that does not parse. */
  function Compile(rate: real, defaultBurst: int, burst: int, blockFor: Option<real>, backoff: real,
                   blockMax: Option<real>): (c: Config)
    ensures c.Valid() <==> rate > 0.0
  {
    var burst := if burst <= 0 then defaultBurst else burst;
    var capacity := if burst < 1 then 1 else burst;
    var block := if blockFor.Some? && blockFor.value > 0.0 then blockFor.value else 0.0;
    if block > 0.0 && backoff > 1.0 then
      Config(capacity as real, rate, block, backoff,
             if blockMax.Some? && blockMax.value >= block then blockMax.value else DEFAULT_BLOCK_MAX)
    else Config(capacity as real, rate, block, 0.0, block)
  }

  datatype Bucket = Bucket(tokens: real, last: real, blockedUntil: Option<real>, lastBlock: real, strikes: nat)

  datatype Decision = Decision(allowed: bool, retry: int)

  function Ceil(x: real): (n: int)
    ensures x <= n as real < x + 1.0
  {
    -((-x).Floor)
  }

  function Pow(b: real, n: nat): (p: real)
    ensures b > 0.0 ==> p > 0.0
  {
    if n == 0 then 1.0 else b * Pow(b, n - 1)
  }

  function Min(a: real, b: real): real { if a < b then a else b }

  // ----- one request on one bucket -----

  predicate Blocked(c: Config, b: Bucket, now: real) {
    c.blockFor > 0.0 && b.blockedUntil.Some? && now < b.blockedUntil.value
  }

  /** The tokens that flow in over a time. */
  function Refill(c: Config, elapsed: real): real {
    elapsed * c.refill
  }

  function Refilled(c: Config, b: Bucket, now: real): Bucket {
    if now > b.last then b.(tokens := Min(c.capacity, b.tokens + Refill(c, now - b.last)), last := now) else b
  }

  /** The strikes a new block starts from: none once the last block was followed by its own length. */
  function StrikesAt(c: Config, b: Bucket, now: real): nat {
    if c.backoff > 1.0 && b.strikes > 0 && b.blockedUntil.Some? && now >= b.blockedUntil.value + b.lastBlock then 0
    else b.strikes
  }

  function Escalated(c: Config, strikes: nat): real {
    c.blockFor * Pow(c.backoff, strikes)
  }

  function BlockLength(c: Config, strikes: nat): real {
    if c.backoff <= 1.0 then c.blockFor
    else
      var d := Escalated(c, strikes);
      if d <= 0.0 || d > c.blockMax then c.blockMax else d
  }

  function Spend(c: Config, b: Bucket, now: real): (Decision, Bucket) {
    if b.tokens >= 1.0 then (Decision(true, 0), b.(tokens := b.tokens - 1.0))
    else if c.blockFor > 0.0 then
      var k := StrikesAt(c, b, now);
      var d := BlockLength(c, k);
      (Decision(false, Ceil(d)), b.(blockedUntil := Some(now + d), lastBlock := d, strikes := k + 1))
    else if c.refill != 0.0 then (Decision(false, Ceil((1.0 - b.tokens) / c.refill)), b)
    else (Decision(false, 0), b)
  }

  /** A request on the key's bucket, or on a fresh full one. */
  function Request(c: Config, found: Option<Bucket>, now: real): (Decision, Bucket) {
    match found
    case None => Spend(c, Bucket(c.capacity, now, None, 0.0, 0), now)
    case Some(b) =>
      if Blocked(c, b, now) then (Decision(false, Ceil(b.blockedUntil.value - now)), b)
        else Spend(c, Refilled(c, b, now), now)
  }

  // ----- the table -----

  datatype State = State(buckets: map<Key, Bucket>, order: seq<Key>) {
    ghost predicate Valid() { Consistent(order, buckets, MAX_BUCKETS) }

    function Find(key: Key): Option<Bucket> { if key in buckets then Some(buckets[key]) else None }
  }

  function Evicted(s: State): State {
    if s.order == [] then s else State(s.buckets - {s.order[0]}, s.order[1..])
  }

  function Room(s: State, key: Key): State {
    if key !in s.buckets && |s.order| >= MAX_BUCKETS then Evicted(s) else s
  }

  function Allowed(c: Config, s: State, key: Key, now: real): (Decision, State) {
    var (d, b) := Request(c, s.Find(key), now);
    var room := Room(s, key);
    (d, State(room.buckets[key := b], Touched(room.order, key)))
  }

  class Limiter {
    const config: Config
    var buckets: map<Key, Bucket>
    var order: seq<Key>

    ghost function Table(): State
      reads this
    {
      State(buckets, order)
    }

    ghost predicate Valid()
      reads this
    {
      config.Valid() && Table().Valid()
    }

    constructor (config: Config)
      requires config.Valid()
      ensures Valid() && this.config == config && Table() == State(map[], [])
    {
      this.config, buckets, order := config, map[], [];
    }

    method EvictLru()
      modifies this
      ensures Table() == Evicted(old(Table()))
    {
      if order == [] { return; }
      var key := order[0];
      order := order[1..];
      buckets := buckets - {key};
    }

    method NextBlock(b: Bucket, now: real) returns (d: real, strikes: nat)
      requires config.Valid() && config.blockFor > 0.0
      ensures strikes == StrikesAt(config, b, now) && d == BlockLength(config, strikes)
    {
      strikes := b.strikes;
      if config.backoff <= 1.0 { return config.blockFor, strikes; }
      if strikes > 0 && b.blockedUntil.Some? && now >= b.blockedUntil.value + b.lastBlock {
        strikes := 0;
      }
      d := config.blockFor * Pow(config.backoff, strikes);
      if d <= 0.0 || d > config.blockMax { d := config.blockMax; }
    }

    /** Takes a token from a refilled bucket, or starts a block, or asks for patience. */
    method Take(b: Bucket, now: real) returns (d: Decision, after: Bucket)
      requires config.Valid()
      ensures (d, after) == Spend(config, b, now)
    {
      if b.tokens >= 1.0 { return Decision(true, 0), b.(tokens := b.tokens - 1.0); }
      if config.blockFor > 0.0 {
        var length, strikes := NextBlock(b, now);
        return Decision(false, Ceil(length)),
          b.(blockedUntil := Some(now + length), lastBlock := length, strikes := strikes + 1);
      }
      return Decision(false, Ceil((1.0 - b.tokens) / config.refill)), b;
    }

    method Allow(key: Key, now: real) returns (d: Decision)
      requires Valid()
      modifies this
      ensures Valid() && (d, Table()) == Allowed(config, old(Table()), key, now)
    {
      AllowedValid(config, Table(), key, now);
      var b: Bucket;
      if key in buckets {
        b := buckets[key];
        ghost var was := b;
        order := Touched(order, key);
        if config.blockFor > 0.0 && b.blockedUntil.Some? && now < b.blockedUntil.value {
          assert buckets == buckets[key := b];
          return Decision(false, Ceil(b.blockedUntil.value - now));
        }
        if now > b.last {
          b := b.(tokens := Min(config.capacity, b.tokens + Refill(config, now - b.last)), last := now);
        }
        assert b == Refilled(config, was, now);
      } else {
        if |order| >= MAX_BUCKETS { EvictLru(); }
        b := Bucket(config.capacity, now, None, 0.0, 0);
        assert Table() == Room(old(Table()), key);
        order := Touched(order, key);
      }
      d, b := Take(b, now);
      buckets := buckets[key := b];
    }
  }

  lemma RoomValid(s: State, key: Key)
    requires s.Valid()
    ensures Room(s, key).Valid() && (key !in s.buckets ==> |Room(s, key).order| < MAX_BUCKETS)
  {
    if s.order != [] { assert s.order == [s.order[0]] + s.order[1..]; }
  }

  lemma AllowedValid(c: Config, s: State, key: Key, now: real)
    requires s.Valid()
    ensures Allowed(c, s, key, now).1.Valid()
  {
    RoomValid(s, key);
    TouchedKeys(Room(s, key).order, key);
  }

  // ----- runs -----

  datatype Event = Event(key: Key, at: real)

  predicate Ordered(run: seq<Event>) {
    forall i, j | 0 <= i < j < |run| :: run[i].at <= run[j].at
  }

  /** The table after a run from some table. */
  function After(c: Config, s: State, run: seq<Event>): State {
    if run == [] then s else Allowed(c, After(c, s, run[..|run| - 1]), run[|run| - 1].key, run[|run| - 1].at).1
  }

  const EMPTY := State(map[], [])

  function KeysOf(run: seq<Event>): seq<Key> {
    seq(|run|, i requires 0 <= i < |run| => run[i].key)
  }

  /** In every reachable state map and list hold the same keys, each once, within the cap, the list
      in the order of their last requests. */
  lemma {:induction false} RunConsistent(c: Config, run: seq<Event>)
    ensures After(c, EMPTY, run).Valid() && ByRecency(After(c, EMPTY, run).order, KeysOf(run))
  {
    if run != [] {
      var front, last := run[..|run| - 1], run[|run| - 1];
      var s := After(c, EMPTY, front);
      RunConsistent(c, front);
      AllowedValid(c, s, last.key, last.at);
      RoomValid(s, last.key);
      TouchedByRecency(Room(s, last.key).order, KeysOf(front), last.key);
      assert KeysOf(run) == KeysOf(front) + [last.key];
    }
  }

  /** A new client at the cap replaces the one whose last request is the oldest. */
  lemma EvictsLongestIdle(c: Config, run: seq<Event>, key: Key, other: Key)
    requires var s := After(c, EMPTY, run); key !in s.buckets && |s.order| == MAX_BUCKETS
    ensures var s := After(c, EMPTY, run); var gone := s.order[0];
      && gone in s.buckets && Room(s, key).buckets == s.buckets - {gone}
      && (other in s.buckets && other != gone ==> LastTouch(KeysOf(run), gone) < LastTouch(KeysOf(run), other))
  {
    RunConsistent(c, run);
    var s := After(c, EMPTY, run);
    if other in s.buckets && other != s.order[0] {
      var i :| 0 <= i < |s.order| && s.order[i] == other;
    }
  }

  // ----- one key's part of a run -----

  /** The times of the key's requests. */
  function TimesOf(run: seq<Event>, key: Key): seq<real> {
    if run == [] then []
    else
      var last, before := run[|run| - 1], TimesOf(run[..|run| - 1], key);
      if last.key == key then before + [last.at] else before
  }

  function AdmittedIn(c: Config, s: State, run: seq<Event>, key: Key): nat {
    if run == [] then 0
    else
      var front, last := run[..|run| - 1], run[|run| - 1];
      AdmittedIn(c, s, front, key) +
      if last.key == key && Allowed(c, After(c, s, front), key, last.at).0.allowed then 1 else 0
  }

  /** The key is never dropped once it is there. */
  ghost predicate Kept(c: Config, s: State, run: seq<Event>, key: Key) {
    forall n | 0 <= n < |run| && key in After(c, s, run[..n]).buckets :: key in After(c, s, run[..n + 1]).buckets
  }

  /** The key's bucket after requests at these times, on its own. */
  function Bucketed(c: Config, start: Option<Bucket>, times: seq<real>): Option<Bucket> {
    if times == [] then start
    else Some(Request(c, Bucketed(c, start, times[..|times| - 1]), times[|times| - 1]).1)
  }

  function Admitted(c: Config, start: Option<Bucket>, times: seq<real>): nat {
    if times == [] then 0
    else
      var front, last := times[..|times| - 1], times[|times| - 1];
      Admitted(c, start, front) + if Request(c, Bucketed(c, start, front), last).0.allowed then 1 else 0
  }

  /** While a key is not evicted, other keys do not matter to it. */
  lemma {:induction false} Isolated(c: Config, s: State, run: seq<Event>, key: Key)
    requires Kept(c, s, run, key)
    ensures After(c, s, run).Find(key) == Bucketed(c, s.Find(key), TimesOf(run, key))
    ensures AdmittedIn(c, s, run, key) == Admitted(c, s.Find(key), TimesOf(run, key))
  {
    if run != [] {
      var front, last := run[..|run| - 1], run[|run| - 1];
      KeptFront(c, s, run, key);
      Isolated(c, s, front, key);
      OneRequest(c, After(c, s, front), last, key);
      OneMore(c, s.Find(key), TimesOf(front, key), last.at);
    }
  }

  lemma OneRequest(c: Config, s: State, e: Event, key: Key)
    ensures var (d, s2) := Allowed(c, s, e.key, e.at);
      && (e.key == key
          ==> d == Request(c, s.Find(key), e.at).0 && s2.Find(key) == Some(Request(c, s.Find(key), e.at).1))
      && (e.key != key && (key in s.buckets ==> key in s2.buckets) ==> s2.Find(key) == s.Find(key))
  {
  }

  lemma OneMore(c: Config, start: Option<Bucket>, times: seq<real>, at: real)
    ensures var b := Bucketed(c, start, times);
      && Bucketed(c, start, times + [at]) == Some(Request(c, b, at).1)
      && Admitted(c, start, times + [at]) == Admitted(c, start, times) + if Request(c, b, at).0.allowed then 1 else 0
  {
    assert (times + [at])[..|times|] == times;
  }

  lemma KeptFront(c: Config, s: State, run: seq<Event>, key: Key)
    requires Kept(c, s, run, key) && run != []
    ensures Kept(c, s, run[..|run| - 1], key)
    ensures key in After(c, s, run[..|run| - 1]).buckets ==> key in After(c, s, run).buckets
  {
    var front := run[..|run| - 1];
    forall n | 0 <= n <= |front| ensures front[..n] == run[..n] {}
    assert run[..|run|] == run && front[..|front|] == front;
    assert run[..|front| + 1] == run;
    forall n | 0 <= n < |front| && key in After(c, s, front[..n]).buckets
      ensures key in After(c, s, front[..n + 1]).buckets
    {
      assert front[..n + 1] == run[..n + 1];
    }
  }

  // ----- token bound -----

  ghost predicate Sorted(times: seq<real>) {
    forall i, j | 0 <= i < j < |times| :: times[i] <= times[j]
  }

  /** Tokens stay within 0..capacity and no bucket is dated ahead of the clock. */
  ghost predicate InBounds(c: Config, found: Option<Bucket>, now: real) {
    found.Some? ==> 0.0 <= found.value.tokens <= c.capacity && found.value.last <= now
  }

  /** What the key could spend now. */
  function Available(c: Config, found: Option<Bucket>, now: real): real {
    if found.None? then c.capacity
    else Min(c.capacity, found.value.tokens + Refill(c, now - found.value.last))
  }

  lemma RequestSpends(c: Config, found: Option<Bucket>, now: real)
    requires c.Valid() && InBounds(c, found, now)
    ensures var (d, b) := Request(c, found, now);
      InBounds(c, Some(b), now)
        && Available(c, Some(b), now) == Available(c, found, now) - if d.allowed then 1.0 else 0.0
  {
    var (d, b) := Request(c, found, now);
    match found
    case None => AvailableNow(c, b);
    case Some(old_) =>
      if !Blocked(c, old_, now) {
        RefillIsAvailable(c, old_, now);
        SpendSpends(c, Refilled(c, old_, now), now);
      }
  }

  lemma RefillIsAvailable(c: Config, b: Bucket, now: real)
    requires c.Valid() && InBounds(c, Some(b), now)
    ensures var r := Refilled(c, b, now);
      InBounds(c, Some(r), now) && r.last == now && r.tokens == Available(c, Some(b), now)
  {
    RefillGrows(c, b.last, now, now);
  }

  lemma SpendSpends(c: Config, b: Bucket, now: real)
    requires c.Valid() && InBounds(c, Some(b), now) && b.last == now
    ensures var (d, after) := Spend(c, b, now);
      InBounds(c, Some(after), now) && Available(c, Some(after), now) == b.tokens - if d.allowed then 1.0 else 0.0
  {
    AvailableNow(c, Spend(c, b, now).1);
  }

  lemma AvailableNow(c: Config, b: Bucket)
    requires b.tokens <= c.capacity
    ensures Available(c, Some(b), b.last) == b.tokens
  {
    assert Refill(c, b.last - b.last) == 0.0;
  }

  lemma Positive(x: real, y: real)
    requires x >= 0.0 && y > 0.0
    ensures x * y >= 0.0
  {
  }

  lemma AvailableGrows(c: Config, found: Option<Bucket>, now: real, later: real)
    requires c.Valid() && InBounds(c, found, now) && now <= later
    ensures Available(c, found, later) <= Available(c, found, now) + Refill(c, later - now)
  {
    RefillGrows(c, now, now, later);
    if found.Some? { RefillGrows(c, found.value.last, now, later); }
  }

  lemma RefillGrows(c: Config, from: real, mid: real, to: real)
    requires c.Valid() && from <= mid <= to
    ensures 0.0 <= Refill(c, mid - from) && (mid == from ==> Refill(c, mid - from) == 0.0)
    ensures Refill(c, to - from) == Refill(c, mid - from) + Refill(c, to - mid)
    ensures Refill(c, mid - from) <= Refill(c, to - from)
  {
    Positive(mid - from, c.refill);
    Positive(to - mid, c.refill);
    assert Refill(c, to - mid) >= 0.0;
    assert Refill(c, to - from) == Refill(c, mid - from) + Refill(c, to - mid);
  }

  /** Over any stretch of a key's requests: what was admitted, and what is left, come from what was
      there and from the refill. */
  lemma {:induction false} Conserved(c: Config, start: Option<Bucket>, times: seq<real>, from: real, to: real)
    requires c.Valid() && Sorted(times) && InBounds(c, start, from) && from <= to
    requires forall i | 0 <= i < |times| :: from <= times[i] <= to
    ensures InBounds(c, Bucketed(c, start, times), to)
    ensures Admitted(c, start, times) as real + Available(c, Bucketed(c, start, times), to)
      <= Available(c, start, from) + Refill(c, to - from)
  {
    if times == [] {
      AvailableGrows(c, start, from, to);
    } else {
      var front, last := times[..|times| - 1], times[|times| - 1];
      Conserved(c, start, front, from, last);
      NextSpends(c, Bucketed(c, start, front), last, to);
      RefillGrows(c, from, last, to);
    }
  }

  lemma NextSpends(c: Config, found: Option<Bucket>, now: real, later: real)
    requires c.Valid() && InBounds(c, found, now) && now <= later
    ensures var (d, b) := Request(c, found, now);
      && InBounds(c, Some(b), later)
      && Available(c, Some(b), later) + (if d.allowed then 1.0 else 0.0) <= Available(c, found, now)
        + Refill(c, later - now)
  {
    RequestSpends(c, found, now);
    AvailableGrows(c, Some(Request(c, found, now).1), now, later);
  }

  lemma {:induction false} TimesSorted(run: seq<Event>, key: Key)
    requires Ordered(run)
    ensures Sorted(TimesOf(run, key))
    ensures forall i | 0 <= i < |TimesOf(run, key)| ::
              run != [] && run[0].at <= TimesOf(run, key)[i] <= run[|run| - 1].at
  {
    if run != [] { TimesSorted(run[..|run| - 1], key); }
  }

  lemma {:induction false} TableInBounds(c: Config, run: seq<Event>, key: Key)
    requires c.Valid() && Ordered(run) && run != []
    ensures InBounds(c, After(c, EMPTY, run).Find(key), run[|run| - 1].at)
  {
    var front, last := run[..|run| - 1], run[|run| - 1];
    var s := After(c, EMPTY, front);
    if front != [] {
      TableInBounds(c, front, key);
      TableInBounds(c, front, last.key);
    }
    RequestSpends(c, s.Find(last.key), last.at);
    OneRequest(c, s, last, key);
    if last.key != key { AllowedFinds(c, s, last, key); }
  }

  lemma AllowedFinds(c: Config, s: State, e: Event, key: Key)
    requires e.key != key
    ensures var found := Allowed(c, s, e.key, e.at).1.Find(key); found == None || found == s.Find(key)
  {
  }

  /** Over any stretch of any run in which a key is not evicted, the requests admitted for it number
      at most capacity + refill * elapsed, with or without blocking. */
  lemma TokenBound(c: Config, before: seq<Event>, stretch: seq<Event>, key: Key, from: real, to: real)
    requires c.Valid() && Ordered(before + stretch) && stretch != []
    requires from == stretch[0].at && to == stretch[|stretch| - 1].at
    requires Kept(c, After(c, EMPTY, before), stretch, key)
    ensures AdmittedIn(c, After(c, EMPTY, before), stretch, key) as real <= c.capacity + Refill(c, to - from)
  {
    var s, times := After(c, EMPTY, before), TimesOf(stretch, key);
    OrderedParts(before, stretch);
    Isolated(c, s, stretch, key);
    TimesSorted(stretch, key);
    if before != [] { TableInBounds(c, before, key); }
    Conserved(c, s.Find(key), times, from, to);
    NotInDebt(c, s.Find(key), from);
    NotInDebt(c, Bucketed(c, s.Find(key), times), to);
  }

  lemma NotInDebt(c: Config, found: Option<Bucket>, now: real)
    requires c.Valid() && InBounds(c, found, now)
    ensures 0.0 <= Available(c, found, now) <= c.capacity
  {
    if found.Some? {
      RefillGrows(c, found.value.last, now, now);
    }
  }

  lemma OrderedParts(a: seq<Event>, b: seq<Event>)
    requires Ordered(a + b)
    ensures Ordered(a) && Ordered(b) && forall i, j | 0 <= i < |a| && 0 <= j < |b| :: a[i].at <= b[j].at
  {
    var ab := a + b;
    forall i, j | 0 <= i < j < |a| ensures a[i].at <= a[j].at { assert ab[i].at <= ab[j].at; }
    forall i, j | 0 <= i < j < |b| ensures b[i].at <= b[j].at { assert ab[|a| + i].at <= ab[|a| + j].at; }
    forall i, j | 0 <= i < |a| && 0 <= j < |b| ensures a[i].at <= b[j].at { assert ab[i].at <= ab[|a| + j].at; }
  }

  // ----- and no less -----

  /** Requests i to j fit the burst and what flows in between them. */
  predicate FitBetween(c: Config, times: seq<real>, i: nat, j: nat)
    requires i <= j < |times|
  {
    (j - i + 1) as real <= c.capacity + Refill(c, times[j] - times[i])
  }

  ghost predicate Conforms(c: Config, times: seq<real>) {
    forall i, j | 0 <= i <= j < |times| :: FitBetween(c, times, i, j)
  }

  /** What a fresh key that was never refused still has: full at some request, and since then refilled and
      charged for each request. */
  ghost predicate FullSince(c: Config, times: seq<real>, i: nat, b: Bucket) {
    && i < |times| && b.blockedUntil == None && b.last == times[|times| - 1]
    && b.tokens == c.capacity + Refill(c, times[|times| - 1] - times[i]) - (|times| - i) as real
  }

  lemma RefillSplits(c: Config, a: real, b: real, to: real)
    ensures Refill(c, b - a) + Refill(c, to - b) == Refill(c, to - a)
  {
  }

  /** A conforming request is admitted where those before it were. */
  lemma ConformingStep(c: Config, times: seq<real>, at: real, i: nat, b: Bucket) returns (k: nat)
    requires c.Valid() && FullSince(c, times, i, b) && Conforms(c, times + [at]) && times[|times| - 1] <= at
    ensures Request(c, Some(b), at).0.allowed && FullSince(c, times + [at], k, Request(c, Some(b), at).1)
  {
    var all, n := times + [at], |times|;
    var r := Refilled(c, b, at);
    assert all[i] == times[i] && all[n] == at;
    RefillSplits(c, times[i], times[n - 1], at);
    assert Refill(c, at - at) == 0.0;
    assert FitBetween(c, all, i, n) && FitBetween(c, all, n, n);
    k := if r.tokens == c.capacity then n else i;
    if at > b.last {
      assert r.tokens == Min(c.capacity, c.capacity + Refill(c, at - times[i]) - (n - i) as real);
    } else {
      assert r == b && at == b.last;
      k := i;
    }
  }

  lemma {:induction false} ConformingKey(c: Config, times: seq<real>) returns (i: nat)
    requires c.Valid() && Sorted(times) && Conforms(c, times) && times != []
    ensures Admitted(c, None, times) == |times|
    ensures Bucketed(c, None, times).Some? && FullSince(c, times, i, Bucketed(c, None, times).value)
  {
    var front, last := times[..|times| - 1], times[|times| - 1];
    assert front + [last] == times;
    OneMore(c, None, front, last);
    if front == [] {
      i := 0;
      assert Refill(c, last - last) == 0.0;
    } else {
      ConformingFront(c, front, last);
      i := ConformingKey(c, front);
      i := ConformingStep(c, front, last, i, Bucketed(c, None, front).value);
    }
  }

  lemma ConformingFront(c: Config, front: seq<real>, last: real)
    requires Sorted(front + [last]) && Conforms(c, front + [last])
    ensures Sorted(front) && Conforms(c, front) && (front != [] ==> front[|front| - 1] <= last)
  {
    var all := front + [last];
    forall i, j | 0 <= i <= j < |front| ensures FitBetween(c, front, i, j) { assert FitBetween(c, all, i, j); }
    forall i, j | 0 <= i < j < |front| ensures front[i] <= front[j] { assert all[i] <= all[j]; }
    if front != [] { assert all[|front| - 1] <= all[|front|]; }
  }

  /** A key that never asks for more than its burst and its rate, between any two of its requests, is never
      refused, whatever the other keys do as long as it is not evicted, with or without blocking. */
  lemma ConformingAdmitted(c: Config, run: seq<Event>, key: Key)
    requires c.Valid() && Ordered(run) && Kept(c, EMPTY, run, key) && Conforms(c, TimesOf(run, key))
    ensures AdmittedIn(c, EMPTY, run, key) == |TimesOf(run, key)|
  {
    Isolated(c, EMPTY, run, key);
    TimesSorted(run, key);
    if TimesOf(run, key) != [] { var i := ConformingKey(c, TimesOf(run, key)); }
  }

  // ----- blocks -----

  datatype Block = Block(start: real, length: real)

  predicate StartsBlock(c: Config, found: Option<Bucket>, now: real) {
    c.blockFor > 0.0 && !(found.Some? && Blocked(c, found.value, now)) && !Request(c, found, now).0.allowed
  }

  /** The blocks a key that starts fresh earns by requests at these times. */
  function Blocks(c: Config, times: seq<real>): seq<Block> {
    if times == [] then []
    else
      var front, last := times[..|times| - 1], times[|times| - 1];
      var b := Bucketed(c, None, front);
      if StartsBlock(c, b, last) then Blocks(c, front) + [Block(last, Request(c, b, last).1.lastBlock)]
        else Blocks(c, front)
  }

  /** A block's place in its streak: it opens one when the block before it was followed by at least
      its own length. */
  function Place(bs: seq<Block>, i: nat): (k: nat)
    requires i < |bs|
    ensures k <= i
  {
    if i == 0 || bs[i].start >= bs[i - 1].start + bs[i - 1].length + bs[i - 1].length then 0 else Place(bs, i - 1) + 1
  }

  lemma {:induction false} PlacePrefix(bs: seq<Block>, more: seq<Block>, i: nat)
    requires i < |bs|
    ensures Place(bs + more, i) == Place(bs, i)
  {
    if i > 0 { PlacePrefix(bs, more, i - 1); }
  }

  /** The k-th block of a streak. */
  function StreakLength(c: Config, k: nat): real {
    if c.backoff <= 1.0 then c.blockFor else Min(c.blockMax, Escalated(c, k))
  }

  ghost predicate HasStreakLength(c: Config, bs: seq<Block>, i: nat)
    requires i < |bs|
  {
    bs[i].length == StreakLength(c, Place(bs, i))
  }

  ghost predicate Escalates(c: Config, bs: seq<Block>) {
    forall i | 0 <= i < |bs| :: HasStreakLength(c, bs, i)
  }

  /** What a bucket remembers of its blocks. */
  ghost predicate Remembers(c: Config, bs: seq<Block>, found: Option<Bucket>) {
    if bs == [] then found.Some? ==> found.value.blockedUntil == None && found.value.strikes == 0
    else
      var last := bs[|bs| - 1];
      && found.Some? && found.value.blockedUntil == Some(last.start + last.length)
        && found.value.lastBlock == last.length
      && (c.backoff > 1.0 ==> found.value.strikes == Place(bs, |bs| - 1) + 1)
  }

  lemma {:induction false} BlocksEscalate(c: Config, times: seq<real>)
    requires c.Valid()
    ensures Escalates(c, Blocks(c, times)) && Remembers(c, Blocks(c, times), Bucketed(c, None, times))
  {
    if times != [] {
      var front, last := times[..|times| - 1], times[|times| - 1];
      BlocksEscalate(c, front);
      RequestRemembers(c, Blocks(c, front), Bucketed(c, None, front), last);
    }
  }

  lemma RequestRemembers(c: Config, bs: seq<Block>, found: Option<Bucket>, now: real)
    requires c.Valid() && Escalates(c, bs) && Remembers(c, bs, found)
    ensures var b := Request(c, found, now).1;
      var bs2 := if StartsBlock(c, found, now) then bs + [Block(now, b.lastBlock)] else bs;
      Escalates(c, bs2) && Remembers(c, bs2, Some(b))
  {
    if StartsBlock(c, found, now) {
      NextBlockLength(c, bs, found, now);
      var b := Request(c, found, now).1;
      EscalatesMore(c, bs, Block(now, b.lastBlock));
      LastRemembered(c, bs + [Block(now, b.lastBlock)], b);
    } else {
      NoBlockKeeps(c, found, now);
      StillRemembers(c, bs, found, Request(c, found, now).1);
    }
  }

  lemma LastRemembered(c: Config, all: seq<Block>, b: Bucket)
    requires all != [] && b.lastBlock == all[|all| - 1].length
    requires b.blockedUntil == Some(all[|all| - 1].start + b.lastBlock)
    requires c.backoff > 1.0 ==> b.strikes == Place(all, |all| - 1) + 1
    ensures Remembers(c, all, Some(b))
  {
  }

  lemma StillRemembers(c: Config, bs: seq<Block>, found: Option<Bucket>, b: Bucket)
    requires Remembers(c, bs, found)
    requires found == None ==> b.blockedUntil == None && b.strikes == 0
    requires found.Some? ==> b.blockedUntil == found.value.blockedUntil && b.strikes == found.value.strikes
                             && b.lastBlock == found.value.lastBlock
    ensures Remembers(c, bs, Some(b))
  {
  }

  lemma NoBlockKeeps(c: Config, found: Option<Bucket>, now: real)
    requires !StartsBlock(c, found, now)
    ensures var b := Request(c, found, now).1;
      match found
      case None => b.blockedUntil == None && b.strikes == 0
      case Some(o) => b.blockedUntil == o.blockedUntil && b.strikes == o.strikes && b.lastBlock == o.lastBlock
  {
  }

  lemma EscalatesMore(c: Config, bs: seq<Block>, block: Block)
    requires Escalates(c, bs) && block.length == StreakLength(c, Place(bs + [block], |bs|))
    ensures Escalates(c, bs + [block])
  {
    var all := bs + [block];
    forall i | 0 <= i < |all| ensures HasStreakLength(c, all, i) {
      if i < |bs| {
        PlacePrefix(bs, [block], i);
        assert HasStreakLength(c, bs, i);
      }
    }
  }

  lemma NextBlockLength(c: Config, bs: seq<Block>, found: Option<Bucket>, now: real)
    requires c.Valid() && Remembers(c, bs, found) && StartsBlock(c, found, now)
    ensures var b := Request(c, found, now).1; var all := bs + [Block(now, b.lastBlock)];
      && b.lastBlock == StreakLength(c, Place(all, |bs|)) && b.blockedUntil == Some(now + b.lastBlock)
      && (c.backoff > 1.0 ==> b.strikes == Place(all, |bs|) + 1)
  {
    var b := Request(c, found, now).1;
    var all := bs + [Block(now, b.lastBlock)];
    if bs != [] {
      PlacePrefix(bs, [Block(now, b.lastBlock)], |bs| - 1);
      assert all[|bs| - 1] == bs[|bs| - 1];
    }
    if c.backoff > 1.0 { EscalatedPositive(c, Place(all, |bs|)); }
  }

  lemma EscalatedPositive(c: Config, k: nat)
    requires c.backoff > 1.0 && c.blockFor > 0.0
    ensures Escalated(c, k) > 0.0
  {
    var p := Pow(c.backoff, k);
    assert p > 0.0;
  }

  /** Inside a block nothing is admitted, the block's end does not move, and the wait announced is
      the time to that end, rounded up. */
  lemma {:induction false} BlockHolds(c: Config, times: seq<real>, now: real, last: Block)
    requires c.Valid() && c.blockFor > 0.0 && now < last.start + last.length
    requires Blocks(c, times) != [] && Blocks(c, times)[|Blocks(c, times)| - 1] == last
    ensures Bucketed(c, None, times + [now]) == Bucketed(c, None, times) && Blocks(c, times + [now]) == Blocks(c, times)
    ensures Request(c, Bucketed(c, None, times), now).0 == Decision(false, Ceil(last.start + last.length - now))
  {
    BlocksEscalate(c, times);
    StillBlocked(c, Blocks(c, times), Bucketed(c, None, times), now, last);
    OneMore(c, None, times, now);
    NoBlock(c, times, now);
  }

  lemma StillBlocked(c: Config, bs: seq<Block>, found: Option<Bucket>, now: real, last: Block)
    requires c.blockFor > 0.0 && bs != [] && bs[|bs| - 1] == last && Remembers(c, bs, found)
      && now < last.start + last.length
    ensures found.Some? && !StartsBlock(c, found, now)
    ensures Request(c, found, now) == (Decision(false, Ceil(last.start + last.length - now)), found.value)
  {
  }

  lemma NoBlock(c: Config, times: seq<real>, now: real)
    requires !StartsBlock(c, Bucketed(c, None, times), now)
    ensures Blocks(c, times + [now]) == Blocks(c, times)
  {
    assert (times + [now])[..|times|] == times;
  }

  lemma {:induction false} PowGrows(b: real, m: nat, n: nat)
    requires b > 1.0 && m <= n
    ensures 0.0 < Pow(b, m) <= Pow(b, n)
  {
    if m < n {
      PowGrows(b, m, n - 1);
      Positive(Pow(b, n - 1), b - 1.0);
      assert Pow(b, n) == Pow(b, n - 1) + Pow(b, n - 1) * (b - 1.0);
    }
  }

  /** Within a streak blocks never shrink. */
  lemma StreakNeverShrinks(c: Config, m: nat, n: nat)
    requires c.Valid() && c.blockFor > 0.0 && m <= n
    ensures StreakLength(c, m) <= StreakLength(c, n)
  {
    if c.backoff > 1.0 {
      PowGrows(c.backoff, m, n);
      Positive(Pow(c.backoff, n) - Pow(c.backoff, m), c.blockFor);
      assert Escalated(c, n) == Escalated(c, m) + (Pow(c.backoff, n) - Pow(c.backoff, m)) * c.blockFor;
    }
  }

  /** The first block is shorter than configured exactly when backoff is on, the block is longer
      than a day, and no usable cap is set: the default cap of a day then applies to it too. */
  lemma FirstBlockShortIff(rate: real, defaultBurst: int, burst: int, blockFor: Option<real>, backoff: real,
                           blockMax: Option<real>)
    requires rate > 0.0
    ensures var c := Compile(rate, defaultBurst, burst, blockFor, backoff, blockMax);
      StreakLength(c, 0) < c.blockFor <==>
        blockFor.Some? && blockFor.value > DEFAULT_BLOCK_MAX && backoff > 1.0
        && !(blockMax.Some? && blockMax.value >= blockFor.value)
  {
    var c := Compile(rate, defaultBurst, burst, blockFor, backoff, blockMax);
    assert Pow(c.backoff, 0) == 1.0 && Escalated(c, 0) == c.blockFor;
  }

  // ----- Retry-After -----

  /** With blocking off, a key that waits out the announced seconds and is not evicted meanwhile is
      admitted, whatever the other keys do. */
  lemma HonestRetryAfter(c: Config, before: seq<Event>, denied: Event, between: seq<Event>, later: real)
    requires c.Valid() && c.blockFor == 0.0
    requires Ordered(before + [denied]) && forall e | e in between :: e.key != denied.key
    requires var (d, s) := Allowed(c, After(c, EMPTY, before), denied.key, denied.at);
      !d.allowed && later >= denied.at + d.retry as real && Kept(c, s, between, denied.key)
    ensures var s := Allowed(c, After(c, EMPTY, before), denied.key, denied.at).1;
      Allowed(c, After(c, s, between), denied.key, later).0.allowed
  {
    var start := After(c, EMPTY, before);
    var (d, s) := Allowed(c, start, denied.key, denied.at);
    StartInBounds(c, before, denied);
    OneRequest(c, start, denied, denied.key);
    Isolated(c, s, between, denied.key);
    NoTimes(between, denied.key);
    WaitPays(c, start.Find(denied.key), denied.at, later);
  }

  lemma StartInBounds(c: Config, before: seq<Event>, e: Event)
    requires c.Valid() && Ordered(before + [e])
    ensures InBounds(c, After(c, EMPTY, before).Find(e.key), e.at)
  {
    OrderedParts(before, [e]);
    if before != [] {
      TableInBounds(c, before, e.key);
      assert before[|before| - 1].at <= [e][0].at;
    }
  }

  lemma {:induction false} NoTimes(run: seq<Event>, key: Key)
    requires forall e | e in run :: e.key != key
    ensures TimesOf(run, key) == []
  {
    if run != [] { NoTimes(run[..|run| - 1], key); }
  }

  lemma WaitPays(c: Config, found: Option<Bucket>, now: real, later: real)
    requires c.Valid() && c.blockFor == 0.0 && InBounds(c, found, now)
    requires var d := Request(c, found, now).0; !d.allowed && later >= now + d.retry as real
    ensures Request(c, Some(Request(c, found, now).1), later).0.allowed
  {
    var (d, b) := Request(c, found, now);
    assert b.last == now;
    var wait := (1.0 - b.tokens) / c.refill;
    assert wait * c.refill == 1.0 - b.tokens;
    RequestSpends(c, found, now);
    assert wait > 0.0 by {
      if wait <= 0.0 { Positive(-wait, c.refill); }
    }
    RefillGrows(c, now, now + wait, later);
    assert Refill(c, now + wait - now) == 1.0 - b.tokens;
  }

  /** And no more than it takes: a whole second earlier it would not be. */
  lemma RetryIsLeast(c: Config, found: Option<Bucket>, now: real, later: real)
    requires c.Valid() && c.blockFor == 0.0 && InBounds(c, found, now) && now <= later
    requires var d := Request(c, found, now).0; !d.allowed && later <= now + d.retry as real - 1.0
    ensures !Request(c, Some(Request(c, found, now).1), later).0.allowed
  {
    var (d, b) := Request(c, found, now);
    RequestSpends(c, found, now);
    var wait := (1.0 - b.tokens) / c.refill;
    assert wait * c.refill == 1.0 - b.tokens;
    assert b.last == now && later - now < wait;
    RefillGrows(c, now, later, now + wait);
    LessFlowsIn(c, later - now, wait);
  }

  lemma LessFlowsIn(c: Config, a: real, b: real)
    requires c.Valid() && a < b
    ensures Refill(c, a) < Refill(c, b)
  {
    var d := b - a;
    assert d * c.refill > 0.0;
    assert Refill(c, b) == Refill(c, a) + d * c.refill;
  }

  /** A blocked key that waits out the announced seconds is past its block. It is admitted iff what it
      had when the block started and what has flowed in since make a token; otherwise the wait has
      earned it the next block. */
  lemma BlockedRetryAfter(c: Config, b: Bucket, now: real, later: real)
    requires c.Valid() && Blocked(c, b, now) && b.last <= now
    requires later >= now + Request(c, Some(b), now).0.retry as real
    ensures !Blocked(c, b, later)
    ensures var (d, b2) := Request(c, Some(b), later);
      && (d.allowed <==> b.tokens + Refill(c, later - b.last) >= 1.0)
      && (!d.allowed ==> StartsBlock(c, Some(b), later) && b2.blockedUntil == Some(later + b2.lastBlock))
  {
    assert later >= b.blockedUntil.value > now;
  }

  /** A second's block at a token every four seconds: the announced second is waited out and earns the
      next block. */
  lemma ShortBlockExample()
    ensures var c := Config(1.0, 0.25, 1.0, 0.0, 1.0);
      var b := Bucketed(c, None, [0.0, 0.0]).value;
      && c.Valid() && Blocked(c, b, 0.0) && Request(c, Some(b), 0.0).0 == Decision(false, 1)
      && Request(c, Some(b), 1.0).0 == Decision(false, 1)
  {
    var c := Config(1.0, 0.25, 1.0, 0.0, 1.0);
    assert [0.0, 0.0][..1] == [0.0] && [0.0][..0] == [];
    assert Bucketed(c, None, [0.0]) == Some(Bucket(0.0, 0.0, None, 0.0, 0));
    SecondBlocks(c);
  }

  lemma SecondBlocks(c: Config)
    requires c == Config(1.0, 0.25, 1.0, 0.0, 1.0)
    ensures var b := Bucket(0.0, 0.0, Some(1.0), 1.0, 1);
      && Request(c, Some(Bucket(0.0, 0.0, None, 0.0, 0)), 0.0).1 == b
      && Request(c, Some(b), 0.0).0 == Decision(false, 1) && Request(c, Some(b), 1.0).0 == Decision(false, 1)
  {
    assert Refill(c, 1.0) == 0.25;
  }
}
