/** What the analytics collector counts: minute counters, hourly dimensions, and the rollup rows the
    store keeps for a closed hour. */
module Traffic {
  import opened Sums

  const MINUTE_SLOTS := 1440
  const HOUR_SLOTS := 25
  const OTHER := "other"
  const UNKNOWN := "--"
  const NO_HOST := "-"

  // ----- minute counters: requests, denied, threats, bytes, five status classes, twelve latencies -----

  const REQ := 0
  const DEN := 1
  const THR := 2
  const BYTES := 3
  const CLASS := 4
  const CLASSES := 5
  const DUR := 9
  const DURS := 12
  const FIELDS := 21

  type Counts = s: seq<int> | |s| == FIELDS witness [0, 0, 0, 0, 0, 0, 0, 0, 0, 0, 0, 0, 0, 0, 0, 0, 0, 0, 0, 0, 0]

  const ZERO: Counts := [0, 0, 0, 0, 0, 0, 0, 0, 0, 0, 0, 0, 0, 0, 0, 0, 0, 0, 0, 0, 0]

  function Plus(a: Counts, b: Counts): (c: Counts)
    ensures forall f | 0 <= f < FIELDS :: c[f] == a[f] + b[f]
  {
    seq(FIELDS, f requires 0 <= f < FIELDS => a[f] + b[f])
  }

  datatype Agg = Agg(host: string, src: string)

  datatype MinuteSlot = MinuteSlot(minute: int, hosts: map<Agg, Counts>)

  function CountsOf(hosts: map<Agg, Counts>, agg: Agg): Counts {
    if agg in hosts then hosts[agg] else ZERO
  }

  /** The minutes the slots hold, as far as they hold minute m. */
  function HostsAt(minutes: seq<MinuteSlot>, m: int): map<Agg, Counts>
    requires |minutes| == MINUTE_SLOTS
  {
    var slot := minutes[m % MINUTE_SLOTS];
    if slot.minute == m then slot.hosts else map[]
  }

  function ValueAt(minutes: seq<MinuteSlot>, m: int, agg: Agg, f: int): int
    requires |minutes| == MINUTE_SLOTS && 0 <= f < FIELDS
  {
    CountsOf(HostsAt(minutes, m), agg)[f]
  }

  /** Counters folded into a slot; a slot holding another minute is emptied first. */
  function Put(slot: MinuteSlot, m: int, agg: Agg, c: Counts): MinuteSlot {
    var hosts := if slot.minute == m then slot.hosts else map[];
    MinuteSlot(m, hosts[agg := Plus(CountsOf(hosts, agg), c)])
  }

  /** One hour's sum of a counter. */
  function TotalOf(minutes: seq<MinuteSlot>, h: int, agg: Agg, f: int): int
    requires |minutes| == MINUTE_SLOTS && 0 <= f < FIELDS
  {
    Range(60 * h, 60 * h + 60, m => ValueAt(minutes, m, agg, f))
  }

  ghost predicate Present(minutes: seq<MinuteSlot>, h: int, agg: Agg)
    requires |minutes| == MINUTE_SLOTS
  {
    exists m | 60 * h <= m < 60 * h + 60 :: agg in HostsAt(minutes, m)
  }

  lemma AbsentIsZero(minutes: seq<MinuteSlot>, h: int, agg: Agg, f: int)
    requires |minutes| == MINUTE_SLOTS && 0 <= f < FIELDS && !Present(minutes, h, agg)
    ensures TotalOf(minutes, h, agg, f) == 0
  {
    RangeZero(60 * h, 60 * h + 60, m => ValueAt(minutes, m, agg, f));
  }

  // ----- hourly dimensions -----

  datatype Dim = Dim(n: int, d: int, t: int)

  datatype Client = Client(n: int, d: int, t: int, country: string, lastSeen: int, persist: bool)

  datatype HostHour = HostHour(country: map<string, Dim>, deny: map<string, int>, sig: map<string, int>,
                               sigCountry: map<string, map<string, int>>, clients: map<string, Client>)

  const NEW_HOUR := HostHour(map[], map[], map[], map[], map[])

  datatype HourSlot = HourSlot(hour: int, hosts: map<Agg, HostHour>)

  function HourHosts(hours: seq<HourSlot>, h: int): map<Agg, HostHour>
    requires |hours| == HOUR_SLOTS
  {
    var slot := hours[h % HOUR_SLOTS];
    if slot.hour == h then slot.hosts else map[]
  }

  // ----- rollup rows -----

  datatype Kind = Total | Status | Latency | Country | Deny | Signature | ClientKind

  /** `hour` counts whole hours. (hour, agg, kind, key) is the store's primary key. */
  datatype Row = Row(hour: int, agg: Agg, kind: Kind, key: string, n: int, d: int, t: int, b: int)

  function StatusKey(i: int): string {
    if i == 0 then "2xx" else if i == 1 then "3xx" else if i == 2 then "4xx" else if i == 3 then "5xx" else "other"
  }

  function StatusIndex(key: string): (i: int)
    ensures 0 <= i < CLASSES
  {
    if key == "2xx" then 0 else if key == "3xx" then 1 else if key == "4xx" then 2 else if key == "5xx" then 3 else 4
  }

  function DurKey(i: int): string {
    if i == 0 then "5" else if i == 1 then "10" else if i == 2 then "25" else if i == 3 then "50"
    else if i == 4 then "100" else if i == 5 then "250" else if i == 6 then "500" else if i == 7 then "1000"
    else if i == 8 then "2500" else if i == 9 then "5000" else if i == 10 then "10000" else "inf"
  }

  function DurIndex(key: string): (i: int)
    ensures 0 <= i < DURS
  {
    if key == "5" then 0 else if key == "10" then 1 else if key == "25" then 2 else if key == "50" then 3
    else if key == "100" then 4 else if key == "250" then 5 else if key == "500" then 6 else if key == "1000" then 7
    else if key == "2500" then 8 else if key == "5000" then 9 else if key == "10000" then 10 else 11
  }

  lemma StatusRoundTrip(i: int)
    requires 0 <= i < CLASSES
    ensures StatusIndex(StatusKey(i)) == i
  {
  }

  lemma DurRoundTrip(i: int)
    requires 0 <= i < DURS
    ensures DurIndex(DurKey(i)) == i
  {
  }

  /** What a row adds to a minute counter over its whole hour. */
  function Amount(r: Row, f: int): int {
    match r.kind
    case Total =>
      if f == REQ then r.n else if f == DEN then r.d else if f == THR then r.t else if f == BYTES then r.b else 0
    case Status => if f == CLASS + StatusIndex(r.key) then r.n else 0
    case Latency => if f == DUR + DurIndex(r.key) then r.n else 0
    case _ => 0
  }

  function Bar(key: string): int {
    IndexOf(key, '|')
  }

  function IndexOf(s: string, c: char): (i: int)
    ensures -1 <= i < |s|
    ensures i >= 0 ==> s[i] == c && c !in s[..i]
    ensures i < 0 <==> c !in s
  {
    if s == [] then -1
    else if s[0] == c then 0
    else
      var i := IndexOf(s[1..], c);
      assert s == [s[0]] + s[1..];
      if i < 0 then -1 else (assert s[..i + 1] == [s[0]] + s[1..][..i]; i + 1)
  }

  /** The rows an hour is rendered as, leaving out the two deliberately partial kinds. */
  ghost predicate Rendered(minutes: seq<MinuteSlot>, hours: seq<HourSlot>, h: int, r: Row)
    requires |minutes| == MINUTE_SLOTS && |hours| == HOUR_SLOTS
  {
    r.hour == h && (RenderedTotals(minutes, h, r) || RenderedDims(HourHosts(hours, h), r))
  }

  ghost predicate RenderedTotals(minutes: seq<MinuteSlot>, h: int, r: Row)
    requires |minutes| == MINUTE_SLOTS
  {
    Present(minutes, h, r.agg) &&
    match r.kind
    case Total => r.key == "" && r.n == TotalOf(minutes, h, r.agg, REQ) && r.d == TotalOf(minutes, h, r.agg, DEN)
                  && r.t == TotalOf(minutes, h, r.agg, THR) && r.b == TotalOf(minutes, h, r.agg, BYTES)
    case Status => r.d == r.t == r.b == 0 && r.key == StatusKey(StatusIndex(r.key))
                   && r.n == TotalOf(minutes, h, r.agg, CLASS + StatusIndex(r.key)) && r.n > 0
    case Latency => r.d == r.t == r.b == 0 && r.key == DurKey(DurIndex(r.key))
                    && r.n == TotalOf(minutes, h, r.agg, DUR + DurIndex(r.key)) && r.n > 0
    case _ => false
  }

  predicate RenderedDims(hosts: map<Agg, HostHour>, r: Row) {
    r.agg in hosts &&
    var hh := hosts[r.agg];
    match r.kind
    case Country => r.b == 0 && r.key in hh.country && hh.country[r.key] == Dim(r.n, r.d, r.t)
    case Deny => r.d == r.t == r.b == 0 && r.key in hh.deny && hh.deny[r.key] == r.n
    case Signature => r.d == r.t == r.b == 0 && r.key in hh.sig && hh.sig[r.key] == r.n
    case _ => false
  }

  /** The partial kinds: top countries of a signature ("label|cc"), and clients. */
  ghost predicate Partial(hours: seq<HourSlot>, h: int, r: Row)
    requires |hours| == HOUR_SLOTS
  {
    && r.hour == h && r.agg in HourHosts(hours, h)
    && (r.kind == ClientKind || (r.kind == Signature && Bar(r.key) >= 0
                                 && r.key[..Bar(r.key)] in HourHosts(hours, h)[r.agg].sig))
  }

  // ----- spreading an hour over its minutes -----

  /** Minute `off` of `span` gets its share of v: whole quotients, the remainder going to the first
      minutes. Division truncates. */
  function Share(v: int, span: int, off: int): int
    requires span > 0
  {
    if v >= 0 then v / span + (if off < v % span then 1 else 0) else -((-v) / span)
  }

  lemma {:induction false} SharesSoFar(v: int, span: int, k: int)
    requires v >= 0 && 0 <= k <= span && span > 0
    ensures Range(0, k, off => Share(v, span, off)) == k * (v / span) + if k < v % span then k else v % span
  {
    if k > 0 {
      SharesSoFar(v, span, k - 1);
      assert k * (v / span) == (k - 1) * (v / span) + v / span;
    }
  }

  /** Shares sum exactly. */
  lemma SharesSum(v: int, span: int)
    requires v >= 0 && span > 0
    ensures Range(0, span, off => Share(v, span, off)) == v
  {
    SharesSoFar(v, span, span);
    assert v == span * (v / span) + v % span;
  }

  /** A smaller total has the smaller share in every minute. */
  lemma ShareMonotone(v: int, w: int, span: int, off: int)
    requires 0 <= v <= w && span > 0
    ensures 0 <= Share(v, span, off) <= Share(w, span, off)
  {
    var q, p := v / span, w / span;
    assert v == span * q + v % span && w == span * p + w % span;
    if p < q { Multiples(p + 1, q, span); }
    if p == q { assert v % span <= w % span; }
  }

  lemma Multiples(a: int, b: int, span: int)
    requires a <= b && span > 0
    ensures span * a <= span * b && span * a == span * (a - 1) + span
  {
  }
}
