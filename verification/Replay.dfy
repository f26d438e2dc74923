/** Replaying rollup rows into the tables, and what a flush followed by a replay restores. */
module Replay {
  import opened Ingest
  import opened Sums
  import opened Traffic

  // ----- what one row does -----

  function SharesOf(r: Row, span: int, off: int): Counts
    requires span > 0
  {
    seq(FIELDS, f => Share(Amount(r, f), span, off))
  }

  /** The minutes a row's hour is spread over end with the hour, or with the current minute. */
  function LastMinute(h: int, nowMin: int): int {
    if 60 * h + 60 > nowMin + 1 then nowMin + 1 else 60 * h + 60
  }

  /** The minute from lo on that ring slot i is for. */
  function MinuteAt(lo: int, i: int): int {
    lo + (i - lo) % MINUTE_SLOTS
  }

  function Spread(minutes: seq<MinuteSlot>, r: Row, nowMin: int): (out: seq<MinuteSlot>)
    requires |minutes| == MINUTE_SLOTS
    ensures |out| == MINUTE_SLOTS
  {
    var lo, last := 60 * r.hour, LastMinute(r.hour, nowMin);
    if last <= lo then minutes
    else
      seq(MINUTE_SLOTS, i requires 0 <= i < MINUTE_SLOTS =>
        var m := MinuteAt(lo, i);
        if m < last then Put(minutes[i], m, r.agg, SharesOf(r, last - lo, m - lo)) else minutes[i])
  }

  function AppliedDim(hh: HostHour, r: Row): HostHour {
    match r.kind
    case Country => hh.(country := hh.country[r.key := Dim(r.n, r.d, r.t)])
    case Deny => hh.(deny := hh.deny[r.key := r.n])
    case Signature =>
      var i := Bar(r.key);
      var l := if i >= 0 then r.key[..i] else r.key;
      var countries := if l in hh.sigCountry then hh.sigCountry[l] else map[];
      if i >= 0 then
        hh.(sigCountry := hh.sigCountry[l := countries[r.key[i + 1..] := r.n]], sig := hh.sig[l := Get(hh.sig, l)])
      else
        hh.(sigCountry := hh.sigCountry[l := countries], sig := hh.sig[l := r.n])
    case ClientKind =>
      var i := Bar(r.key);
      if i < 0 then hh
      else hh.(clients := hh.clients[r.key[..i] := Client(r.n, r.d, r.t, r.key[i + 1..], r.b, true)])
    case _ => hh
  }

  predicate IsMinuteKind(k: Kind) { k == Total || k == Status || k == Latency }

  function AppliedHour(slot: HourSlot, r: Row): HourSlot {
    var hosts := if slot.hour == r.hour then slot.hosts else map[];
    HourSlot(r.hour, hosts[r.agg := AppliedDim(if r.agg in hosts then hosts[r.agg] else NEW_HOUR, r)])
  }

  function AppliedRow(t: Table, r: Row, nowMin: int): (out: Table)
    requires t.Shaped()
    ensures out.Shaped()
  {
    var j := r.hour % HOUR_SLOTS;
    Table(if IsMinuteKind(r.kind) then Spread(t.minutes, r, nowMin) else t.minutes,
          t.hours[j := AppliedHour(t.hours[j], r)],
          if |t.hostSet| < MAX_HOSTS then t.hostSet + {r.agg.host} else t.hostSet)
  }

  function Applied(t: Table, rows: seq<Row>, nowMin: int): (out: Table)
    requires t.Shaped()
    ensures out.Shaped()
  {
    if rows == [] then t else AppliedRow(Applied(t, rows[..|rows| - 1], nowMin), rows[|rows| - 1], nowMin)
  }

  lemma AppliedNext(t: Table, rows: seq<Row>, i: nat, nowMin: int)
    requires t.Shaped() && i < |rows|
    ensures Applied(t, rows[..i + 1], nowMin) == AppliedRow(Applied(t, rows[..i], nowMin), rows[i], nowMin)
  {
    assert rows[..i + 1][..i] == rows[..i];
  }

  // ----- minute counters -----

  lemma RingIndex(lo: int, m: int)
    requires lo <= m < lo + MINUTE_SLOTS
    ensures MinuteAt(lo, m % MINUTE_SLOTS) == m
  {
    var d := m - lo;
    assert (m % MINUTE_SLOTS - lo) % MINUTE_SLOTS == d by {
      var q := m / MINUTE_SLOTS;
      assert m % MINUTE_SLOTS - lo == d - q * MINUTE_SLOTS;
      Wraps(d, -q);
    }
  }

  lemma Wraps(d: int, k: int)
    requires 0 <= d < MINUTE_SLOTS
    ensures (d + k * MINUTE_SLOTS) % MINUTE_SLOTS == d
  {
  }

  /** One row adds its share to each minute of its hour, and leaves other hours within a day alone. */
  lemma SpreadValue(minutes: seq<MinuteSlot>, r: Row, nowMin: int, g: int, m: int, agg: Agg, f: int)
    requires |minutes| == MINUTE_SLOTS && 0 <= f < FIELDS && 60 * g <= m < 60 * g + 60 && -24 < r.hour - g < 24
    ensures ValueAt(Spread(minutes, r, nowMin), m, agg, f) == ValueAt(minutes, m, agg, f)
      + if r.hour == g && r.agg == agg && m < LastMinute(g, nowMin)
        then Share(Amount(r, f), LastMinute(g, nowMin) - 60 * g, m - 60 * g) else 0
  {
    var lo := 60 * r.hour;
    if m >= lo { RingIndex(lo, m); } else {
      RingIndex(lo, m + MINUTE_SLOTS);
      Wraps(m % MINUTE_SLOTS, 1);
      SameSlot(m);
    }
  }

  lemma SameSlot(m: int)
    ensures (m + MINUTE_SLOTS) % MINUTE_SLOTS == m % MINUTE_SLOTS
  {
  }

  /** What the rows of hour g add to one minute. */
  function ShareIn(r: Row, nowMin: int, g: int, m: int, agg: Agg, f: int): int {
    var span := LastMinute(g, nowMin) - 60 * g;
    if r.hour == g && r.agg == agg && m < LastMinute(g, nowMin)
      && span > 0 then Share(Amount(r, f), span, m - 60 * g) else 0
  }

  /** What the row says of one counter of one host and source, if it is of hour g. */
  function AmountIn(r: Row, g: int, agg: Agg, f: int): int {
    if r.hour == g && r.agg == agg then Amount(r, f) else 0
  }

  function SharesIn(rows: seq<Row>, nowMin: int, g: int, m: int, agg: Agg, f: int): int {
    Each(rows, (r: Row) => ShareIn(r, nowMin, g, m, agg, f))
  }

  function AmountsIn(rows: seq<Row>, g: int, agg: Agg, f: int): int {
    Each(rows, (r: Row) => AmountIn(r, g, agg, f))
  }

  lemma {:induction false} ReplayedValue(t: Table, rows: seq<Row>, nowMin: int, g: int, m: int, agg: Agg, f: int)
    requires t.Shaped() && 0 <= f < FIELDS && 60 * g <= m < 60 * g + 60
    requires forall r | r in rows :: -24 < r.hour - g < 24
    ensures ValueAt(Applied(t, rows, nowMin).minutes, m, agg, f)
      == ValueAt(t.minutes, m, agg, f) + SharesIn(rows, nowMin, g, m, agg, f)
  {
    if rows != [] {
      var front, last := rows[..|rows| - 1], rows[|rows| - 1];
      ReplayedValue(t, front, nowMin, g, m, agg, f);
      if IsMinuteKind(last.kind) {
        SpreadValue(Applied(t, front, nowMin).minutes, last, nowMin, g, m, agg, f);
      } else {
        NoAmount(last, f, nowMin, g, m, agg);
      }
    }
  }

  lemma NoAmount(r: Row, f: int, nowMin: int, g: int, m: int, agg: Agg)
    requires !IsMinuteKind(r.kind) && m >= 60 * g
    ensures ShareIn(r, nowMin, g, m, agg, f) == 0
  {
  }

  lemma {:induction false} RangeShift(lo: int, n: nat, g: int -> int, shifted: int -> int)
    requires forall i | 0 <= i < n :: shifted(lo + i) == g(i)
    ensures Range(lo, lo + n, shifted) == Range(0, n, g)
  {
    if n > 0 { RangeShift(lo, n - 1, g, shifted); }
  }

  lemma {:induction false} AppliedAppend(t: Table, a: seq<Row>, b: seq<Row>, nowMin: int)
    requires t.Shaped()
    ensures Applied(t, a + b, nowMin) == Applied(Applied(t, a, nowMin), b, nowMin)
  {
    if b == [] {
      assert a + b == a;
    } else {
      assert (a + b)[..|a + b| - 1] == a + b[..|b| - 1];
      AppliedAppend(t, a, b[..|b| - 1], nowMin);
    }
  }
}
