/** Flush then replay: what the rows of an hour put back into the tables. */
module RoundTrip {
  import opened Ingest
  import opened Replay
  import opened Sums
  import opened Traffic

  function HourOf(t: Table, g: int, agg: Agg): HostHour
    requires t.Shaped()
  {
    Held(t.hours, g, agg)
  }

  /** The slots hold nothing of hour g. */
  ghost predicate EmptyAt(t: Table, g: int)
    requires t.Shaped()
  {
    HourHosts(t.hours, g) == map[] && forall m | 60 * g <= m < 60 * g + 60 :: HostsAt(t.minutes, m) == map[]
  }

  // ----- rows of other hours -----

  lemma {:induction false} EmptyKept(t: Table, rows: seq<Row>, nowMin: int, g: int)
    requires t.Shaped() && EmptyAt(t, g) && forall r | r in rows :: r.hour != g
    ensures EmptyAt(Applied(t, rows, nowMin), g)
  {
    if rows != [] {
      var front, last := rows[..|rows| - 1], rows[|rows| - 1];
      EmptyKept(t, front, nowMin, g);
      var before, after := Applied(t, front, nowMin), Applied(t, rows, nowMin);
      forall m | 60 * g <= m < 60 * g + 60 ensures HostsAt(after.minutes, m) == map[] {
        assert HostsAt(before.minutes, m) == map[];
        OtherHourEmpty(before.minutes, last, nowMin, m);
      }
    }
  }

  lemma OtherHourEmpty(minutes: seq<MinuteSlot>, r: Row, nowMin: int, m: int)
    requires |minutes| == MINUTE_SLOTS && HostsAt(minutes, m) == map[] && !(60 * r.hour <= m < 60 * r.hour + 60)
    ensures HostsAt(Spread(minutes, r, nowMin), m) == map[]
  {
    var lo, i := 60 * r.hour, m % MINUTE_SLOTS;
    assert lo <= MinuteAt(lo, i);
  }

  lemma {:induction false} HoursUntouched(t: Table, rows: seq<Row>, nowMin: int, g: int)
    requires t.Shaped() && forall r | r in rows :: r.hour != g && -25 < r.hour - g < 25
    ensures HourHosts(Applied(t, rows, nowMin).hours, g) == HourHosts(t.hours, g)
  {
    if rows != [] {
      var last := rows[|rows| - 1];
      HoursUntouched(t, rows[..|rows| - 1], nowMin, g);
      OtherHourSlot(last.hour, g);
    }
  }

  lemma OtherHourSlot(h: int, g: int)
    requires h != g && -HOUR_SLOTS < h - g < HOUR_SLOTS
    ensures h % HOUR_SLOTS != g % HOUR_SLOTS
  {
  }

  // ----- the dimensions of one host and source -----

  predicate IsDim(r: Row, agg: Agg, kind: Kind, key: string) {
    r.agg == agg && r.kind == kind && r.key == key
  }

  /** No two rows share the store's primary key. */
  ghost predicate Unique(rows: seq<Row>) {
    forall i, j | 0 <= i < j < |rows| ::
      rows[i].hour != rows[j].hour || !IsDim(rows[j], rows[i].agg, rows[i].kind, rows[i].key)
  }

  function Folded(rows: seq<Row>, agg: Agg): HostHour {
    if rows == [] then NEW_HOUR
    else
      var before := Folded(rows[..|rows| - 1], agg);
      if rows[|rows| - 1].agg == agg then AppliedDim(before, rows[|rows| - 1]) else before
  }

  lemma {:induction false} AppliedIsFolded(t: Table, rows: seq<Row>, nowMin: int, g: int, agg: Agg)
    requires t.Shaped() && EmptyAt(t, g) && forall r | r in rows :: r.hour == g
    ensures HourOf(Applied(t, rows, nowMin), g, agg) == Folded(rows, agg)
  {
    if rows != [] {
      var front, last := rows[..|rows| - 1], rows[|rows| - 1];
      AppliedIsFolded(t, front, nowMin, g, agg);
      RowHour(Applied(t, front, nowMin), last, nowMin, agg);
    }
  }

  lemma RowHour(t: Table, r: Row, nowMin: int, agg: Agg)
    requires t.Shaped()
    ensures HourOf(AppliedRow(t, r, nowMin), r.hour, agg)
      == if r.agg == agg then AppliedDim(HourOf(t, r.hour, agg), r) else HourOf(t, r.hour, agg)
  {
  }

  ghost predicate HasRow(rows: seq<Row>, agg: Agg, kind: Kind, key: string) {
    exists r :: r in rows && IsDim(r, agg, kind, key)
  }

  lemma HasMore(rows: seq<Row>, last: Row, agg: Agg, kind: Kind, key: string)
    ensures HasRow(rows + [last], agg, kind, key) <==> HasRow(rows, agg, kind, key) || IsDim(last, agg, kind, key)
  {
    if IsDim(last, agg, kind, key) { assert last in rows + [last]; }
    if r :| r in rows && IsDim(r, agg, kind, key) { assert r in rows + [last]; }
  }

  ghost predicate OneHour(rows: seq<Row>) {
    forall i, j | 0 <= i < |rows| && 0 <= j < |rows| :: rows[i].hour == rows[j].hour
  }

  /** The last row's key is new. */
  lemma LastIsNew(rows: seq<Row>, agg: Agg, kind: Kind, key: string)
    requires rows != [] && Unique(rows) && OneHour(rows)
    ensures IsDim(rows[|rows| - 1], agg, kind, key) ==> !HasRow(rows[..|rows| - 1], agg, kind, key)
  {
    if r :| r in rows[..|rows| - 1] && IsDim(r, agg, kind, key) {
      var i :| 0 <= i < |rows| - 1 && rows[i] == r;
    }
  }

  lemma OneCountry(hh: HostHour, r: Row, k: string)
    ensures var out := AppliedDim(hh, r).country;
      if r.kind == Country && r.key == k then k in out && out[k] == Dim(r.n, r.d, r.t)
      else (k in out <==> k in hh.country) && (k in out ==> out[k] == hh.country[k])
  {
  }

  lemma {:induction false} FoldedCountry(rows: seq<Row>, agg: Agg, k: string)
    requires Unique(rows) && OneHour(rows)
    ensures k in Folded(rows, agg).country <==> HasRow(rows, agg, Country, k)
    ensures forall r | r in rows && IsDim(r, agg, Country, k) :: Folded(rows, agg).country[k] == Dim(r.n, r.d, r.t)
  {
    if rows != [] {
      var front, last := rows[..|rows| - 1], rows[|rows| - 1];
      FoldedCountry(front, agg, k);
      assert rows == front + [last];
      HasMore(front, last, agg, Country, k);
      LastIsNew(rows, agg, Country, k);
      OneCountry(Folded(front, agg), last, k);
    }
  }

  lemma OneDenial(hh: HostHour, r: Row, k: string)
    ensures var out := AppliedDim(hh, r).deny;
      if r.kind == Deny && r.key == k then k in out && out[k] == r.n
      else (k in out <==> k in hh.deny) && (k in out ==> out[k] == hh.deny[k])
  {
  }

  lemma {:induction false} FoldedDeny(rows: seq<Row>, agg: Agg, k: string)
    requires Unique(rows) && OneHour(rows)
    ensures k in Folded(rows, agg).deny <==> HasRow(rows, agg, Deny, k)
    ensures forall r | r in rows && IsDim(r, agg, Deny, k) :: Folded(rows, agg).deny[k] == r.n
  {
    if rows != [] {
      var front, last := rows[..|rows| - 1], rows[|rows| - 1];
      FoldedDeny(front, agg, k);
      assert rows == front + [last];
      HasMore(front, last, agg, Deny, k);
      LastIsNew(rows, agg, Deny, k);
      OneDenial(Folded(front, agg), last, k);
    }
  }

  /** The label a signature row is filed under. */
  function LabelOf(key: string): string {
    if Bar(key) >= 0 then key[..Bar(key)] else key
  }

  ghost predicate HasLabel(rows: seq<Row>, agg: Agg, l: string) {
    exists r :: r in rows && r.agg == agg && r.kind == Signature && LabelOf(r.key) == l
  }

  lemma LabelMore(rows: seq<Row>, last: Row, agg: Agg, l: string)
    ensures HasLabel(rows + [last], agg, l)
      <==> HasLabel(rows, agg, l) || (last.agg == agg && last.kind == Signature && LabelOf(last.key) == l)
  {
    if last.agg == agg && last.kind == Signature && LabelOf(last.key) == l { assert last in rows + [last]; }
    if r :| r in rows && r.agg == agg && r.kind == Signature && LabelOf(r.key) == l { assert r in rows + [last]; }
  }

  lemma {:induction false} FoldedSig(rows: seq<Row>, agg: Agg, l: string)
    requires Unique(rows) && OneHour(rows)
    ensures l in Folded(rows, agg).sig <==> HasLabel(rows, agg, l)
    ensures forall r | r in rows && IsDim(r, agg, Signature, l) && Bar(l) < 0 :: Folded(rows, agg).sig[l] == r.n
    ensures l in Folded(rows, agg).sig ==> '|' !in l
  {
    if rows != [] {
      var front, last := rows[..|rows| - 1], rows[|rows| - 1];
      assert rows == front + [last];
      FoldedSig(front, agg, l);
      LabelMore(front, last, agg, l);
      OneSig(Folded(front, agg), last, l);
    }
  }

  lemma OneSig(hh: HostHour, r: Row, l: string)
    ensures var out := AppliedDim(hh, r).sig;
      if r.kind == Signature && LabelOf(r.key) == l then l in out
        && out[l] == (if Bar(r.key) < 0 then r.n else Get(hh.sig, l))
      else (l in out <==> l in hh.sig) && (l in out ==> out[l] == hh.sig[l])
  {
  }

  // ----- the round trip -----

  /** `rows` are the hour's rows as flushed within the budget and read back: every rendered row, the
      two partial kinds as it happens, each key once. */
  ghost predicate Flushed(minutes: seq<MinuteSlot>, hours: seq<HourSlot>, g: int, rows: seq<Row>)
    requires |minutes| == MINUTE_SLOTS && |hours| == HOUR_SLOTS
  {
    && Unique(rows) && Distinct(rows)
    && (forall r :: Rendered(minutes, hours, g, r) ==> r in rows)
    && (forall r | r in rows :: Rendered(minutes, hours, g, r) || Partial(hours, g, r))
  }

  /** The row that carries one counter of one host and source. */
  function Carrier(minutes: seq<MinuteSlot>, g: int, agg: Agg, f: int): Row
    requires |minutes| == MINUTE_SLOTS && 0 <= f < FIELDS
  {
    if f < CLASS then
      Row(g, agg, Total, "", TotalOf(minutes, g, agg, REQ), TotalOf(minutes, g, agg, DEN),
          TotalOf(minutes, g, agg, THR),
          TotalOf(minutes, g, agg, BYTES))
    else if f < DUR then Row(g, agg, Status, StatusKey(f - CLASS), TotalOf(minutes, g, agg, f), 0, 0, 0)
    else Row(g, agg, Latency, DurKey(f - DUR), TotalOf(minutes, g, agg, f), 0, 0, 0)
  }

  lemma CarrierAmount(minutes: seq<MinuteSlot>, g: int, agg: Agg, f: int)
    requires |minutes| == MINUTE_SLOTS && 0 <= f < FIELDS
    ensures Amount(Carrier(minutes, g, agg, f), f) == TotalOf(minutes, g, agg, f)
  {
    if CLASS <= f < DUR { StatusRoundTrip(f - CLASS); }
    if DUR <= f { DurRoundTrip(f - DUR); }
  }

  lemma OnlyCarrier(minutes: seq<MinuteSlot>, hours: seq<HourSlot>, g: int, agg: Agg, f: int, r: Row)
    requires |minutes| == MINUTE_SLOTS && |hours| == HOUR_SLOTS && 0 <= f < FIELDS
    requires Rendered(minutes, hours, g, r) || Partial(hours, g, r)
    requires AmountIn(r, g, agg, f) != 0
    ensures r == Carrier(minutes, g, agg, f)
  {
  }

  lemma CarrierRendered(minutes: seq<MinuteSlot>, hours: seq<HourSlot>, g: int, agg: Agg, f: int)
    requires |minutes| == MINUTE_SLOTS && |hours| == HOUR_SLOTS && 0 <= f < FIELDS
    requires Present(minutes, g, agg) && TotalOf(minutes, g, agg, f) > 0
    ensures Rendered(minutes, hours, g, Carrier(minutes, g, agg, f))
  {
    if CLASS <= f < DUR { StatusRoundTrip(f - CLASS); }
    if DUR <= f { DurRoundTrip(f - DUR); }
  }

  /** The flushed rows say exactly the hour's totals. */
  lemma RowsSayTotals(minutes: seq<MinuteSlot>, hours: seq<HourSlot>, g: int, rows: seq<Row>, agg: Agg, f: int)
    requires |minutes| == MINUTE_SLOTS && |hours| == HOUR_SLOTS && 0 <= f < FIELDS
    requires Flushed(minutes, hours, g, rows) && TotalOf(minutes, g, agg, f) >= 0
    ensures AmountsIn(rows, g, agg, f) == TotalOf(minutes, g, agg, f)
  {
    var one := Carrier(minutes, g, agg, f);
    CarrierAmount(minutes, g, agg, f);
    forall r | r in rows && r != one ensures AmountIn(r, g, agg, f) == 0 {
      if AmountIn(r, g, agg, f) != 0 { OnlyCarrier(minutes, hours, g, agg, f, r); }
    }
    EachOnly(rows, (r: Row) => AmountIn(r, g, agg, f), one);
    if TotalOf(minutes, g, agg, f) > 0 {
      if !Present(minutes, g, agg) { AbsentIsZero(minutes, g, agg, f); }
        else { CarrierRendered(minutes, hours, g, agg, f); }
    }
  }

  lemma ShareOfNothing(span: int, off: int)
    requires span > 0 && off >= 0
    ensures Share(0, span, off) == 0
  {
  }

  /** In one minute the hour's rows leave exactly that minute's share of the hour's total. */
  lemma MinuteShare(minutes: seq<MinuteSlot>, hours: seq<HourSlot>, g: int, rows: seq<Row>, nowMin: int, m: int,
                    agg: Agg, f: int)
    requires |minutes| == MINUTE_SLOTS && |hours| == HOUR_SLOTS && 0 <= f < FIELDS && 60 * g <= m < 60 * g + 60
    requires Flushed(minutes, hours, g, rows) && TotalOf(minutes, g, agg, f) >= 0
    ensures SharesIn(rows, nowMin, g, m, agg, f)
      == if m < LastMinute(g, nowMin)
        then Share(TotalOf(minutes, g, agg, f), LastMinute(g, nowMin) - 60 * g, m - 60 * g) else 0
  {
    var one, span := Carrier(minutes, g, agg, f), LastMinute(g, nowMin) - 60 * g;
    CarrierAmount(minutes, g, agg, f);
    forall r | r in rows && r != one ensures ShareIn(r, nowMin, g, m, agg, f) == 0 {
      if AmountIn(r, g, agg, f) != 0 { OnlyCarrier(minutes, hours, g, agg, f, r); }
      if span > 0 { ShareOfNothing(span, m - 60 * g); }
    }
    EachOnly(rows, (r: Row) => ShareIn(r, nowMin, g, m, agg, f), one);
    if TotalOf(minutes, g, agg, f) > 0 {
      if !Present(minutes, g, agg) { AbsentIsZero(minutes, g, agg, f); }
        else { CarrierRendered(minutes, hours, g, agg, f); }
    } else if span > 0 {
      ShareOfNothing(span, m - 60 * g);
    }
  }

  /** The replayed table: the hour's rows between those of earlier hours and those of later ones, as
      the store returns them; none of the later ones takes the hour's slot. */
  ghost predicate Replays(g: int, before: seq<Row>, mine: seq<Row>, after: seq<Row>) {
    && (forall r | r in before :: r.hour != g) && (forall r | r in mine :: r.hour == g)
    && (forall r | r in after :: r.hour != g && -25 < r.hour - g < 25)
  }

  /** No row is of a whole day before or after, whose minutes share the hour's slots. */
  predicate WithinDay(g: int, rows: seq<Row>) { forall r | r in rows :: -24 < r.hour - g < 24 }

  lemma ReplayedMinute(minutes: seq<MinuteSlot>, hours: seq<HourSlot>, t0: Table, g: int,
                       before: seq<Row>, mine: seq<Row>, after: seq<Row>, nowMin: int, m: int, agg: Agg, f: int)
    requires |minutes| == MINUTE_SLOTS && |hours| == HOUR_SLOTS && t0.Shaped() && EmptyAt(t0, g)
    requires Flushed(minutes, hours, g, mine) && Replays(g, before, mine, after) && WithinDay(g, after)
    requires 0 <= f < FIELDS && 60 * g <= m < 60 * g + 60 && TotalOf(minutes, g, agg, f) >= 0
    ensures ValueAt(Applied(t0, before + mine + after, nowMin).minutes, m, agg, f)
      == if m < LastMinute(g, nowMin)
        then Share(TotalOf(minutes, g, agg, f), LastMinute(g, nowMin) - 60 * g, m - 60 * g) else 0
  {
    var t1 := Applied(t0, before, nowMin);
    AppliedAppend(t0, before + mine, after, nowMin);
    AppliedAppend(t0, before, mine, nowMin);
    EmptyKept(t0, before, nowMin, g);
    assert HostsAt(t1.minutes, m) == map[];
    ReplayedValue(t1, mine, nowMin, g, m, agg, f);
    MinuteShare(minutes, hours, g, mine, nowMin, m, agg, f);
    ReplayedValue(Applied(t1, mine, nowMin), after, nowMin, g, m, agg, f);
    EachZero(after, (r: Row) => ShareIn(r, nowMin, g, m, agg, f));
  }

  /** The minutes of the hour up to the present one share its total evenly, the earlier ones taking one more
      where it does not divide; those to come get nothing. */
  lemma ReplayedEvenly(minutes: seq<MinuteSlot>, hours: seq<HourSlot>, t0: Table, g: int,
                       before: seq<Row>, mine: seq<Row>, after: seq<Row>, nowMin: int, m: int, agg: Agg, f: int)
    requires |minutes| == MINUTE_SLOTS && |hours| == HOUR_SLOTS && t0.Shaped() && EmptyAt(t0, g)
    requires Flushed(minutes, hours, g, mine) && Replays(g, before, mine, after) && WithinDay(g, after)
    requires 0 <= f < FIELDS && 60 * g <= m < 60 * g + 60 && TotalOf(minutes, g, agg, f) >= 0
    ensures var total := TotalOf(minutes, g, agg, f);
      var elapsed := if nowMin < 60 * g + 59 then nowMin - 60 * g + 1 else 60;
      ValueAt(Applied(t0, before + mine + after, nowMin).minutes, m, agg, f)
      == if m > nowMin then 0 else total / elapsed + if m - 60 * g < total % elapsed then 1 else 0
  {
    ReplayedMinute(minutes, hours, t0, g, before, mine, after, nowMin, m, agg, f);
  }

  /** Flush then replay restores every counter of every host and source: requests, denials, threats,
      bytes, status classes and latency buckets each sum to what the hour held, and no minute gets
      more denials than requests. */
  lemma TotalsRestored(minutes: seq<MinuteSlot>, hours: seq<HourSlot>, t0: Table, g: int,
                       before: seq<Row>, mine: seq<Row>, after: seq<Row>, nowMin: int, agg: Agg, f: int)
    requires |minutes| == MINUTE_SLOTS && |hours| == HOUR_SLOTS && t0.Shaped() && EmptyAt(t0, g)
    requires Flushed(minutes, hours, g, mine) && Replays(g, before, mine, after) && WithinDay(g, after)
      && 60 * g <= nowMin
    requires 0 <= f < FIELDS && TotalOf(minutes, g, agg, f) >= 0
    ensures TotalOf(Applied(t0, before + mine + after, nowMin).minutes, g, agg, f) == TotalOf(minutes, g, agg, f)
  {
    var out, total, last := Applied(t0, before + mine + after, nowMin).minutes, TotalOf(minutes, g, agg, f),
      LastMinute(g, nowMin);
    forall m | 60 * g <= m < 60 * g + 60
      ensures ValueAt(out, m, agg, f) == if m < last then Share(total, last - 60 * g, m - 60 * g) else 0
    {
      ReplayedMinute(minutes, hours, t0, g, before, mine, after, nowMin, m, agg, f);
    }
    SharesTotal(out, g, last, agg, f, total);
  }

  lemma SharesTotal(out: seq<MinuteSlot>, g: int, last: int, agg: Agg, f: int, total: int)
    requires |out| == MINUTE_SLOTS && 0 <= f < FIELDS && total >= 0 && 60 * g < last <= 60 * g + 60
    requires forall m | 60 * g <= m < 60 * g + 60 ::
      ValueAt(out, m, agg, f) == if m < last then Share(total, last - 60 * g, m - 60 * g) else 0
    ensures TotalOf(out, g, agg, f) == total
  {
    var value := (m: int) => ValueAt(out, m, agg, f);
    SpreadSums(value, 60 * g, last, total);
    RangeSame(60 * g, 60 * g + 60, value, m => ValueAt(out, m, agg, f));
  }

  lemma SpreadSums(value: int -> int, lo: int, last: int, total: int)
    requires total >= 0 && lo < last <= lo + 60
    requires forall m | lo <= m < lo + 60 :: value(m) == if m < last then Share(total, last - lo, m - lo) else 0
    ensures Range(lo, lo + 60, value) == total
  {
    RangeSplit(lo, last, lo + 60, value);
    RangeZero(last, lo + 60, value);
    var share := (off: int) => Share(total, last - lo, off);
    assert forall i: nat | i < last - lo :: value(lo + i) == share(i);
    RangeShift(lo, last - lo, share, value);
    SharesSum(total, last - lo);
    RangeSame(0, last - lo, share, off => Share(total, last - lo, off));
  }

  lemma DeniedWithinRequests(minutes: seq<MinuteSlot>, hours: seq<HourSlot>, t0: Table, g: int,
                             before: seq<Row>, mine: seq<Row>, after: seq<Row>, nowMin: int, m: int, agg: Agg)
    requires |minutes| == MINUTE_SLOTS && |hours| == HOUR_SLOTS && t0.Shaped() && EmptyAt(t0, g)
    requires Flushed(minutes, hours, g, mine) && Replays(g, before, mine, after) && WithinDay(g, after)
      && 60 * g <= m < 60 * g + 60
    requires 0 <= TotalOf(minutes, g, agg, DEN) <= TotalOf(minutes, g, agg, REQ)
    ensures var out := Applied(t0, before + mine + after, nowMin).minutes;
      0 <= ValueAt(out, m, agg, DEN) <= ValueAt(out, m, agg, REQ)
  {
    ReplayedMinute(minutes, hours, t0, g, before, mine, after, nowMin, m, agg, DEN);
    ReplayedMinute(minutes, hours, t0, g, before, mine, after, nowMin, m, agg, REQ);
    if m < LastMinute(g, nowMin) {
      ShareMonotone(TotalOf(minutes, g, agg, DEN), TotalOf(minutes, g, agg, REQ), LastMinute(g, nowMin) - 60 * g,
                    m - 60 * g);
    }
  }

  /** What the tables keep guarantees the premises above: every hour's totals are sums of well-formed
      minutes. */
  lemma TotalsWellFormed(t: Table, g: int, agg: Agg, f: int)
    requires TableOk(t) && 0 <= f < FIELDS && f != BYTES
    ensures 0 <= TotalOf(t.minutes, g, agg, f)
    ensures TotalOf(t.minutes, g, agg, DEN) <= TotalOf(t.minutes, g, agg, REQ)
  {
    forall m
      ensures 0 <= ValueAt(t.minutes, m, agg, f) && ValueAt(t.minutes, m, agg, DEN) <= ValueAt(t.minutes, m, agg, REQ)
    {
      ValueWellFormed(t, m, agg, f);
    }
    RangeLeq(60 * g, 60 * g + 60, m => 0, m => ValueAt(t.minutes, m, agg, f));
    RangeZero(60 * g, 60 * g + 60, m => 0);
    RangeLeq(60 * g, 60 * g + 60, m => ValueAt(t.minutes, m, agg, DEN), m => ValueAt(t.minutes, m, agg, REQ));
  }

  lemma ValueWellFormed(t: Table, m: int, agg: Agg, f: int)
    requires TableOk(t) && 0 <= f < FIELDS && f != BYTES
    ensures 0 <= ValueAt(t.minutes, m, agg, f) && ValueAt(t.minutes, m, agg, DEN) <= ValueAt(t.minutes, m, agg, REQ)
  {
    var c := CountsOf(HostsAt(t.minutes, m), agg);
    ZeroOk();
    assert MinuteOk(c);
  }

  lemma ReplayedHour(minutes: seq<MinuteSlot>, hours: seq<HourSlot>, t0: Table, g: int,
                     before: seq<Row>, mine: seq<Row>, after: seq<Row>, nowMin: int, agg: Agg)
    requires |minutes| == MINUTE_SLOTS && |hours| == HOUR_SLOTS && t0.Shaped() && EmptyAt(t0, g)
    requires Flushed(minutes, hours, g, mine) && Replays(g, before, mine, after)
    ensures HourOf(Applied(t0, before + mine + after, nowMin), g, agg) == Folded(mine, agg)
  {
    AppliedAppend(t0, before + mine, after, nowMin);
    AppliedAppend(t0, before, mine, nowMin);
    EmptyKept(t0, before, nowMin, g);
    AppliedIsFolded(Applied(t0, before, nowMin), mine, nowMin, g, agg);
    HoursUntouched(Applied(Applied(t0, before, nowMin), mine, nowMin), after, nowMin, g);
  }

  /** The hour as the tables hold it. */
  function Held(hours: seq<HourSlot>, g: int, agg: Agg): HostHour
    requires |hours| == HOUR_SLOTS
  {
    var hosts := HourHosts(hours, g);
    if agg in hosts then hosts[agg] else NEW_HOUR
  }

  lemma FoldedHeld(minutes: seq<MinuteSlot>, hours: seq<HourSlot>, g: int, mine: seq<Row>, agg: Agg)
    requires |minutes| == MINUTE_SLOTS && |hours| == HOUR_SLOTS
    requires Flushed(minutes, hours, g, mine) && forall r | r in mine :: r.hour == g
    ensures Folded(mine, agg).country == Held(hours, g, agg).country
      && Folded(mine, agg).deny == Held(hours, g, agg).deny
  {
    var held, folded := Held(hours, g, agg), Folded(mine, agg);
    forall k
      ensures (k in folded.country <==> k in held.country)
        && (k in held.country ==> folded.country[k] == held.country[k])
    {
      FoldedCountry(mine, agg, k);
      if k in held.country {
        var v := held.country[k];
        var r := Row(g, agg, Country, k, v.n, v.d, v.t, 0);
        assert Rendered(minutes, hours, g, r) && r in mine && IsDim(r, agg, Country, k);
      }
    }
    forall k ensures (k in folded.deny <==> k in held.deny) && (k in held.deny ==> folded.deny[k] == held.deny[k]) {
      FoldedDeny(mine, agg, k);
      if k in held.deny {
        var r := Row(g, agg, Deny, k, held.deny[k], 0, 0, 0);
        assert Rendered(minutes, hours, g, r) && r in mine && IsDim(r, agg, Deny, k);
      }
    }
  }

  /** Country and denial counts come back exactly... */
  lemma DimensionsRestored(minutes: seq<MinuteSlot>, hours: seq<HourSlot>, t0: Table, g: int,
                           before: seq<Row>, mine: seq<Row>, after: seq<Row>, nowMin: int, agg: Agg)
    requires |minutes| == MINUTE_SLOTS && |hours| == HOUR_SLOTS && t0.Shaped() && EmptyAt(t0, g)
    requires Flushed(minutes, hours, g, mine) && Replays(g, before, mine, after)
    ensures var out := HourOf(Applied(t0, before + mine + after, nowMin), g, agg);
      out.country == Held(hours, g, agg).country && out.deny == Held(hours, g, agg).deny
  {
    ReplayedHour(minutes, hours, t0, g, before, mine, after, nowMin, agg);
    FoldedHeld(minutes, hours, g, mine, agg);
  }

  /** ...and signature counts come back exactly when no label contains the character that separates a
      label from a country in the stored key. */
  lemma SignaturesRestoredIff(minutes: seq<MinuteSlot>, hours: seq<HourSlot>, t0: Table, g: int,
                              before: seq<Row>, mine: seq<Row>, after: seq<Row>, nowMin: int, agg: Agg)
    requires |minutes| == MINUTE_SLOTS && |hours| == HOUR_SLOTS && t0.Shaped() && EmptyAt(t0, g)
    requires Flushed(minutes, hours, g, mine) && Replays(g, before, mine, after)
    ensures HourOf(Applied(t0, before + mine + after, nowMin), g, agg).sig == Held(hours, g, agg).sig
      <==> forall l | l in Held(hours, g, agg).sig :: '|' !in l
  {
    ReplayedHour(minutes, hours, t0, g, before, mine, after, nowMin, agg);
    var held, folded := Held(hours, g, agg).sig, Folded(mine, agg).sig;
    forall l ensures l in folded ==> '|' !in l {
      FoldedSig(mine, agg, l);
    }
    if forall l | l in held :: '|' !in l {
      forall l ensures (l in folded <==> l in held) && (l in held ==> folded[l] == held[l]) {
        SignatureBack(minutes, hours, g, mine, agg, l);
      }
    }
  }

  lemma SignatureBack(minutes: seq<MinuteSlot>, hours: seq<HourSlot>, g: int, mine: seq<Row>, agg: Agg, l: string)
    requires |minutes| == MINUTE_SLOTS && |hours| == HOUR_SLOTS
    requires Flushed(minutes, hours, g, mine) && forall r | r in mine :: r.hour == g
    requires forall k | k in Held(hours, g, agg).sig :: '|' !in k
    ensures var held := Held(hours, g, agg).sig; var folded := Folded(mine, agg).sig;
      (l in folded <==> l in held) && (l in held ==> folded[l] == held[l])
  {
    FoldedSig(mine, agg, l);
    var held := Held(hours, g, agg).sig;
    if l in held {
      var r := Row(g, agg, Signature, l, held[l], 0, 0, 0);
      assert Rendered(minutes, hours, g, r) && r in mine && IsDim(r, agg, Signature, l) && Bar(l) < 0;
    }
  }
}
