/** A stop and a start: what was flushed comes back from the store, and what a report makes of an hour
    that was written before it was over. */
module Restart {
  import opened Agreement
  import opened Collector
  import opened Displacement
  import opened Ingest
  import opened OneRequest
  import opened Replay
  import opened Report
  import opened RoundTrip
  import opened StorePath
  import opened Sums
  import opened Traffic
  import opened WindowEnds
  import opened Wrappers

  // ----- from the store back into the tables -----

  /** Every row is filed under its own hour, as the store checks when it writes. */
  ghost predicate FiledByHour(store: map<int, seq<Row>>) {
    forall h, r | r in HourRows(store, h) :: r.hour == h
  }

  lemma {:induction false} ReadSplit(store: map<int, seq<Row>>, lo: int, g: int, hi: int)
    requires lo <= g < hi
    ensures ReadHours(store, lo, hi) == ReadHours(store, lo, g) + HourRows(store, g) + ReadHours(store, g + 1, hi)
    decreases hi - g
  {
    if g + 1 < hi { ReadSplit(store, lo, g, hi - 1); }
  }

  lemma {:induction false} ReadWithin(store: map<int, seq<Row>>, lo: int, hi: int)
    requires FiledByHour(store)
    ensures forall r | r in ReadHours(store, lo, hi) :: lo <= r.hour < hi
    decreases hi - lo
  {
    if lo < hi { ReadWithin(store, lo, hi - 1); }
  }

  /** What a start replays into empty tables. */
  function Replayed(store: map<int, seq<Row>>, nowHour: int, nowMin: int): (t: Table)
    ensures t.Shaped()
  {
    Applied(Fresh(), ReadHours(store, nowHour - 24, nowHour + 1), nowMin)
  }

  lemma ReplaysHour(store: map<int, seq<Row>>, g: int, nowHour: int) returns (before: seq<Row>, after: seq<Row>)
    requires FiledByHour(store) && nowHour - 24 <= g <= nowHour
    ensures ReadHours(store, nowHour - 24, nowHour + 1) == before + HourRows(store, g) + after
    ensures Replays(g, before, HourRows(store, g), after) && (nowHour - 24 < g ==> WithinDay(g, after))
  {
    before, after := ReadHours(store, nowHour - 24, g), ReadHours(store, g + 1, nowHour + 1);
    ReadSplit(store, nowHour - 24, g, nowHour + 1);
    ReadWithin(store, nowHour - 24, g);
    ReadWithin(store, g + 1, nowHour + 1);
  }

  /** A start restores every counter of every flushed hour of the last day. */
  lemma StartRestoresTotals(store: map<int, seq<Row>>, s: Table, g: int, nowHour: int, nowMin: int, agg: Agg, f: int)
    requires FiledByHour(store) && s.Shaped() && Flushed(s.minutes, s.hours, g, HourRows(store, g))
    requires nowHour - 24 < g <= nowHour && nowHour == nowMin / 60
    requires 0 <= f < FIELDS && TotalOf(s.minutes, g, agg, f) >= 0
    ensures TotalOf(Replayed(store, nowHour, nowMin).minutes, g, agg, f) == TotalOf(s.minutes, g, agg, f)
  {
    var t0 := FreshTable(g);
    RestoredInto(t0, store, s, g, nowHour, nowMin, agg, f);
  }

  lemma FreshTable(g: int) returns (t: Table)
    ensures t == Fresh() && EmptyAt(t, g)
  {
    FreshEmpty(g);
    t := Fresh();
  }

  lemma RestoredInto(t0: Table, store: map<int, seq<Row>>, s: Table, g: int, nowHour: int, nowMin: int, agg: Agg,
                     f: int)
    requires FiledByHour(store) && s.Shaped() && Flushed(s.minutes, s.hours, g, HourRows(store, g)) && t0.Shaped()
      && EmptyAt(t0, g)
    requires nowHour - 24 < g <= nowHour && nowHour == nowMin / 60
    requires 0 <= f < FIELDS && TotalOf(s.minutes, g, agg, f) >= 0
    ensures TotalOf(Applied(t0, ReadHours(store, nowHour - 24, nowHour + 1), nowMin).minutes, g, agg, f)
      == TotalOf(s.minutes, g, agg, f)
  {
    var before, after := ReplaysHour(store, g, nowHour);
    TotalsRestored(s.minutes, s.hours, t0, g, before, HourRows(store, g), after, nowMin, agg, f);
  }

  /** ...with its countries and denial reasons, and its signatures iff no label holds the separator. */
  lemma StartRestoresDimensions(store: map<int, seq<Row>>, s: Table, g: int, nowHour: int, nowMin: int, agg: Agg)
    requires FiledByHour(store) && s.Shaped() && Flushed(s.minutes, s.hours, g, HourRows(store, g))
    requires nowHour - 24 <= g <= nowHour
    ensures var was, now := Held(s.hours, g, agg), HourOf(Replayed(store, nowHour, nowMin), g, agg);
      && now.country == was.country && now.deny == was.deny
      && (now.sig == was.sig <==> forall l | l in was.sig :: '|' !in l)
  {
    var before, after := ReplaysHour(store, g, nowHour);
    FreshEmpty(g);
    DimensionsRestored(s.minutes, s.hours, Fresh(), g, before, HourRows(store, g), after, nowMin, agg);
    SignaturesRestoredIff(s.minutes, s.hours, Fresh(), g, before, HourRows(store, g), after, nowMin, agg);
  }

  predicate HasMinutes(rows: seq<Row>) { exists r | r in rows :: IsMinuteKind(r.kind) }

  /** A row of the hour a day later takes the slots of the minutes that are over in that hour. */
  lemma DayLater(minutes: seq<MinuteSlot>, r: Row, nowMin: int, g: int, m: int, agg: Agg, f: int)
    requires |minutes| == MINUTE_SLOTS && 0 <= f < FIELDS && 60 * g <= m < 60 * g + 60 && r.hour == g + 24
    ensures ValueAt(Spread(minutes, r, nowMin), m, agg, f)
      == if m + MINUTE_SLOTS < LastMinute(g + 24, nowMin) then 0 else ValueAt(minutes, m, agg, f)
  {
    RingIndex(60 * r.hour, m + MINUTE_SLOTS);
    SameSlot(m);
  }

  lemma {:induction false} DayLaterRows(t: Table, rows: seq<Row>, nowMin: int, g: int, m: int, agg: Agg, f: int)
    requires t.Shaped() && 0 <= f < FIELDS && 60 * g <= m < 60 * g + 60 && forall r | r in rows :: r.hour == g + 24
    ensures ValueAt(Applied(t, rows, nowMin).minutes, m, agg, f)
      == if HasMinutes(rows) && m + MINUTE_SLOTS < LastMinute(g + 24, nowMin) then 0 else ValueAt(t.minutes, m, agg, f)
  {
    if rows != [] {
      var front, last := rows[..|rows| - 1], rows[|rows| - 1];
      DayLaterRows(t, front, nowMin, g, m, agg, f);
      assert front + [last] == rows;
      MoreMinutes(front, last);
      DayLaterRow(Applied(t, front, nowMin), last, nowMin, g, m, agg, f);
    }
  }

  lemma DayLaterRow(t: Table, r: Row, nowMin: int, g: int, m: int, agg: Agg, f: int)
    requires t.Shaped() && 0 <= f < FIELDS && 60 * g <= m < 60 * g + 60 && r.hour == g + 24
    ensures ValueAt(AppliedRow(t, r, nowMin).minutes, m, agg, f)
      == if IsMinuteKind(r.kind)
        && m + MINUTE_SLOTS < LastMinute(g + 24, nowMin) then 0 else ValueAt(t.minutes, m, agg, f)
  {
    if IsMinuteKind(r.kind) { DayLater(t.minutes, r, nowMin, g, m, agg, f); }
  }

  lemma MoreMinutes(front: seq<Row>, last: Row)
    ensures HasMinutes(front + [last]) <==> HasMinutes(front) || IsMinuteKind(last.kind)
  {
    if IsMinuteKind(last.kind) { assert last in front + [last]; }
    if r :| r in front && IsMinuteKind(r.kind) { assert r in front + [last]; }
  }

  /** The oldest hour a start replays: its minutes come back with their shares, except that those whose
      clock time is already past in the running hour give way to that hour's, if it has any. */
  lemma OldestHour(store: map<int, seq<Row>>, s: Table, nowHour: int, nowMin: int, m: int, agg: Agg, f: int)
    requires FiledByHour(store) && s.Shaped()
      && Flushed(s.minutes, s.hours, nowHour - 24, HourRows(store, nowHour - 24))
    requires nowHour == nowMin / 60 && 60 * (nowHour - 24) <= m < 60 * (nowHour - 24) + 60
    requires 0 <= f < FIELDS && TotalOf(s.minutes, nowHour - 24, agg, f) >= 0
    ensures ValueAt(Replayed(store, nowHour, nowMin).minutes, m, agg, f)
      == if HasMinutes(HourRows(store, nowHour)) && m + MINUTE_SLOTS <= nowMin then 0
         else Share(TotalOf(s.minutes, nowHour - 24, agg, f), 60, m - 60 * (nowHour - 24))
  {
    var t0 := FreshTable(nowHour - 24);
    OldestInto(t0, store, s, nowHour, nowMin, m, agg, f);
  }

  lemma OldestInto(t0: Table, store: map<int, seq<Row>>, s: Table, nowHour: int, nowMin: int, m: int, agg: Agg, f: int)
    requires FiledByHour(store) && s.Shaped()
      && Flushed(s.minutes, s.hours, nowHour - 24, HourRows(store, nowHour - 24))
    requires nowHour == nowMin / 60 && 60 * (nowHour - 24) <= m < 60 * (nowHour - 24) + 60
    requires 0 <= f < FIELDS && TotalOf(s.minutes, nowHour - 24, agg, f) >= 0 && t0.Shaped()
      && EmptyAt(t0, nowHour - 24)
    ensures ValueAt(Applied(t0, ReadHours(store, nowHour - 24, nowHour + 1), nowMin).minutes, m, agg, f)
      == if HasMinutes(HourRows(store, nowHour)) && m + MINUTE_SLOTS <= nowMin then 0
         else Share(TotalOf(s.minutes, nowHour - 24, agg, f), 60, m - 60 * (nowHour - 24))
  {
    var g := nowHour - 24;
    var mine, mid, last := HourRows(store, g), ReadHours(store, g + 1, nowHour), HourRows(store, nowHour);
    OldestSplit(store, g);
    OldestOf(t0, s, g, mine, mid, last, nowMin, m, agg, f);
  }

  lemma OldestSplit(store: map<int, seq<Row>>, g: int)
    requires FiledByHour(store)
    ensures ReadHours(store, g, g + 25)
      == [] + HourRows(store, g) + ReadHours(store, g + 1, g + 24) + HourRows(store, g + 24)
    ensures Replays(g, [], HourRows(store, g), ReadHours(store, g + 1, g + 24))
      && WithinDay(g, ReadHours(store, g + 1, g + 24))
  {
    ReadSplit(store, g, g, g + 24);
    ReadWithin(store, g + 1, g + 24);
  }

  lemma OldestOf(t0: Table, s: Table, g: int, mine: seq<Row>, mid: seq<Row>, last: seq<Row>, nowMin: int, m: int,
                 agg: Agg, f: int)
    requires t0.Shaped() && s.Shaped() && EmptyAt(t0, g) && Flushed(s.minutes, s.hours, g, mine)
    requires Replays(g, [], mine, mid) && WithinDay(g, mid) && forall r | r in last :: r.hour == g + 24
    requires g + 24 == nowMin / 60 && 60 * g <= m < 60 * g + 60
    requires 0 <= f < FIELDS && TotalOf(s.minutes, g, agg, f) >= 0
    ensures ValueAt(Applied(t0, [] + mine + mid + last, nowMin).minutes, m, agg, f)
      == if HasMinutes(last)
        && m + MINUTE_SLOTS <= nowMin then 0 else Share(TotalOf(s.minutes, g, agg, f), 60, m - 60 * g)
  {
    ReplayedMinute(s.minutes, s.hours, t0, g, [], mine, mid, nowMin, m, agg, f);
    AppliedAppend(t0, [] + mine + mid, last, nowMin);
    DayLaterRows(Applied(t0, [] + mine + mid, nowMin), last, nowMin, g, m, agg, f);
  }

  /** The hour's rows fit the budget, whichever way they are listed. */
  ghost predicate WithinBudget(s: Table, h: int, partial: seq<Row>)
    requires s.Shaped()
  {
    forall full | IsFull(s.minutes, s.hours, h, partial, full) :: |full| <= ROW_BUDGET
  }

  /** What a flush writes is what the results above start from: an hour with something recorded, or
      not in the store yet, is flushed once it is written within the budget. */
  lemma WrittenStartsFlushed(s: Table, h: int, partial: seq<Row>, was: seq<Row>, now: seq<Row>)
    requires s.Shaped() && WrittenHour(s.minutes, s.hours, h, partial, was, now) && WithinBudget(s, h, partial)
    requires was == [] || exists r :: Rendered(s.minutes, s.hours, h, r)
    requires Unique(partial) && forall r | r in partial :: Partial(s.hours, h, r)
    requires forall a, l | a in HourHosts(s.hours, h) && l in HourHosts(s.hours, h)[a].sig :: '|' !in l
    ensures Flushed(s.minutes, s.hours, h, now) && forall r | r in now :: r.hour == h
  {
    var full :| IsFull(s.minutes, s.hours, h, partial, full)
      && now == if Budgeted(full) == [] then was else Budgeted(full);
    WrittenIsFlushed(s.minutes, s.hours, h, partial, full);
    if r :| Rendered(s.minutes, s.hours, h, r) {
      assert ForHour(s.minutes, s.hours, h, partial, r) && r in full;
    }
  }

  /** Flush, stop, start: every counter of every host and source of any hour written in the last day is
      back. */
  lemma FlushThenStart(store: map<int, seq<Row>>, s: Table, g: int, partial: seq<Row>, was: seq<Row>, nowHour: int,
                       nowMin: int, agg: Agg, f: int)
    requires FiledByHour(store) && s.Shaped() && WrittenHour(s.minutes, s.hours, g, partial, was, HourRows(store, g))
    requires WithinBudget(s, g, partial) && (was == [] || exists r :: Rendered(s.minutes, s.hours, g, r))
    requires Unique(partial) && forall r | r in partial :: Partial(s.hours, g, r)
    requires forall a, l | a in HourHosts(s.hours, g) && l in HourHosts(s.hours, g)[a].sig :: '|' !in l
    requires nowHour - 24 < g <= nowHour && nowHour == nowMin / 60
    requires 0 <= f < FIELDS && TotalOf(s.minutes, g, agg, f) >= 0
    ensures TotalOf(Replayed(store, nowHour, nowMin).minutes, g, agg, f) == TotalOf(s.minutes, g, agg, f)
  {
    WrittenStartsFlushed(s, g, partial, was, HourRows(store, g));
    StartRestoresTotals(store, s, g, nowHour, nowMin, agg, f);
  }

  // ----- an hour written before it was over -----

  /** An hour the store answers for shows what the slots hold now iff they hold, of the metric, what
      they held when the hour was written. */
  lemma WrittenEarlyIff(geo: Geometry, store: map<int, seq<Row>>, s: Table, now: Table, nowHour: int, keep: Agg -> bool,
                        q: Metric, h: int)
    requires geo.Valid() && s.Shaped() && now.Shaped() && InOneBucket(geo, h) && Served(geo, store, nowHour, keep, h)
    requires Flushed(s.minutes, s.hours, h, HourRows(store, h)) && NonNegative(s.minutes, h)
    requires q.SigCount? ==> '|' !in q.sig
    ensures var (written, present) := (HourSum(geo, OwnMinute, s.minutes, s.hours, h, keep, q),
                                     HourSum(geo, OwnMinute, now.minutes, now.hours, h, keep, q));
      HourOnce(geo, store, now, nowHour, keep, q, h) == present <==> written == present
  {
    StoredHour(geo, store, s, now, nowHour, keep, q, h);
  }

  /** A counter of one host and source over an hour inside one bucket. */
  lemma AggCounts(geo: Geometry, t: Table, h: int, a: Agg, q: Metric)
    requires geo.bucket > 0 && t.Shaped() && InOneBucket(geo, h) && IsMinuteMetric(q)
    ensures AggSlots(geo, OwnMinute, t.minutes, t.hours, h, a, q)
      == if Shows(geo, a.host, 3600 * h, q) then TotalOf(t.minutes, h, a, FieldOf(q)) else 0
  {
    forall m | 60 * h <= m < 60 * h + 60
      ensures Shows(geo, a.host, 60 * m, q) <==> Shows(geo, a.host, 3600 * h, q)
    {
    }
    if Shows(geo, a.host, 3600 * h, q) {
      RangeSame(60 * h, 60 * h + 60, m => MinuteOf(geo, OwnMinute, t.minutes, m, a, q),
                m => ValueAt(t.minutes, m, a, FieldOf(q)));
    } else {
      RangeZero(60 * h, 60 * h + 60, m => MinuteOf(geo, OwnMinute, t.minutes, m, a, q));
    }
  }

  lemma AggDimension(geo: Geometry, t: Table, h: int, a: Agg, q: Metric)
    requires geo.bucket > 0 && t.Shaped() && !IsMinuteMetric(q)
    ensures AggSlots(geo, OwnMinute, t.minutes, t.hours, h, a, q) == HourAdds(Held(t.hours, h, a), q)
  {
    RangeZero(60 * h, 60 * h + 60, m => MinuteOf(geo, OwnMinute, t.minutes, m, a, q));
  }

  /** Two tables whose hours differ by d for one host and source. */
  lemma OneAggMore(geo: Geometry, was: Table, now: Table, h: int, keep: Agg -> bool, agg: Agg, q: Metric, d: int)
    requires geo.bucket > 0 && was.Shaped() && now.Shaped() && keep(agg)
    requires forall a :: AggSlots(geo, OwnMinute, now.minutes, now.hours, h, a, q)
                      == AggSlots(geo, OwnMinute, was.minutes, was.hours, h, a, q) + if a == agg then d else 0
    ensures HourSum(geo, OwnMinute, now.minutes, now.hours, h, keep, q)
      == HourSum(geo, OwnMinute, was.minutes, was.hours, h, keep, q) + d
  {
    var all := AggsOf(was.minutes, was.hours, h) + AggsOf(now.minutes, now.hours, h) + {agg};
    HourByAgg(geo, OwnMinute, was.minutes, was.hours, h, keep, q, all);
    HourByAgg(geo, OwnMinute, now.minutes, now.hours, h, keep, q, all);
    OneMoreOver(all, keep, a => AggSlots(geo, OwnMinute, was.minutes, was.hours, h, a, q),
                a => AggSlots(geo, OwnMinute, now.minutes, now.hours, h, a, q), agg, d);
    OverSame(all, a => Kept(keep, a, AggSlots(geo, OwnMinute, was.minutes, was.hours, h, a, q)),
             a => Kept(keep, a, (b => AggSlots(geo, OwnMinute, was.minutes, was.hours, h, b, q))(a)));
    OverSame(all, a => Kept(keep, a, AggSlots(geo, OwnMinute, now.minutes, now.hours, h, a, q)),
             a => Kept(keep, a, (b => AggSlots(geo, OwnMinute, now.minutes, now.hours, h, b, q))(a)));
  }

  lemma OneMoreOver(all: set<Agg>, keep: Agg -> bool, was: Agg -> int, now: Agg -> int, agg: Agg, d: int)
    requires agg in all && keep(agg) && forall a :: now(a) == was(a) + if a == agg then d else 0
    ensures Over(all, a => Kept(keep, a, now(a))) == Over(all, a => Kept(keep, a, was(a))) + d
  {
    OverUpdate(all, a => Kept(keep, a, was(a)), a => Kept(keep, a, now(a)), agg);
    assert all + {agg} == all;
  }

  /** What an event adds to a dimension of its hour. */
  function DimensionAdds(hh: HostHour, e: Event, q: Metric): int {
    match q
    case CountryCount(code, which) =>
      if code == e.country && (which == 0 || (if which == 1 then e.deny != "" else e.sig != "")) then 1 else 0
    case DenyCount(k) => if e.deny != "" && k == e.deny then 1 else 0
    case SigCount(l) => if e.sig != "" && l == Slot(hh.sig, e.sig, MAX_LABELS) then 1 else 0
    case _ => 0
  }

  lemma CountedAdds(hh: HostHour, e: Event, mode: Mode, at: int, q: Metric)
    requires !IsMinuteMetric(q)
    ensures HourAdds(Counted(hh, e, mode, at), q) == HourAdds(hh, q) + DimensionAdds(hh, e, q)
  {
  }

  /** What an event adds to a report of its hour. */
  function EventAdds(geo: Geometry, t: Table, e: Event, h: int, q: Metric): int
    requires geo.bucket > 0 && t.Shaped()
  {
    if !IsMinuteMetric(q) then DimensionAdds(Held(t.hours, h, AggFor(t, e)), e, q)
    else if Shows(geo, AggFor(t, e).host, 3600 * h, q) then Delta(e)[FieldOf(q)]
    else 0
  }

  /** Rows leave the slots of hours after the start's alone. */
  lemma {:induction false} HoursNotAhead(rows: seq<Row>, nowMin: int, h: int, j: int)
    requires 0 <= j < HOUR_SLOTS && h >= 0 && forall r | r in rows :: r.hour <= h
    ensures Applied(Fresh(), rows, nowMin).hours[j].hour <= h
  {
    if rows != [] { HoursNotAhead(rows[..|rows| - 1], nowMin, h, j); }
  }

  lemma IngestedHeld(t: Table, e: Event, now: int, mode: Mode, a: Agg)
    requires t.Shaped() && Lands(t, e, now) && t.hours[Stamp(e, now) / 3600 % HOUR_SLOTS].hour <= Stamp(e, now) / 3600
    ensures var h := Stamp(e, now) / 3600;
      Held(Ingested(t, e, now, mode).hours, h, a)
        == if a == AggFor(t, e) then Counted(Held(t.hours, h, a), e, mode, Stamp(e, now)) else Held(t.hours, h, a)
  {
    IngestedHour(t, e, now, mode);
  }

  /** A stop in an hour that was flushed, a start in the same hour, and one event after it. */
  ghost predicate OneAfterStart(store: map<int, seq<Row>>, s: Table, e: Event, startMin: int, clock: int) {
    var h := startMin / 60;
    && FiledByHour(store) && s.Shaped() && startMin >= 0 && h == Stamp(e, clock) / 3600
    && Flushed(s.minutes, s.hours, h, HourRows(store, h)) && NonNegative(s.minutes, h)
    && (forall a, l | l in Held(s.hours, h, a).sig :: '|' !in l)
    && Lands(Replayed(store, h, startMin), e, clock)
  }

  lemma TotalAfterStart(store: map<int, seq<Row>>, s: Table, e: Event, startMin: int, clock: int, mode: Mode, a: Agg,
                        f: int)
    requires OneAfterStart(store, s, e, startMin, clock) && 0 <= f < FIELDS
    ensures var h := startMin / 60; var back := Replayed(store, h, startMin);
      TotalOf(Ingested(back, e, clock, mode).minutes, h, a, f)
        == TotalOf(s.minutes, h, a, f) + if a == AggFor(back, e) then Delta(e)[f] else 0
  {
    var h := startMin / 60;
    TotalsNonNegative(s.minutes, h, a, f);
    StartRestoresTotals(store, s, h, h, startMin, a, f);
    IngestedTotal(Replayed(store, h, startMin), e, clock, mode, a, f);
  }

  lemma HeldAfterStart(store: map<int, seq<Row>>, s: Table, e: Event, startMin: int, clock: int, mode: Mode, a: Agg,
                       q: Metric)
    requires OneAfterStart(store, s, e, startMin, clock) && !IsMinuteMetric(q)
    ensures var h := startMin / 60; var back := Replayed(store, h, startMin);
      HourAdds(Held(Ingested(back, e, clock, mode).hours, h, a), q)
        == HourAdds(Held(s.hours, h, a), q) + if a == AggFor(back, e) then DimensionAdds(Held(back.hours, h, a), e, q)
          else 0
  {
    var h := startMin / 60;
    var back := Replayed(store, h, startMin);
    StartRestoresDimensions(store, s, h, h, startMin, a);
    ReadWithin(store, h - 24, h + 1);
    HoursNotAhead(ReadHours(store, h - 24, h + 1), startMin, h, h % HOUR_SLOTS);
    IngestedHeld(back, e, clock, mode, a);
    CountedAdds(Held(back.hours, h, a), e, mode, Stamp(e, clock), q);
  }

  lemma AggAfterStart(geo: Geometry, store: map<int, seq<Row>>, s: Table, e: Event, startMin: int, clock: int,
                      mode: Mode, a: Agg, q: Metric)
    requires geo.Valid() && OneAfterStart(store, s, e, startMin, clock) && InOneBucket(geo, startMin / 60)
    ensures var h := startMin / 60; var back := Replayed(store, h, startMin); var now := Ingested(back, e, clock, mode);
      AggSlots(geo, OwnMinute, now.minutes, now.hours, h, a, q)
        == AggSlots(geo, OwnMinute, s.minutes, s.hours, h, a, q) + if a
          == AggFor(back, e) then EventAdds(geo, back, e, h, q) else 0
  {
    var h := startMin / 60;
    var now := Ingested(Replayed(store, h, startMin), e, clock, mode);
    if IsMinuteMetric(q) {
      AggCounts(geo, s, h, a, q);
      AggCounts(geo, now, h, a, q);
      if Shows(geo, a.host, 3600 * h, q) { TotalAfterStart(store, s, e, startMin, clock, mode, a, FieldOf(q)); }
    } else {
      AggDimension(geo, s, h, a, q);
      AggDimension(geo, now, h, a, q);
      HeldAfterStart(store, s, e, startMin, clock, mode, a, q);
    }
  }

  /** Flushed at a stop, replayed at a start in the same hour, then one more event: once the hour is over
      and until it is flushed again, every metric of the report is short of exactly that event. */
  lemma UnderReported(geo: Geometry, store: map<int, seq<Row>>, s: Table, e: Event, startMin: int, clock: int,
                      mode: Mode, nowHour: int,
                      keep: Agg -> bool, q: Metric)
    requires geo.Valid() && OneAfterStart(store, s, e, startMin, clock) && (q.SigCount? ==> '|' !in q.sig)
    requires InOneBucket(geo, startMin / 60) && Served(geo, store, nowHour, keep, startMin / 60)
    requires keep(AggFor(Replayed(store, startMin / 60, startMin), e))
    ensures var h := startMin / 60; var back := Replayed(store, h, startMin); var now := Ingested(back, e, clock, mode);
      HourOnce(geo, store, now, nowHour, keep, q, h) + EventAdds(geo, back, e, h, q)
        == HourSum(geo, OwnMinute, now.minutes, now.hours, h, keep, q)
  {
    var h := startMin / 60;
    var back := Replayed(store, h, startMin);
    var now := Ingested(back, e, clock, mode);
    forall a ensures AggSlots(geo, OwnMinute, now.minutes, now.hours, h, a, q)
      == AggSlots(geo, OwnMinute, s.minutes, s.hours, h, a, q) + if a
        == AggFor(back, e) then EventAdds(geo, back, e, h, q) else 0
    {
      AggAfterStart(geo, store, s, e, startMin, clock, mode, a, q);
    }
    OneAggMore(geo, s, now, h, keep, AggFor(back, e), q, EventAdds(geo, back, e, h, q));
    StoredHour(geo, store, s, now, nowHour, keep, q, h);
  }

  lemma StoredHour(geo: Geometry, store: map<int, seq<Row>>, s: Table, now: Table, nowHour: int, keep: Agg -> bool,
                   q: Metric, h: int)
    requires geo.Valid() && s.Shaped() && now.Shaped() && InOneBucket(geo, h) && Served(geo, store, nowHour, keep, h)
    requires Flushed(s.minutes, s.hours, h, HourRows(store, h)) && NonNegative(s.minutes, h)
    requires q.SigCount? ==> '|' !in q.sig
    ensures HourOnce(geo, store, now, nowHour, keep, q, h) == HourSum(geo, OwnMinute, s.minutes, s.hours, h, keep, q)
  {
    FlushedHour(geo, s, h, HourRows(store, h), keep, q);
    FilingIsSame(geo, s.minutes, h, keep, q);
  }

  // ----- example -----

  /** Rows leave the slots of minutes after the start alone. */
  lemma {:induction false} NotAhead(rows: seq<Row>, nowMin: int, i: int)
    requires 0 <= i < MINUTE_SLOTS && nowMin >= 0
    ensures Applied(Fresh(), rows, nowMin).minutes[i].minute <= nowMin
  {
    if rows != [] { NotAhead(rows[..|rows| - 1], nowMin, i); }
  }

  lemma {:induction false} OnlyHosts(rows: seq<Row>, nowMin: int, host: string)
    requires forall r | r in rows :: r.agg.host == host
    ensures Applied(Fresh(), rows, nowMin).hostSet <= {host}
  {
    if rows != [] { OnlyHosts(rows[..|rows| - 1], nowMin, host); }
  }

  lemma {:induction false} ReadOnly(store: map<int, seq<Row>>, lo: int, hi: int)
    requires forall h | lo <= h < hi :: HourRows(store, h) == []
    ensures ReadHours(store, lo, hi) == []
    decreases hi - lo
  {
    if lo < hi { ReadOnly(store, lo, hi - 1); }
  }

  /** Another request to the same host, at 1:52. */
  const SECOND := REQUEST.(time := Some(6720))

  /** The slots after a start at 1:50. */
  function Started(): (t: Table)
    ensures t.Shaped()
  {
    Replayed(map[1 := ROWS], 1, 110)
  }

  lemma StartedTable()
    ensures Lands(Started(), SECOND, 6720) && AggFor(Started(), SECOND) == REQUESTER
  {
    StartedFrom(ROWS, SECOND, 6720);
  }

  lemma StartedFrom(rows: seq<Row>, e: Event, clock: int)
    requires Stamp(e, clock) / 60 == 112 && e.host != "" && forall r | r in rows :: r.agg.host == e.host
    ensures var t := Replayed(map[1 := rows], 1, 110); Lands(t, e, clock) && AggFor(t, e) == Agg(e.host, e.src)
  {
    var store := map[1 := rows];
    var read := ReadHours(store, -23, 2);
    ReadSplit(store, -23, 1, 2);
    ReadOnly(store, -23, 1);
    ReadOnly(store, 2, 2);
    assert read == rows;
    OnlyHosts(read, 110, e.host);
    Smaller(Applied(Fresh(), read, 110).hostSet, e.host);
    NotAhead(read, 110, 112);
  }

  lemma Smaller(hosts: set<string>, host: string)
    requires hosts <= {host}
    ensures |hosts| <= 1
  {
    if hosts != {} { assert hosts == {host}; }
  }

  /** The request of 1:45 is flushed at a stop, the start at 1:50 puts it back, and another request comes
      at 1:52: at 2:00 the report of that hour falls from two requests to one. */
  lemma PartialCopyExample()
    ensures var geo := Geometry(3600, 7200, 3600); var now := Ingested(Started(), SECOND, 6720, Off);
      && HourOnce(geo, map[1 := ROWS], now, 1, All, REQUESTS, 1) == 2
      && HourOnce(geo, map[1 := ROWS], now, 2, All, REQUESTS, 1) == 1
  {
    SlotsAre();
    StartedTable();
    OnlyHour();
    SecondShort(Geometry(3600, 7200, 3600), map[1 := ROWS], Slots(), Started());
  }

  lemma SecondShort(geo: Geometry, store: map<int, seq<Row>>, s: Table, back: Table)
    requires geo == Geometry(3600, 7200, 3600) && store == map[1 := ROWS] && OneRequestAt(s, ROWS)
    requires back == Started() && Lands(back, SECOND, 6720) && AggFor(back, SECOND) == REQUESTER
    requires forall a, l | l in Held(s.hours, 1, a).sig :: '|' !in l
    ensures var now := Ingested(back, SECOND, 6720, Off);
      HourOnce(geo, store, now, 1, All, REQUESTS, 1) == 2 && HourOnce(geo, store, now, 2, All, REQUESTS, 1) == 1
  {
    AlignedHours(geo, 1);
    RequestServed(geo, s, ROWS);
    assert Served(geo, store, 2, All, 1) by { assert ROWS[0] in HourRows(store, 1) && All(ROWS[0].agg); }
    UnderReported(geo, store, s, SECOND, 110, 6720, Off, 2, All, REQUESTS);
    FlushedHour(geo, s, 1, ROWS, All, REQUESTS);
    RequestHour(geo, HourStart, s);
    HourOfMinute(1, 105);
  }
}
