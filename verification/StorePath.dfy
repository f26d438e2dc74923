/** Reports from the store and reports from memory: which copy of each hour is counted, what that
    reports, and exactly when the two paths agree. */
module StorePath {
  import opened Agreement
  import opened Collector
  import opened Displacement
  import opened Ingest
  import opened Report
  import opened RoundTrip
  import opened Sums
  import opened Traffic

  // ----- memory, hour by hour -----

  function Unskipped(skip: set<int>, h: int, v: int): int { if h in skip then 0 else v }

  ghost function HourOrSkipped(geo: Geometry, t: Table, keep: Agg -> bool, skip: set<int>, q: Metric, h: int): int
    requires geo.bucket > 0 && t.Shaped()
  {
    Unskipped(skip, h, HourSum(geo, OwnMinute, t.minutes, t.hours, h, keep, q))
  }

  ghost function VisitedMinute(geo: Geometry, minutes: seq<MinuteSlot>, keep: Agg -> bool, skip: set<int>, q: Metric,
                               m: int): int
    requires geo.bucket > 0 && |minutes| == MINUTE_SLOTS
  {
    if Visits(geo, m) then MinuteAdd(geo, minutes, keep, skip, q, m) else 0
  }

  ghost function VisitedMinutes(geo: Geometry, minutes: seq<MinuteSlot>, lo: int, hi: int, keep: Agg -> bool,
                                skip: set<int>, q: Metric): int
    requires geo.bucket > 0 && |minutes| == MINUTE_SLOTS
  {
    Range(lo, hi, m => VisitedMinute(geo, minutes, keep, skip, q, m))
  }

  lemma OneHour(geo: Geometry, minutes: seq<MinuteSlot>, h: int, keep: Agg -> bool, skip: set<int>, q: Metric)
    requires geo.bucket > 0 && |minutes| == MINUTE_SLOTS
    ensures VisitedMinutes(geo, minutes, 60 * h, 60 * h + 60, keep, skip, q)
      == Unskipped(skip, h, SlotsAs(geo, OwnMinute, minutes, 60 * h, 60 * h + 60, keep, q))
  {
    forall m | 60 * h <= m < 60 * h + 60
      ensures VisitedMinute(geo, minutes, keep, skip, q, m)
        == Unskipped(skip, h, SlotAs(geo, OwnMinute, minutes, m, keep, q))
    {
      HourOfMinute(h, m);
    }
    HourOfMinutes(m => VisitedMinute(geo, minutes, keep, skip, q, m), m => SlotAs(geo, OwnMinute, minutes, m, keep, q),
                  skip, h);
  }

  lemma HourOfMinutes(minute: int -> int, slot: int -> int, skip: set<int>, h: int)
    requires forall m | 60 * h <= m < 60 * h + 60 :: minute(m) == Unskipped(skip, h, slot(m))
    ensures Range(60 * h, 60 * h + 60, minute) == Unskipped(skip, h, Range(60 * h, 60 * h + 60, slot))
  {
    if h in skip { RangeZero(60 * h, 60 * h + 60, minute); } else { RangeSame(60 * h, 60 * h + 60, minute, slot); }
  }

  ghost function HoursOfMemory(geo: Geometry, t: Table, lo: int, hi: int, keep: Agg -> bool, skip: set<int>,
                               q: Metric): int
    requires geo.bucket > 0 && t.Shaped()
  {
    Range(lo, hi, h => HourOrSkipped(geo, t, keep, skip, q, h))
  }

  lemma {:induction false} HourByHour(geo: Geometry, t: Table, lo: int, hi: int, keep: Agg -> bool, skip: set<int>,
                                      q: Metric)
    requires geo.bucket > 0 && t.Shaped() && lo <= hi
    ensures VisitedMinutes(geo, t.minutes, 60 * lo, 60 * hi, keep, skip, q) + HoursAdd(t.hours, lo, hi, keep, skip, q)
      == HoursOfMemory(geo, t, lo, hi, keep, skip, q)
    decreases hi - lo
  {
    if lo < hi {
      HourByHour(geo, t, lo, hi - 1, keep, skip, q);
      RangeSplit(60 * lo, 60 * (hi - 1), 60 * hi, m => VisitedMinute(geo, t.minutes, keep, skip, q, m));
      OneHour(geo, t.minutes, hi - 1, keep, skip, q);
    }
  }

  /** The minutes a report leaves out of its first and last hour add nothing. */
  lemma WholeHours(geo: Geometry, minutes: seq<MinuteSlot>, keep: Agg -> bool, skip: set<int>, q: Metric)
    requires geo.Valid() && |minutes| == MINUTE_SLOTS
    ensures VisitedMinutes(geo, minutes, 60 * FirstHour(geo), 60 * HoursTo(geo), keep, skip, q)
      == MinutesAdd(geo, minutes, geo.start / 60, geo.end / 60, keep, skip, q)
  {
    var lo, hi := 60 * FirstHour(geo), 60 * HoursTo(geo);
    var visited := (m: int) => VisitedMinute(geo, minutes, keep, skip, q, m);
    HourBounds(geo);
    RangeSplit(lo, geo.start / 60, hi, visited);
    RangeSplit(geo.start / 60, geo.end / 60, hi, visited);
    forall m | lo <= m < geo.start / 60 ensures visited(m) == 0 { BeforeWindow(geo, HostsAt(minutes, m), m, keep, q); }
    RangeZero(lo, geo.start / 60, visited);
    RangeZero(geo.end / 60, hi, visited);
    RangeSame(geo.start / 60, geo.end / 60, visited, m => MinuteAdd(geo, minutes, keep, skip, q, m));
    RangeSame(lo, hi, visited, m => VisitedMinute(geo, minutes, keep, skip, q, m));
  }

  lemma HourBounds(geo: Geometry)
    requires geo.Valid()
    ensures FirstHour(geo) <= HoursFrom(geo) <= FirstHour(geo) + 1 && FirstHour(geo) <= HoursTo(geo)
      && HoursFrom(geo) <= HoursTo(geo)
    ensures 60 * FirstHour(geo) <= geo.start / 60 <= geo.end / 60 <= 60 * HoursTo(geo)
    ensures forall h :: (HoursFrom(geo) <= h <==> geo.start <= 3600 * h) && (h < HoursTo(geo) <==> 3600 * h < geo.end)
  {
  }

  lemma BeforeWindow(geo: Geometry, hosts: map<Agg, Counts>, m: int, keep: Agg -> bool, q: Metric)
    requires geo.bucket > 0 && m < geo.start / 60
    ensures SlotAdds(geo, hosts, m, keep, q) == 0
  {
    OverZero(hosts.Keys, (a: Agg) => Kept(keep, a, MinuteAdds(geo, a.host, 60 * m, CountsOf(hosts, a), q)));
  }

  /** The first hour the window touches. */
  function FirstHour(geo: Geometry): int { geo.start / 3600 }

  /** A memory window is the sum of the hours it touches, those skipped apart. */
  lemma MemoryByHour(geo: Geometry, t: Table, keep: Agg -> bool, skip: set<int>, q: Metric)
    requires geo.Valid() && t.Shaped()
    ensures MemoryAdds(geo, t.minutes, t.hours, keep, skip, q)
      == HoursOfMemory(geo, t, FirstHour(geo), HoursTo(geo), keep, skip, q)
  {
    HourBounds(geo);
    WholeHours(geo, t.minutes, keep, skip, q);
    HourByHour(geo, t, FirstHour(geo), HoursTo(geo), keep, skip, q);
  }

  // ----- which copy is counted -----

  /** The store answers for an hour that starts in the window, is over, and has rows asked for. */
  ghost predicate Served(geo: Geometry, store: map<int, seq<Row>>, nowHour: int, keep: Agg -> bool, h: int) {
    geo.start <= 3600 * h < geo.end && IsStored(store, nowHour, keep, h)
  }

  /** An hour's part of a store-backed window: its rows when the store answers for it, and otherwise
      its memory slots, as far as the window reaches; never both. */
  ghost function HourOnce(geo: Geometry, store: map<int, seq<Row>>, t: Table, nowHour: int, keep: Agg -> bool,
                          q: Metric, h: int): int
    requires geo.bucket > 0 && t.Shaped()
  {
    if Served(geo, store, nowHour, keep, h) then StoreHour(geo, HourRows(store, h), keep, q)
    else HourSum(geo, OwnMinute, t.minutes, t.hours, h, keep, q)
  }

  lemma NothingKept(geo: Geometry, rows: seq<Row>, keep: Agg -> bool, q: Metric)
    requires geo.bucket > 0 && forall r | r in rows :: !keep(r.agg)
    ensures StoreHour(geo, rows, keep, q) == 0
  {
    EachZero(rows, (r: Row) => Kept(keep, r.agg, RowAdds(geo, r, q)));
  }

  ghost function RowsPart(geo: Geometry, store: map<int, seq<Row>>, nowHour: int, keep: Agg -> bool, q: Metric,
                          h: int): int
    requires geo.bucket > 0
  {
    if geo.start <= 3600 * h && h < nowHour then StoreHour(geo, HourRows(store, h), keep, q) else 0
  }

  lemma RowsByHour(geo: Geometry, store: map<int, seq<Row>>, nowHour: int, keep: Agg -> bool, q: Metric)
    requires geo.Valid()
    ensures StoreAdds(geo, store, HoursFrom(geo), HoursTo(geo), nowHour, keep, q)
      == Range(FirstHour(geo), HoursTo(geo), h => RowsPart(geo, store, nowHour, keep, q, h))
  {
    var part := (h: int) => RowsPart(geo, store, nowHour, keep, q, h);
    HourBounds(geo);
    RangeSplit(FirstHour(geo), HoursFrom(geo), HoursTo(geo), part);
    RangeZero(FirstHour(geo), HoursFrom(geo), part);
    RangeSame(HoursFrom(geo), HoursTo(geo), part,
              h => if h < nowHour then StoreHour(geo, HourRows(store, h), keep, q) else 0);
    RangeSame(FirstHour(geo), HoursTo(geo), part, h => RowsPart(geo, store, nowHour, keep, q, h));
  }

  /** A store-backed window of any shape counts each hour it touches exactly once; the store never
      answers for an hour the window's start cuts. */
  lemma EachHourOnce(geo: Geometry, store: map<int, seq<Row>>, t: Table, nowHour: int, keep: Agg -> bool, q: Metric)
    requires geo.Valid() && t.Shaped()
    ensures StoreWindowAdds(geo, store, t.minutes, t.hours, nowHour, keep, q)
      == Range(FirstHour(geo), HoursTo(geo), h => HourOnce(geo, store, t, nowHour, keep, q, h))
  {
    var lo, hi := FirstHour(geo), HoursTo(geo);
    var skip := StoredHours(store, HoursFrom(geo), hi, nowHour, keep);
    MemoryByHour(geo, t, keep, skip, q);
    RowsByHour(geo, store, nowHour, keep, q);
    HourBounds(geo);
    forall h | lo <= h < hi
      ensures HourOnce(geo, store, t, nowHour, keep, q, h)
        == RowsPart(geo, store, nowHour, keep, q, h) + HourOrSkipped(geo, t, keep, skip, q, h)
    {
      if !IsStored(store, nowHour, keep, h) && h < nowHour { NothingKept(geo, HourRows(store, h), keep, q); }
    }
    RangeAdd(lo, hi, h => RowsPart(geo, store, nowHour, keep, q, h), h => HourOrSkipped(geo, t, keep, skip, q, h),
             h => HourOnce(geo, store, t, nowHour, keep, q, h));
  }

  // ----- what is reported, and what was recorded -----

  /** An hour the window touches that is over and that the store has rows of. */
  ghost predicate InStore(geo: Geometry, store: map<int, seq<Row>>, nowHour: int, keep: Agg -> bool, h: int) {
    FirstHour(geo) <= h && 3600 * h < geo.end && IsStored(store, nowHour, keep, h)
  }

  lemma ServedInStore(geo: Geometry, store: map<int, seq<Row>>, nowHour: int, keep: Agg -> bool, h: int)
    ensures Served(geo, store, nowHour, keep, h) <==> InStore(geo, store, nowHour, keep, h) && geo.start <= 3600 * h
  {
  }

  /** Each such hour was flushed from the slots `was` gives for it, also the one the start cuts. */
  ghost predicate FlushedFrom(geo: Geometry, store: map<int, seq<Row>>, nowHour: int, keep: Agg -> bool,
                              was: int -> Table)
  {
    forall h | InStore(geo, store, nowHour, keep, h) ::
      was(h).Shaped() && Flushed(was(h).minutes, was(h).hours, h, HourRows(store, h)) && NonNegative(was(h).minutes, h)
  }

  ghost function HourReported(geo: Geometry, store: map<int, seq<Row>>, nowHour: int, keep: Agg -> bool,
                              was: int -> Table, t: Table, q: Metric, h: int): int
    requires geo.bucket > 0 && t.Shaped() && FlushedFrom(geo, store, nowHour, keep, was)
  {
    ServedInStore(geo, store, nowHour, keep, h);
    if Served(geo, store, nowHour, keep, h) then HourSum(geo, HourStart, was(h).minutes, was(h).hours, h, keep, q)
    else HourSum(geo, OwnMinute, t.minutes, t.hours, h, keep, q)
  }

  ghost function HourRecorded(geo: Geometry, store: map<int, seq<Row>>, nowHour: int, keep: Agg -> bool,
                              was: int -> Table, t: Table, q: Metric, h: int): int
    requires geo.bucket > 0 && t.Shaped() && FlushedFrom(geo, store, nowHour, keep, was)
  {
    var s := if InStore(geo, store, nowHour, keep, h) then was(h) else t;
    HourSum(geo, OwnMinute, s.minutes, s.hours, h, keep, q)
  }

  /** What was recorded in the window: the stored hours as they stood when flushed, the others as they
      stand. */
  ghost function Recorded(geo: Geometry, store: map<int, seq<Row>>, nowHour: int, keep: Agg -> bool,
                          was: int -> Table, t: Table, q: Metric): int
    requires geo.bucket > 0 && t.Shaped() && FlushedFrom(geo, store, nowHour, keep, was)
  {
    Range(FirstHour(geo), HoursTo(geo), h => HourRecorded(geo, store, nowHour, keep, was, t, q, h))
  }

  /** A store-backed window of any shape, long after the slots it was flushed from are gone: each
      hour the store answers for as it stood then, counted at its start, and the others from memory. */
  lemma StoreReports(geo: Geometry, store: map<int, seq<Row>>, t: Table, nowHour: int, keep: Agg -> bool,
                     was: int -> Table, q: Metric)
    requires geo.Valid() && t.Shaped() && FlushedFrom(geo, store, nowHour, keep, was) && (q.SigCount? ==> '|' !in q.sig)
    ensures StoreWindowAdds(geo, store, t.minutes, t.hours, nowHour, keep, q)
      == Range(FirstHour(geo), HoursTo(geo), h => HourReported(geo, store, nowHour, keep, was, t, q, h))
  {
    EachHourOnce(geo, store, t, nowHour, keep, q);
    forall h
      ensures HourOnce(geo, store, t, nowHour, keep, q, h) == HourReported(geo, store, nowHour, keep, was, t, q, h)
    {
      ServedInStore(geo, store, nowHour, keep, h);
      if Served(geo, store, nowHour, keep, h) { FlushedHour(geo, was(h), h, HourRows(store, h), keep, q); }
    }
    RangeSame(FirstHour(geo), HoursTo(geo), h => HourOnce(geo, store, t, nowHour, keep, q, h),
              h => HourReported(geo, store, nowHour, keep, was, t, q, h));
  }

  lemma FlushedHour(geo: Geometry, s: Table, h: int, rows: seq<Row>, keep: Agg -> bool, q: Metric)
    requires geo.bucket > 0 && s.Shaped() && Flushed(s.minutes, s.hours, h, rows) && NonNegative(s.minutes, h)
    requires geo.start <= 3600 * h < geo.end && (q.SigCount? ==> '|' !in q.sig)
    ensures StoreHour(geo, rows, keep, q) == HourSum(geo, HourStart, s.minutes, s.hours, h, keep, q)
  {
    forall a, f | 0 <= f < FIELDS ensures TotalOf(s.minutes, h, a, f) >= 0 { TotalsNonNegative(s.minutes, h, a, f); }
    StartsInside(geo, h);
    RowsAgree(geo, s.minutes, s.hours, h, rows, keep, q);
  }

  lemma StartsInside(geo: Geometry, h: int)
    requires geo.bucket > 0 && geo.start <= 3600 * h < geo.end
    ensures geo.Index(3600 * h) >= 0
  {
  }

  /** When every stored hour of the window lies in one bucket, as in the windows of whole hours the
      long ranges use, the report is exactly what was recorded, for every metric. */
  lemma WholeHoursExact(geo: Geometry, store: map<int, seq<Row>>, t: Table, nowHour: int, keep: Agg -> bool,
                        was: int -> Table, q: Metric)
    requires geo.Valid() && t.Shaped() && FlushedFrom(geo, store, nowHour, keep, was) && (q.SigCount? ==> '|' !in q.sig)
    requires (geo.start % 3600 == 0 && geo.bucket % 3600 == 0)
             || forall h | InStore(geo, store, nowHour, keep, h) :: InOneBucket(geo, h)
    ensures StoreWindowAdds(geo, store, t.minutes, t.hours, nowHour, keep, q)
      == Recorded(geo, store, nowHour, keep, was, t, q)
  {
    StoreReports(geo, store, t, nowHour, keep, was, q);
    forall h
      ensures HourReported(geo, store, nowHour, keep, was, t, q, h)
        == HourRecorded(geo, store, nowHour, keep, was, t, q, h)
    {
      ServedInStore(geo, store, nowHour, keep, h);
      if InStore(geo, store, nowHour, keep, h) {
        if geo.start % 3600 == 0 && geo.bucket % 3600 == 0 { AlignedHours(geo, h); }
        FilingIsSame(geo, was(h).minutes, h, keep, q);
      }
    }
    RangeSame(FirstHour(geo), HoursTo(geo), h => HourReported(geo, store, nowHour, keep, was, t, q, h),
              h => HourRecorded(geo, store, nowHour, keep, was, t, q, h));
  }

  // ----- exactly when -----

  /** What a stored hour holds of the metric that the report counts at the hour's start only. */
  ghost function MovedIn(geo: Geometry, store: map<int, seq<Row>>, nowHour: int, keep: Agg -> bool,
                         was: int -> Table, q: Metric, h: int): int
    requires geo.bucket > 0 && FlushedFrom(geo, store, nowHour, keep, was)
  {
    ServedInStore(geo, store, nowHour, keep, h);
    if Served(geo, store, nowHour, keep, h) then DisplacedSum(geo, was(h).minutes, h, keep, q) else 0
  }

  ghost function Moved(geo: Geometry, store: map<int, seq<Row>>, nowHour: int, keep: Agg -> bool,
                       was: int -> Table, q: Metric): int
    requires geo.bucket > 0 && FlushedFrom(geo, store, nowHour, keep, was)
  {
    Range(FirstHour(geo), HoursTo(geo), h => MovedIn(geo, store, nowHour, keep, was, q, h))
  }

  /** What memory has lost since of a stored hour that the window's start cuts, which the store is not
      asked for. */
  ghost function Lost(geo: Geometry, store: map<int, seq<Row>>, nowHour: int, keep: Agg -> bool,
                      was: int -> Table, t: Table, q: Metric, h: int): int
    requires geo.bucket > 0 && t.Shaped() && FlushedFrom(geo, store, nowHour, keep, was)
  {
    if InStore(geo, store, nowHour, keep, h) && 3600 * h < geo.start then
      HourSum(geo, OwnMinute, was(h).minutes, was(h).hours, h, keep, q)
      - HourSum(geo, OwnMinute, t.minutes, t.hours, h, keep, q)
    else 0
  }

  lemma HourBalance(geo: Geometry, store: map<int, seq<Row>>, t: Table, nowHour: int, keep: Agg -> bool,
                    was: int -> Table, q: Metric, h: int)
    requires geo.Valid() && t.Shaped() && FlushedFrom(geo, store, nowHour, keep, was) && !q.Series?
    ensures HourReported(geo, store, nowHour, keep, was, t, q, h) + Lost(geo, store, nowHour, keep, was, t, q, h)
      == HourRecorded(geo, store, nowHour, keep, was, t, q, h) + MovedIn(geo, store, nowHour, keep, was, q, h)
  {
    ServedInStore(geo, store, nowHour, keep, h);
    if Served(geo, store, nowHour, keep, h) {
      StartsInside(geo, h);
      HourMoves(geo, was(h).minutes, was(h).hours, h, keep, q);
    }
  }

  /** Totals, prefixes of the series, per-host counters, the histogram and the dimensions of any
      store-backed window: what is reported and what was lost at the start make up what was recorded
      and what was moved to the start of its hour. So a report is exact iff the two errors are equal. */
  lemma StoreExactIff(geo: Geometry, store: map<int, seq<Row>>, t: Table, nowHour: int, keep: Agg -> bool,
                      was: int -> Table, q: Metric)
    requires geo.Valid() && t.Shaped() && FlushedFrom(geo, store, nowHour, keep, was) && (q.SigCount? ==> '|' !in q.sig)
    requires !q.Series?
    ensures var reported := StoreWindowAdds(geo, store, t.minutes, t.hours, nowHour, keep, q);
      var recorded := Recorded(geo, store, nowHour, keep, was, t, q);
      var lost, moved := Lost(geo, store, nowHour, keep, was, t, q, FirstHour(geo)),
        Moved(geo, store, nowHour, keep, was, q);
      reported + lost == recorded + moved && (reported == recorded <==> lost == moved)
  {
    var lo, hi := FirstHour(geo), HoursTo(geo);
    var lost := (h: int) => Lost(geo, store, nowHour, keep, was, t, q, h);
    var both := (h: int) => HourRecorded(geo, store, nowHour, keep, was, t, q, h)
      + MovedIn(geo, store, nowHour, keep, was, q, h);
    StoreReports(geo, store, t, nowHour, keep, was, q);
    forall h ensures both(h) == HourReported(geo, store, nowHour, keep, was, t, q, h) + lost(h) {
      HourBalance(geo, store, t, nowHour, keep, was, q, h);
    }
    RangeAdd(lo, hi, h => HourReported(geo, store, nowHour, keep, was, t, q, h), lost, both);
    RangeAdd(lo, hi, h => HourRecorded(geo, store, nowHour, keep, was, t, q, h),
             h => MovedIn(geo, store, nowHour, keep, was, q, h), both);
    CutHours(geo);
    RangeOnly(lo, hi, lost, lo);
  }

  lemma CutHours(geo: Geometry)
    requires geo.Valid()
    ensures forall h | FirstHour(geo) <= h && 3600 * h < geo.start :: h == FirstHour(geo) < HoursTo(geo)
    ensures forall h | geo.end < 3600 * h + 3600 && 3600 * h < geo.end :: h == geo.end / 3600 < HoursTo(geo)
    ensures forall h | geo.start <= 3600 * h :: FirstHour(geo) <= h
  {
  }

  /** What a stored hour that the window's end cuts holds, of the metric, in the minutes cut off. */
  ghost function CutOff(geo: Geometry, store: map<int, seq<Row>>, nowHour: int, keep: Agg -> bool, was: int -> Table,
                        q: Metric): int
    requires geo.bucket > 0 && FlushedFrom(geo, store, nowHour, keep, was)
  {
    MovedIn(geo, store, nowHour, keep, was, q, geo.end / 3600)
  }

  lemma OnlyLastMoves(geo: Geometry, store: map<int, seq<Row>>, nowHour: int, keep: Agg -> bool, was: int -> Table,
                      q: Metric)
    requires geo.Valid() && FlushedFrom(geo, store, nowHour, keep, was) && WholeWindow(geo, q)
    ensures Moved(geo, store, nowHour, keep, was, q) == CutOff(geo, store, nowHour, keep, was, q)
  {
    var lo, hi, last := FirstHour(geo), HoursTo(geo), geo.end / 3600;
    var moved := (h: int) => MovedIn(geo, store, nowHour, keep, was, q, h);
    forall h | h != last ensures moved(h) == 0 {
      ServedInStore(geo, store, nowHour, keep, h);
      if Served(geo, store, nowHour, keep, h) { WholeHourStays(geo, was(h).minutes, h, keep, q); }
    }
    RangeOnly(lo, hi, moved, last);
    RangeSame(lo, hi, moved, h => MovedIn(geo, store, nowHour, keep, was, q, h));
    if Served(geo, store, nowHour, keep, last) { HourBounds(geo); }
  }

  /** Of an hour the end does not cut, nothing is displaced in a metric of the whole window. */
  lemma WholeHourStays(geo: Geometry, minutes: seq<MinuteSlot>, h: int, keep: Agg -> bool, q: Metric)
    requires geo.Valid() && |minutes| == MINUTE_SLOTS && NonNegative(minutes, h) && WholeWindow(geo, q)
    requires geo.start <= 3600 * h < geo.end && h != geo.end / 3600
    ensures DisplacedSum(geo, minutes, h, keep, q) == 0
  {
    StartsInside(geo, h);
    forall m, a | 60 * h <= m < 60 * h + 60 ensures !Displaced(geo, minutes, h, keep, q, m, a) {
      OnlyTheEndCuts(geo, minutes, h, keep, q, m, a);
    }
    DisplacesIff(geo, minutes, h, keep, q);
  }

  /** Totals, per-host counters, the histogram and the dimensions are reported exactly as recorded iff
      what the last hour holds past the window's end is as much as memory lost of the first hour. */
  lemma BothEndsIff(geo: Geometry, store: map<int, seq<Row>>, t: Table, nowHour: int, keep: Agg -> bool,
                    was: int -> Table, q: Metric)
    requires geo.Valid() && t.Shaped() && FlushedFrom(geo, store, nowHour, keep, was) && (q.SigCount? ==> '|' !in q.sig)
    requires WholeWindow(geo, q)
    ensures var reported := StoreWindowAdds(geo, store, t.minutes, t.hours, nowHour, keep, q);
      var recorded := Recorded(geo, store, nowHour, keep, was, t, q);
      var lost, cut := Lost(geo, store, nowHour, keep, was, t, q, FirstHour(geo)),
        CutOff(geo, store, nowHour, keep, was, q);
      reported + lost == recorded + cut && (reported == recorded <==> lost == cut)
  {
    StoreExactIff(geo, store, t, nowHour, keep, was, q);
    OnlyLastMoves(geo, store, nowHour, keep, was, q);
  }

  /** The window's end cuts an hour the store answers for, and the minutes cut off hold something the
      metric shows. */
  ghost predicate EndCuts(geo: Geometry, store: map<int, seq<Row>>, nowHour: int, keep: Agg -> bool, was: int -> Table,
                          q: Metric)
    requires geo.bucket > 0 && FlushedFrom(geo, store, nowHour, keep, was)
  {
    var h := geo.end / 3600;
    ServedInStore(geo, store, nowHour, keep, h);
    Served(geo, store, nowHour, keep, h) && HoldsPastEnd(geo, was(h).minutes, h, keep, q)
  }

  ghost predicate HoldsPastEnd(geo: Geometry, minutes: seq<MinuteSlot>, h: int, keep: Agg -> bool, q: Metric)
    requires geo.bucket > 0 && |minutes| == MINUTE_SLOTS
  {
    exists m, a ::
      && geo.end / 60 <= m < 60 * h + 60 && keep(a)
      && Shows(geo, a.host, 3600 * h, q) && ValueAt(minutes, m, a, FieldOf(q)) != 0
  }

  /** Something is cut off at the end exactly when those minutes hold something. */
  lemma EndCutsIff(geo: Geometry, store: map<int, seq<Row>>, nowHour: int, keep: Agg -> bool, was: int -> Table,
                   q: Metric)
    requires geo.Valid() && FlushedFrom(geo, store, nowHour, keep, was) && WholeWindow(geo, q)
    ensures CutOff(geo, store, nowHour, keep, was, q) >= 0
    ensures CutOff(geo, store, nowHour, keep, was, q) > 0 <==> EndCuts(geo, store, nowHour, keep, was, q)
  {
    var h := geo.end / 3600;
    ServedInStore(geo, store, nowHour, keep, h);
    if Served(geo, store, nowHour, keep, h) { LastHourCuts(geo, was(h).minutes, h, keep, q); }
  }

  lemma LastHourCuts(geo: Geometry, minutes: seq<MinuteSlot>, h: int, keep: Agg -> bool, q: Metric)
    requires geo.Valid() && |minutes| == MINUTE_SLOTS && NonNegative(minutes, h) && WholeWindow(geo, q)
    requires geo.start <= 3600 * h < geo.end && h == geo.end / 3600
    ensures DisplacedSum(geo, minutes, h, keep, q) >= 0
    ensures DisplacedSum(geo, minutes, h, keep, q) > 0 <==> HoldsPastEnd(geo, minutes, h, keep, q)
  {
    StartsInside(geo, h);
    DisplacesIff(geo, minutes, h, keep, q);
    forall m, a | 60 * h <= m < 60 * h + 60
      ensures Displaced(geo, minutes, h, keep, q, m, a)
        <==> geo.end / 60 <= m && keep(a) && Shows(geo, a.host, 3600 * h, q) && ValueAt(minutes, m, a, FieldOf(q)) != 0
    {
      OnlyTheEndCuts(geo, minutes, h, keep, q, m, a);
    }
    if HoldsPastEnd(geo, minutes, h, keep, q) {
      var m, a :| geo.end / 60 <= m < 60 * h + 60 && keep(a)
        && Shows(geo, a.host, 3600 * h, q) && ValueAt(minutes, m, a, FieldOf(q)) != 0;
      assert Displaced(geo, minutes, h, keep, q, m, a);
      assert !Stays(geo, minutes, h, keep, q, m);
    }
  }

  /** An hour's counts of a field all fall in the bucket the hour starts in. */
  ghost predicate KeepsBucket(geo: Geometry, minutes: seq<MinuteSlot>, h: int, keep: Agg -> bool, f: int)
    requires geo.bucket > 0 && |minutes| == MINUTE_SLOTS && 0 <= f < FIELDS
  {
    forall m, a | 60 * h <= m < 60 * h + 60 && keep(a) && ValueAt(minutes, m, a, f) != 0 ::
      Visits(geo, m) && geo.Index(60 * m) == geo.Index(3600 * h)
  }

  lemma KeepsBucketIff(geo: Geometry, minutes: seq<MinuteSlot>, h: int, keep: Agg -> bool, f: int)
    requires geo.bucket > 0 && |minutes| == MINUTE_SLOTS && InSeries(f) && geo.Index(3600 * h) >= 0
    ensures KeepsBucket(geo, minutes, h, keep, f)
      <==> forall i :: NothingDisplaced(geo, minutes, h, keep, SeriesUpTo(i, f))
  {
    if !KeepsBucket(geo, minutes, h, keep, f) {
      var m, a :| 60 * h <= m < 60 * h + 60 && keep(a) && ValueAt(minutes, m, a, f) != 0
        && !(Visits(geo, m) && geo.Index(60 * m) == geo.Index(3600 * h));
      var i := geo.Index(3600 * h);
      if geo.Index(60 * m) >= 0 { LaterBucket(geo, 3600 * h, 60 * m); }
      assert Displaced(geo, minutes, h, keep, SeriesUpTo(i, f), m, a);
      assert !Stays(geo, minutes, h, keep, SeriesUpTo(i, f), m);
    }
  }

  ghost predicate SeriesExact(geo: Geometry, store: map<int, seq<Row>>, t: Table, nowHour: int, keep: Agg -> bool,
                              was: int -> Table, f: int)
    requires geo.bucket > 0 && t.Shaped() && FlushedFrom(geo, store, nowHour, keep, was)
  {
    forall i :: StoreWindowAdds(geo, store, t.minutes, t.hours, nowHour, keep, Series(i, f))
             == Recorded(geo, store, nowHour, keep, was, t, Series(i, f))
  }

  /** The series is reported exactly as recorded, bucket for bucket, iff up to each bucket as much was
      moved in from later ones as memory lost of the first hour. */
  lemma SeriesExactIff(geo: Geometry, store: map<int, seq<Row>>, t: Table, nowHour: int, keep: Agg -> bool,
                       was: int -> Table, f: int)
    requires geo.Valid() && t.Shaped() && FlushedFrom(geo, store, nowHour, keep, was)
    ensures SeriesExact(geo, store, t, nowHour, keep, was, f) <==>
      forall i :: Lost(geo, store, nowHour, keep, was, t, SeriesUpTo(i, f), FirstHour(geo))
               == Moved(geo, store, nowHour, keep, was, SeriesUpTo(i, f))
  {
    SeriesByPrefix(geo, store, t, nowHour, keep, was, f);
    forall i ensures PrefixExact(geo, store, t, nowHour, keep, was, i, f) <==>
      Lost(geo, store, nowHour, keep, was, t, SeriesUpTo(i, f), FirstHour(geo))
      == Moved(geo, store, nowHour, keep, was, SeriesUpTo(i, f))
    {
      StoreExactIff(geo, store, t, nowHour, keep, was, SeriesUpTo(i, f));
    }
  }

  /** Where nothing is lost at the start that is: every stored hour's counts fall in the bucket the hour
      starts in. */
  lemma SeriesKeptIff(geo: Geometry, store: map<int, seq<Row>>, t: Table, nowHour: int, keep: Agg -> bool,
                      was: int -> Table, f: int)
    requires geo.Valid() && t.Shaped() && FlushedFrom(geo, store, nowHour, keep, was) && InSeries(f)
    requires forall i :: Lost(geo, store, nowHour, keep, was, t, SeriesUpTo(i, f), FirstHour(geo)) == 0
    ensures SeriesExact(geo, store, t, nowHour, keep, was, f) <==>
      forall h | Served(geo, store, nowHour, keep, h) ::
        InStore(geo, store, nowHour, keep, h) && KeepsBucket(geo, was(h).minutes, h, keep, f)
  {
    SeriesExactIff(geo, store, t, nowHour, keep, was, f);
    forall h ensures Served(geo, store, nowHour, keep, h) ==> InStore(geo, store, nowHour, keep, h) {
      ServedInStore(geo, store, nowHour, keep, h);
    }
    forall i ensures Moved(geo, store, nowHour, keep, was, SeriesUpTo(i, f)) == 0 <==>
      forall h | Served(geo, store, nowHour, keep, h) ::
        NothingDisplaced(geo, was(h).minutes, h, keep, SeriesUpTo(i, f))
    {
      NothingMoves(geo, store, nowHour, keep, was, SeriesUpTo(i, f));
    }
    forall h | Served(geo, store, nowHour, keep, h)
      ensures KeepsBucket(geo, was(h).minutes, h, keep, f)
        <==> forall i :: NothingDisplaced(geo, was(h).minutes, h, keep, SeriesUpTo(i, f))
    {
      StartsInside(geo, h);
      KeepsBucketIff(geo, was(h).minutes, h, keep, f);
    }
  }

  lemma NothingMoves(geo: Geometry, store: map<int, seq<Row>>, nowHour: int, keep: Agg -> bool, was: int -> Table,
                     q: Metric)
    requires geo.Valid() && FlushedFrom(geo, store, nowHour, keep, was)
    requires forall h | Served(geo, store, nowHour, keep, h) :: InStore(geo, store, nowHour, keep, h)
    ensures Moved(geo, store, nowHour, keep, was, q) == 0 <==>
      forall h | Served(geo, store, nowHour, keep, h) :: NothingDisplaced(geo, was(h).minutes, h, keep, q)
  {
    var lo, hi := FirstHour(geo), HoursTo(geo);
    var moved := (h: int) => MovedIn(geo, store, nowHour, keep, was, q, h);
    forall h ensures moved(h) >= 0
      && (moved(h) == 0
          <==> (Served(geo, store, nowHour, keep, h) ==> NothingDisplaced(geo, was(h).minutes, h, keep, q)))
    {
      if Served(geo, store, nowHour, keep, h) { DisplacesIff(geo, was(h).minutes, h, keep, q); }
    }
    RangeLeq(lo, hi, h => 0, moved);
    RangeZero(lo, hi, h => 0);
    RangeSame(lo, hi, moved, h => MovedIn(geo, store, nowHour, keep, was, q, h));
    HourBounds(geo);
  }

  ghost predicate PrefixExact(geo: Geometry, store: map<int, seq<Row>>, t: Table, nowHour: int, keep: Agg -> bool,
                              was: int -> Table, i: int, f: int)
    requires geo.bucket > 0 && t.Shaped() && FlushedFrom(geo, store, nowHour, keep, was)
  {
    StoreWindowAdds(geo, store, t.minutes, t.hours, nowHour, keep, SeriesUpTo(i, f))
      == Recorded(geo, store, nowHour, keep, was, t, SeriesUpTo(i, f))
  }

  lemma SeriesByPrefix(geo: Geometry, store: map<int, seq<Row>>, t: Table, nowHour: int, keep: Agg -> bool,
                       was: int -> Table, f: int)
    requires geo.Valid() && t.Shaped() && FlushedFrom(geo, store, nowHour, keep, was)
    ensures SeriesExact(geo, store, t, nowHour, keep, was, f)
       <==> (forall i :: PrefixExact(geo, store, t, nowHour, keep, was, i, f))
  {
    var bucket := (i: int) => StoreWindowAdds(geo, store, t.minutes, t.hours, nowHour, keep, Series(i, f))
      - Recorded(geo, store, nowHour, keep, was, t, Series(i, f));
    var prefix := (i: int) => StoreWindowAdds(geo, store, t.minutes, t.hours, nowHour, keep, SeriesUpTo(i, f))
      - Recorded(geo, store, nowHour, keep, was, t, SeriesUpTo(i, f));
    forall i ensures prefix(i) == prefix(i - 1) + bucket(i) && (i < 0 ==> prefix(i) == 0) {
      WindowDiffers(geo, store, t, nowHour, keep, was, i, f);
      if i < 0 { NoWindowPrefix(geo, store, t, nowHour, keep, was, i, f); }
    }
    AllPrefixes(bucket, prefix);
    if forall i :: bucket(i) == 0 {
      forall i ensures StoreWindowAdds(geo, store, t.minutes, t.hours, nowHour, keep, Series(i, f))
        == Recorded(geo, store, nowHour, keep, was, t, Series(i, f))
      {
        assert bucket(i) == 0;
      }
    }
    forall i ensures PrefixExact(geo, store, t, nowHour, keep, was, i, f) <==> prefix(i) == 0 {
    }
  }

  lemma AllPrefixes(bucket: int -> int, prefix: int -> int)
    requires forall i :: prefix(i) == prefix(i - 1) + bucket(i) && (i < 0 ==> prefix(i) == 0)
    ensures (forall i :: bucket(i) == 0) <==> forall i :: prefix(i) == 0
  {
    if forall i :: bucket(i) == 0 {
      forall i ensures prefix(i) == 0 { if i >= 0 { PrefixZero(bucket, prefix, i); } }
    }
    if forall i :: prefix(i) == 0 {
      forall i ensures bucket(i) == 0 { assert prefix(i) == prefix(i - 1) + bucket(i); }
    }
  }

  lemma {:induction false} PrefixZero(bucket: int -> int, prefix: int -> int, i: nat)
    requires forall j :: prefix(j) == prefix(j - 1) + bucket(j) && (j < 0 ==> prefix(j) == 0)
    requires forall j :: bucket(j) == 0
    ensures prefix(i) == 0
  {
    assert prefix(i) == prefix(i - 1) + bucket(i);
    if i > 0 { PrefixZero(bucket, prefix, i - 1); }
  }

  lemma WindowDiffers(geo: Geometry, store: map<int, seq<Row>>, t: Table, nowHour: int, keep: Agg -> bool,
                      was: int -> Table, i: int, f: int)
    requires geo.Valid() && t.Shaped() && FlushedFrom(geo, store, nowHour, keep, was)
    ensures StoreWindowAdds(geo, store, t.minutes, t.hours, nowHour, keep, SeriesUpTo(i, f))
      == StoreWindowAdds(geo, store, t.minutes, t.hours, nowHour, keep, SeriesUpTo(i - 1, f))
       + StoreWindowAdds(geo, store, t.minutes, t.hours, nowHour, keep, Series(i, f))
    ensures Recorded(geo, store, nowHour, keep, was, t, SeriesUpTo(i, f))
      == Recorded(geo, store, nowHour, keep, was, t, SeriesUpTo(i - 1, f))
        + Recorded(geo, store, nowHour, keep, was, t, Series(i, f))
  {
    var lo, hi := FirstHour(geo), HoursTo(geo);
    StoreReports(geo, store, t, nowHour, keep, was, SeriesUpTo(i, f));
    StoreReports(geo, store, t, nowHour, keep, was, SeriesUpTo(i - 1, f));
    StoreReports(geo, store, t, nowHour, keep, was, Series(i, f));
    forall h
      ensures HourReported(geo, store, nowHour, keep, was, t, SeriesUpTo(i, f), h)
        == HourReported(geo, store, nowHour, keep, was, t, SeriesUpTo(i - 1, f), h)
          + HourReported(geo, store, nowHour, keep, was, t, Series(i, f), h)
      ensures HourRecorded(geo, store, nowHour, keep, was, t, SeriesUpTo(i, f), h)
        == HourRecorded(geo, store, nowHour, keep, was, t, SeriesUpTo(i - 1, f), h)
          + HourRecorded(geo, store, nowHour, keep, was, t, Series(i, f), h)
    {
      HourlyDiffers(geo, store, t, nowHour, keep, was, i, f, h);
    }
    RangeAdd(lo, hi, h => HourReported(geo, store, nowHour, keep, was, t, SeriesUpTo(i - 1, f), h),
             h => HourReported(geo, store, nowHour, keep, was, t, Series(i, f), h),
             h => HourReported(geo, store, nowHour, keep, was, t, SeriesUpTo(i, f), h));
    RangeAdd(lo, hi, h => HourRecorded(geo, store, nowHour, keep, was, t, SeriesUpTo(i - 1, f), h),
             h => HourRecorded(geo, store, nowHour, keep, was, t, Series(i, f), h),
             h => HourRecorded(geo, store, nowHour, keep, was, t, SeriesUpTo(i, f), h));
  }

  lemma HourlyDiffers(geo: Geometry, store: map<int, seq<Row>>, t: Table, nowHour: int, keep: Agg -> bool,
                      was: int -> Table, i: int, f: int, h: int)
    requires geo.Valid() && t.Shaped() && FlushedFrom(geo, store, nowHour, keep, was)
    ensures HourReported(geo, store, nowHour, keep, was, t, SeriesUpTo(i, f), h)
      == HourReported(geo, store, nowHour, keep, was, t, SeriesUpTo(i - 1, f), h)
        + HourReported(geo, store, nowHour, keep, was, t, Series(i, f), h)
    ensures HourRecorded(geo, store, nowHour, keep, was, t, SeriesUpTo(i, f), h)
      == HourRecorded(geo, store, nowHour, keep, was, t, SeriesUpTo(i - 1, f), h)
        + HourRecorded(geo, store, nowHour, keep, was, t, Series(i, f), h)
  {
    ServedInStore(geo, store, nowHour, keep, h);
    HourDiffers(geo, OwnMinute, t.minutes, t.hours, h, keep, i, f);
    if InStore(geo, store, nowHour, keep, h) {
      HourDiffers(geo, OwnMinute, was(h).minutes, was(h).hours, h, keep, i, f);
      HourDiffers(geo, HourStart, was(h).minutes, was(h).hours, h, keep, i, f);
    }
  }

  lemma NoWindowPrefix(geo: Geometry, store: map<int, seq<Row>>, t: Table, nowHour: int, keep: Agg -> bool,
                       was: int -> Table, i: int, f: int)
    requires geo.Valid() && t.Shaped() && FlushedFrom(geo, store, nowHour, keep, was) && i < 0
    ensures StoreWindowAdds(geo, store, t.minutes, t.hours, nowHour, keep, SeriesUpTo(i, f)) == 0
    ensures Recorded(geo, store, nowHour, keep, was, t, SeriesUpTo(i, f)) == 0
  {
    var lo, hi := FirstHour(geo), HoursTo(geo);
    StoreReports(geo, store, t, nowHour, keep, was, SeriesUpTo(i, f));
    forall h
      ensures HourReported(geo, store, nowHour, keep, was, t, SeriesUpTo(i, f), h) == 0
      ensures HourRecorded(geo, store, nowHour, keep, was, t, SeriesUpTo(i, f), h) == 0
    {
      ServedInStore(geo, store, nowHour, keep, h);
      NoPrefix(geo, OwnMinute, t.minutes, t.hours, h, keep, i, f);
      if InStore(geo, store, nowHour, keep, h) {
        NoPrefix(geo, OwnMinute, was(h).minutes, was(h).hours, h, keep, i, f);
        NoPrefix(geo, HourStart, was(h).minutes, was(h).hours, h, keep, i, f);
      }
    }
    RangeZero(lo, hi, h => HourReported(geo, store, nowHour, keep, was, t, SeriesUpTo(i, f), h));
    RangeZero(lo, hi, h => HourRecorded(geo, store, nowHour, keep, was, t, SeriesUpTo(i, f), h));
  }

  // ----- against the memory path -----

  /** While the slots still hold what was flushed of them, what was recorded is the memory window. */
  lemma RecordedIsMemory(geo: Geometry, store: map<int, seq<Row>>, t: Table, nowHour: int, keep: Agg -> bool,
                         was: int -> Table, q: Metric)
    requires geo.Valid() && t.Shaped() && FlushedFrom(geo, store, nowHour, keep, was) && forall h :: was(h) == t
    ensures Recorded(geo, store, nowHour, keep, was, t, q) == MemoryAdds(geo, t.minutes, t.hours, keep, {}, q)
  {
    MemoryByHour(geo, t, keep, {}, q);
    RangeSame(FirstHour(geo), HoursTo(geo), h => HourRecorded(geo, store, nowHour, keep, was, t, q, h),
              h => HourOrSkipped(geo, t, keep, {}, q, h));
  }

  /** The store path and the memory path give totals, per-host counters, the histogram and the
      dimensions the same iff the window's end does not cut counts of a flushed hour off. */
  lemma StoreIsMemoryIff(geo: Geometry, store: map<int, seq<Row>>, t: Table, nowHour: int, keep: Agg -> bool, q: Metric)
    requires geo.Valid() && t.Shaped() && FlushedFrom(geo, store, nowHour, keep, _ => t)
      && (q.SigCount? ==> '|' !in q.sig)
    requires WholeWindow(geo, q)
    ensures StoreWindowAdds(geo, store, t.minutes, t.hours, nowHour, keep, q)
      == MemoryAdds(geo, t.minutes, t.hours, keep, {}, q)
      <==> !EndCuts(geo, store, nowHour, keep, _ => t, q)
  {
    BothEndsIff(geo, store, t, nowHour, keep, _ => t, q);
    EndCutsIff(geo, store, nowHour, keep, _ => t, q);
    RecordedIsMemory(geo, store, t, nowHour, keep, _ => t, q);
  }

  /** And they give the series the same iff every flushed hour's counts all fall in the bucket the
      hour starts in. */
  lemma StoreSeriesIsMemoryIff(geo: Geometry, store: map<int, seq<Row>>, t: Table, nowHour: int, keep: Agg -> bool,
                               f: int)
    requires geo.Valid() && t.Shaped() && FlushedFrom(geo, store, nowHour, keep, _ => t) && InSeries(f)
    ensures (forall i :: StoreWindowAdds(geo, store, t.minutes, t.hours, nowHour, keep, Series(i, f))
                      == MemoryAdds(geo, t.minutes, t.hours, keep, {}, Series(i, f)))
       <==> (forall h | Served(geo, store, nowHour, keep, h) :: KeepsBucket(geo, t.minutes, h, keep, f))
  {
    SeriesKeptIff(geo, store, t, nowHour, keep, _ => t, f);
    forall h ensures Served(geo, store, nowHour, keep, h) ==> InStore(geo, store, nowHour, keep, h) {
      ServedInStore(geo, store, nowHour, keep, h);
    }
    forall i
      ensures Recorded(geo, store, nowHour, keep, _ => t, t, Series(i, f))
        == MemoryAdds(geo, t.minutes, t.hours, keep, {}, Series(i, f))
    {
      RecordedIsMemory(geo, store, t, nowHour, keep, _ => t, Series(i, f));
    }
  }

  /** What the collector writes for an hour within the row budget is what the theorems call flushed,
      as long as no label contains the separator and the partial rows have keys of their own. */
  lemma WrittenIsFlushed(minutes: seq<MinuteSlot>, hours: seq<HourSlot>, h: int, partial: seq<Row>, full: seq<Row>)
    requires |minutes| == MINUTE_SLOTS && |hours| == HOUR_SLOTS
    requires IsFull(minutes, hours, h, partial, full) && |full| <= ROW_BUDGET
    requires Unique(partial) && forall r | r in partial :: Partial(hours, h, r)
    requires forall a, l | a in HourHosts(hours, h) && l in HourHosts(hours, h)[a].sig :: '|' !in l
    ensures Budgeted(full) == full && Flushed(minutes, hours, h, full)
  {
    forall i, j | 0 <= i < j < |full|
      ensures full[i].hour != full[j].hour || !IsDim(full[j], full[i].agg, full[i].kind, full[i].key)
    {
      var r, s := full[i], full[j];
      assert r in full && s in full;
      if r in partial && s in partial {
        OwnKeys(partial, r, s);
      } else if r in partial {
        RenderedNotPartial(minutes, hours, h, s, r);
      } else if s in partial {
        RenderedNotPartial(minutes, hours, h, r, s);
      } else {
        RenderedByKey(minutes, hours, h, r, s);
      }
    }
  }

  lemma RenderedByKey(minutes: seq<MinuteSlot>, hours: seq<HourSlot>, h: int, r: Row, s: Row)
    requires |minutes| == MINUTE_SLOTS && |hours| == HOUR_SLOTS && Rendered(minutes, hours, h, r)
      && Rendered(minutes, hours, h, s)
    ensures IsDim(s, r.agg, r.kind, r.key) ==> r == s
  {
  }

  lemma RenderedNotPartial(minutes: seq<MinuteSlot>, hours: seq<HourSlot>, h: int, r: Row, s: Row)
    requires |minutes| == MINUTE_SLOTS && |hours| == HOUR_SLOTS && Rendered(minutes, hours, h, r)
      && Partial(hours, h, s)
    requires forall a, l | a in HourHosts(hours, h) && l in HourHosts(hours, h)[a].sig :: '|' !in l
    ensures !IsDim(s, r.agg, r.kind, r.key) && !IsDim(r, s.agg, s.kind, s.key)
  {
  }

  lemma OwnKeys(rows: seq<Row>, r: Row, s: Row)
    requires Unique(rows) && r in rows && s in rows && r != s
    ensures r.hour != s.hour || !IsDim(s, r.agg, r.kind, r.key)
  {
    var i :| 0 <= i < |rows| && rows[i] == r;
    var j :| 0 <= j < |rows| && rows[j] == s;
  }
}
