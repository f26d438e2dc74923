/** A closed hour's rollup rows and its memory slots say the same to a report. */
module Agreement {
  import opened Ingest
  import opened Replay
  import opened Report
  import opened RoundTrip
  import opened Sums
  import opened Traffic

  /** A report visits the minutes before its end. */
  predicate Visits(geo: Geometry, m: int) { m < geo.end / 60 }

  /** The hour lies inside one bucket of the window. */
  ghost predicate InOneBucket(geo: Geometry, g: int)
    requires geo.bucket > 0
  {
    geo.Index(3600 * g) >= 0
    && forall m | 60 * g <= m < 60 * g + 60 :: Visits(geo, m) && geo.Index(60 * m) == geo.Index(3600 * g)
  }

  /** Hour-aligned windows with whole hours to a bucket have every hour of theirs in one bucket. */
  lemma AlignedHours(geo: Geometry, g: int)
    requires geo.Valid() && geo.start % 3600 == 0 && geo.bucket % 3600 == 0 && geo.start <= 3600 * g < geo.end
    ensures InOneBucket(geo, g)
  {
    var hours, per, n := g - geo.start / 3600, geo.bucket / 3600, geo.Buckets();
    assert geo.bucket == 3600 * per && 3600 * g - geo.start == 3600 * hours && geo.end - geo.start == n * geo.bucket;
    Scaled(n, per);
    var b := HourInBucket(hours, per, n);
    Scaled(b, per);
    forall m | 60 * g <= m < 60 * g + 60 ensures Visits(geo, m) && geo.Index(60 * m) == b {
      Quotient(60 * m - geo.start, b, geo.bucket);
    }
    assert geo.Index(60 * (60 * g)) == b;
  }

  lemma Scaled(b: int, per: int)
    ensures b * (3600 * per) == 3600 * (b * per)
  {
  }

  lemma HourInBucket(hours: int, per: int, n: int) returns (b: int)
    requires per > 0 && 0 <= hours < n * per
    ensures 0 <= b && b * per <= hours < b * per + per <= n * per
  {
    b := hours / per;
    assert hours == b * per + hours % per;
    Below(hours, n, per);
    Grows(b + 1, n, per);
  }

  lemma Quotient(x: int, b: int, d: int)
    requires d > 0 && b * d <= x < b * d + d
    ensures x / d == b
  {
    var q := x / d;
    assert x == q * d + x % d;
    if q < b { Grows(q + 1, b, d); }
    if q > b { Grows(b + 1, q, d); }
  }

  predicate IsMinuteMetric(q: Metric) { q.Series? || q.SeriesUpTo? || q.HostTotal? || q.LatencyCount? }

  /** The time an hour's minutes are counted at: each at its own, when it comes from the slots, and
      all at the hour's start when they come from its rows, also those past the window's end. */
  datatype Filing = OwnMinute | HourStart

  function FiledAt(filing: Filing, m: int): int { if filing.HourStart? then 60 * (m / 60) else m }

  predicate Filed(geo: Geometry, filing: Filing, m: int) { filing.HourStart? || Visits(geo, m) }

  function RowOf(geo: Geometry, r: Row, agg: Agg, q: Metric): int
    requires geo.bucket > 0
  {
    if r.agg == agg then RowAdds(geo, r, q) else 0
  }

  function MinuteOf(geo: Geometry, filing: Filing, minutes: seq<MinuteSlot>, m: int, agg: Agg, q: Metric): int
    requires geo.bucket > 0 && |minutes| == MINUTE_SLOTS
  {
    if Filed(geo, filing, m)
      then MinuteAdds(geo, agg.host, 60 * FiledAt(filing, m), CountsOf(HostsAt(minutes, m), agg), q) else 0
  }

  function MinuteSum(geo: Geometry, filing: Filing, minutes: seq<MinuteSlot>, lo: int, hi: int, agg: Agg,
                     q: Metric): int
    requires geo.bucket > 0 && |minutes| == MINUTE_SLOTS
  {
    Range(lo, hi, m => MinuteOf(geo, filing, minutes, m, agg, q))
  }

  /** What the rows say of one host and source... */
  function AggRows(geo: Geometry, rows: seq<Row>, agg: Agg, q: Metric): int
    requires geo.bucket > 0
  {
    Each(rows, (r: Row) => RowOf(geo, r, agg, q))
  }

  /** ...and what the slots say. */
  function AggSlots(geo: Geometry, filing: Filing, minutes: seq<MinuteSlot>, hours: seq<HourSlot>, g: int, agg: Agg,
                    q: Metric): int
    requires geo.bucket > 0 && |minutes| == MINUTE_SLOTS && |hours| == HOUR_SLOTS
  {
    MinuteSum(geo, filing, minutes, 60 * g, 60 * g + 60, agg, q) + HourAdds(Held(hours, g, agg), q)
  }

  lemma RowShows(geo: Geometry, r: Row, q: Metric)
    requires geo.bucket > 0 && geo.Index(3600 * r.hour) >= 0 && IsMinuteMetric(q)
    ensures RowAdds(geo, r, q) == if Shows(geo, r.agg.host, 3600 * r.hour, q) then Amount(r, FieldOf(q)) else 0
  {
  }

  lemma AtHourStart(geo: Geometry, minutes: seq<MinuteSlot>, g: int, m: int, agg: Agg, q: Metric)
    requires geo.bucket > 0 && |minutes| == MINUTE_SLOTS && IsMinuteMetric(q) && 60 * g <= m < 60 * g + 60
    ensures MinuteOf(geo, HourStart, minutes, m, agg, q)
      == if Shows(geo, agg.host, 3600 * g, q) then ValueAt(minutes, m, agg, FieldOf(q)) else 0
  {
    HourOfMinute(g, m);
  }

  lemma HourOfMinute(g: int, m: int)
    requires 60 * g <= m < 60 * g + 60
    ensures m / 60 == g && FiledAt(HourStart, m) == 60 * g
  {
  }

  lemma MinuteMetricAgrees(geo: Geometry, minutes: seq<MinuteSlot>, hours: seq<HourSlot>, g: int, rows: seq<Row>,
                           agg: Agg, q: Metric)
    requires geo.bucket > 0 && |minutes| == MINUTE_SLOTS && |hours| == HOUR_SLOTS
    requires Flushed(minutes, hours, g, rows) && geo.Index(3600 * g) >= 0 && IsMinuteMetric(q)
    requires forall f | 0 <= f < FIELDS :: TotalOf(minutes, g, agg, f) >= 0
    ensures AggRows(geo, rows, agg, q) == MinuteSum(geo, HourStart, minutes, 60 * g, 60 * g + 60, agg, q)
  {
    var f, shows := FieldOf(q), Shows(geo, agg.host, 3600 * g, q);
    forall r | r in rows ensures RowOf(geo, r, agg, q) == if shows then AmountIn(r, g, agg, f) else 0 {
      RowShows(geo, r, q);
    }
    forall m | 60 * g <= m < 60 * g + 60
      ensures MinuteOf(geo, HourStart, minutes, m, agg, q) == if shows then ValueAt(minutes, m, agg, f) else 0
    {
      AtHourStart(geo, minutes, g, m, agg, q);
    }
    if shows {
      RowsSayTotals(minutes, hours, g, rows, agg, f);
      EachSame(rows, (r: Row) => RowOf(geo, r, agg, q), (r: Row) => AmountIn(r, g, agg, f));
      RangeSame(60 * g, 60 * g + 60, m => MinuteOf(geo, HourStart, minutes, m, agg, q),
                m => ValueAt(minutes, m, agg, f));
    } else {
      EachZero(rows, (r: Row) => RowOf(geo, r, agg, q));
      RangeZero(60 * g, 60 * g + 60, m => MinuteOf(geo, HourStart, minutes, m, agg, q));
    }
  }

  /** The row that carries a dimension metric. */
  function DimCarrier(hours: seq<HourSlot>, g: int, agg: Agg, q: Metric): Row
    requires |hours| == HOUR_SLOTS && !IsMinuteMetric(q)
  {
    var hh := Held(hours, g, agg);
    match q
    case CountryCount(code, _) => var v := GetDim(hh.country, code); Row(g, agg, Country, code, v.n, v.d, v.t, 0)
    case DenyCount(k) => Row(g, agg, Deny, k, Get(hh.deny, k), 0, 0, 0)
    case SigCount(l) => Row(g, agg, Signature, l, Get(hh.sig, l), 0, 0, 0)
  }

  lemma OnlyDimCarrier(geo: Geometry, minutes: seq<MinuteSlot>, hours: seq<HourSlot>, g: int, r: Row, agg: Agg,
                       q: Metric)
    requires geo.bucket > 0 && |minutes| == MINUTE_SLOTS && |hours| == HOUR_SLOTS && !IsMinuteMetric(q)
    requires Rendered(minutes, hours, g, r) || Partial(hours, g, r)
    requires RowOf(geo, r, agg, q) != 0
    ensures r == DimCarrier(hours, g, agg, q)
  {
  }

  lemma DimCarrierAdds(geo: Geometry, hours: seq<HourSlot>, g: int, agg: Agg, q: Metric)
    requires geo.bucket > 0 && |hours| == HOUR_SLOTS && !IsMinuteMetric(q) && (q.SigCount? ==> '|' !in q.sig)
    ensures RowOf(geo, DimCarrier(hours, g, agg, q), agg, q) == HourAdds(Held(hours, g, agg), q)
  {
  }

  lemma DimCarrierRendered(minutes: seq<MinuteSlot>, hours: seq<HourSlot>, g: int, agg: Agg, q: Metric)
    requires |minutes| == MINUTE_SLOTS && |hours| == HOUR_SLOTS && !IsMinuteMetric(q)
    requires HourAdds(Held(hours, g, agg), q) != 0
    ensures Rendered(minutes, hours, g, DimCarrier(hours, g, agg, q))
  {
  }

  lemma DimMetricAgrees(geo: Geometry, minutes: seq<MinuteSlot>, hours: seq<HourSlot>, g: int, rows: seq<Row>, agg: Agg,
                        q: Metric)
    requires geo.bucket > 0 && |minutes| == MINUTE_SLOTS && |hours| == HOUR_SLOTS
    requires Flushed(minutes, hours, g, rows) && !IsMinuteMetric(q) && (q.SigCount? ==> '|' !in q.sig)
    ensures AggRows(geo, rows, agg, q) == HourAdds(Held(hours, g, agg), q)
  {
    var one := DimCarrier(hours, g, agg, q);
    forall r | r in rows && r != one ensures RowOf(geo, r, agg, q) == 0 {
      if RowOf(geo, r, agg, q) != 0 { OnlyDimCarrier(geo, minutes, hours, g, r, agg, q); }
    }
    EachOnly(rows, (r: Row) => RowOf(geo, r, agg, q), one);
    DimCarrierAdds(geo, hours, g, agg, q);
    if HourAdds(Held(hours, g, agg), q) != 0 { DimCarrierRendered(minutes, hours, g, agg, q); }
  }

  /** A signature's rows count it as the slots do exactly when its label is free of the separator or
      was never hit: a label that contains it is read back as another label's country. */
  lemma SignatureAgreesIff(geo: Geometry, minutes: seq<MinuteSlot>, hours: seq<HourSlot>, g: int, rows: seq<Row>,
                           agg: Agg, l: string)
    requires geo.bucket > 0 && |minutes| == MINUTE_SLOTS && |hours| == HOUR_SLOTS && Flushed(minutes, hours, g, rows)
    ensures AggRows(geo, rows, agg, SigCount(l)) == Get(Held(hours, g, agg).sig, l)
      <==> '|' !in l || Get(Held(hours, g, agg).sig, l) == 0
  {
    if '|' in l {
      EachZero(rows, (r: Row) => RowOf(geo, r, agg, SigCount(l)));
    } else {
      DimMetricAgrees(geo, minutes, hours, g, rows, agg, SigCount(l));
    }
  }

  /** For each host and source the flushed rows of a closed hour add to every metric what its slots
      add, each minute counted at the hour's start. */
  lemma AggAgrees(geo: Geometry, minutes: seq<MinuteSlot>, hours: seq<HourSlot>, g: int, rows: seq<Row>, agg: Agg,
                  q: Metric)
    requires geo.bucket > 0 && |minutes| == MINUTE_SLOTS && |hours| == HOUR_SLOTS
    requires Flushed(minutes, hours, g, rows) && geo.Index(3600 * g) >= 0 && (q.SigCount? ==> '|' !in q.sig)
    requires forall f | 0 <= f < FIELDS :: TotalOf(minutes, g, agg, f) >= 0
    ensures AggRows(geo, rows, agg, q) == AggSlots(geo, HourStart, minutes, hours, g, agg, q)
  {
    if IsMinuteMetric(q) {
      MinuteMetricAgrees(geo, minutes, hours, g, rows, agg, q);
    } else {
      DimMetricAgrees(geo, minutes, hours, g, rows, agg, q);
      RangeZero(60 * g, 60 * g + 60, m => MinuteOf(geo, HourStart, minutes, m, agg, q));
    }
  }

  // ----- every host and source at once -----

  function Kept(keep: Agg -> bool, agg: Agg, v: int): int { if keep(agg) then v else 0 }

  function StoreHour(geo: Geometry, rows: seq<Row>, keep: Agg -> bool, q: Metric): int
    requires geo.bucket > 0
  {
    Each(rows, (r: Row) => Kept(keep, r.agg, RowAdds(geo, r, q)))
  }

  ghost function SlotAdds(geo: Geometry, hosts: map<Agg, Counts>, m: int, keep: Agg -> bool, q: Metric): int
    requires geo.bucket > 0
  {
    Over(hosts.Keys, (a: Agg) => Kept(keep, a, MinuteAdds(geo, a.host, 60 * m, CountsOf(hosts, a), q)))
  }

  function HeldIn(hosts: map<Agg, HostHour>, a: Agg): HostHour { if a in hosts then hosts[a] else NEW_HOUR }

  ghost function HourSlotAdds(hosts: map<Agg, HostHour>, keep: Agg -> bool, q: Metric): int {
    Over(hosts.Keys, (a: Agg) => Kept(keep, a, HourAdds(HeldIn(hosts, a), q)))
  }

  ghost function SlotAs(geo: Geometry, filing: Filing, minutes: seq<MinuteSlot>, m: int, keep: Agg -> bool,
                        q: Metric): int
    requires geo.bucket > 0 && |minutes| == MINUTE_SLOTS
  {
    if Filed(geo, filing, m) then SlotAdds(geo, HostsAt(minutes, m), FiledAt(filing, m), keep, q) else 0
  }

  ghost function SlotsAs(geo: Geometry, filing: Filing, minutes: seq<MinuteSlot>, lo: int, hi: int, keep: Agg -> bool,
                         q: Metric): int
    requires geo.bucket > 0 && |minutes| == MINUTE_SLOTS
  {
    Range(lo, hi, m => SlotAs(geo, filing, minutes, m, keep, q))
  }

  /** What an hour of the slots adds to a report. */
  ghost function HourSum(geo: Geometry, filing: Filing, minutes: seq<MinuteSlot>, hours: seq<HourSlot>, g: int,
                         keep: Agg -> bool, q: Metric): int
    requires geo.bucket > 0 && |minutes| == MINUTE_SLOTS && |hours| == HOUR_SLOTS
  {
    SlotsAs(geo, filing, minutes, 60 * g, 60 * g + 60, keep, q) + HourSlotAdds(HourHosts(hours, g), keep, q)
  }

  function AggsIn(minutes: seq<MinuteSlot>, lo: int, hi: int): (s: set<Agg>)
    requires |minutes| == MINUTE_SLOTS
    ensures forall m | lo <= m < hi :: HostsAt(minutes, m).Keys <= s
    decreases hi - lo
  {
    if lo >= hi then {} else AggsIn(minutes, lo, hi - 1) + HostsAt(minutes, hi - 1).Keys
  }

  function AggsOf(minutes: seq<MinuteSlot>, hours: seq<HourSlot>, g: int): set<Agg>
    requires |minutes| == MINUTE_SLOTS && |hours| == HOUR_SLOTS
  {
    AggsIn(minutes, 60 * g, 60 * g + 60) + HourHosts(hours, g).Keys
  }

  /** An hour's rows add to every metric of a report what the slots they were flushed from add when
      each minute is counted at the hour's start, for any window that hour starts in and whatever hosts
      and sources are asked for. */
  lemma RowsAgree(geo: Geometry, minutes: seq<MinuteSlot>, hours: seq<HourSlot>, g: int, rows: seq<Row>,
                  keep: Agg -> bool, q: Metric)
    requires geo.bucket > 0 && |minutes| == MINUTE_SLOTS && |hours| == HOUR_SLOTS
    requires Flushed(minutes, hours, g, rows) && geo.Index(3600 * g) >= 0 && (q.SigCount? ==> '|' !in q.sig)
    requires forall a, f | 0 <= f < FIELDS :: TotalOf(minutes, g, a, f) >= 0
    ensures StoreHour(geo, rows, keep, q) == HourSum(geo, HourStart, minutes, hours, g, keep, q)
  {
    var all := AggsOf(minutes, hours, g);
    forall r | r in rows ensures r.agg in all {
      if RenderedTotals(minutes, g, r) {
        var m :| 60 * g <= m < 60 * g + 60 && r.agg in HostsAt(minutes, m);
      }
    }
    RowsByAgg(geo, rows, keep, q, all);
    HourByAgg(geo, HourStart, minutes, hours, g, keep, q, all);
    forall a ensures AggRows(geo, rows, a, q) == AggSlots(geo, HourStart, minutes, hours, g, a, q) {
      AggAgrees(geo, minutes, hours, g, rows, a, q);
    }
    OverSame(all, a => Kept(keep, a, AggRows(geo, rows, a, q)),
             a => Kept(keep, a, AggSlots(geo, HourStart, minutes, hours, g, a, q)));
  }

  /** A closed hour inside one bucket: the store path and the memory path give every metric the same. */
  lemma HourAgrees(geo: Geometry, minutes: seq<MinuteSlot>, hours: seq<HourSlot>, g: int, rows: seq<Row>,
                   keep: Agg -> bool, q: Metric)
    requires geo.bucket > 0 && |minutes| == MINUTE_SLOTS && |hours| == HOUR_SLOTS
    requires Flushed(minutes, hours, g, rows) && InOneBucket(geo, g) && (q.SigCount? ==> '|' !in q.sig)
    requires forall a, f | 0 <= f < FIELDS :: TotalOf(minutes, g, a, f) >= 0
    ensures StoreHour(geo, rows, keep, q) == HourSum(geo, OwnMinute, minutes, hours, g, keep, q)
  {
    RowsAgree(geo, minutes, hours, g, rows, keep, q);
    FilingIsSame(geo, minutes, g, keep, q);
  }

  lemma FilingIsSame(geo: Geometry, minutes: seq<MinuteSlot>, g: int, keep: Agg -> bool, q: Metric)
    requires geo.bucket > 0 && |minutes| == MINUTE_SLOTS && InOneBucket(geo, g)
    ensures SlotsAs(geo, HourStart, minutes, 60 * g, 60 * g + 60, keep, q)
      == SlotsAs(geo, OwnMinute, minutes, 60 * g, 60 * g + 60, keep, q)
  {
    forall m | 60 * g <= m < 60 * g + 60
      ensures SlotAs(geo, HourStart, minutes, m, keep, q) == SlotAs(geo, OwnMinute, minutes, m, keep, q)
    {
      HourOfMinute(g, m);
      SameTime(geo, HostsAt(minutes, m), 60 * g, m, keep, q);
    }
    RangeSame(60 * g, 60 * g + 60, m => SlotAs(geo, HourStart, minutes, m, keep, q),
              m => SlotAs(geo, OwnMinute, minutes, m, keep, q));
  }

  lemma SameTime(geo: Geometry, hosts: map<Agg, Counts>, m: int, n: int, keep: Agg -> bool, q: Metric)
    requires geo.bucket > 0 && geo.Index(60 * m) == geo.Index(60 * n)
    ensures SlotAdds(geo, hosts, m, keep, q) == SlotAdds(geo, hosts, n, keep, q)
  {
    OverSame(hosts.Keys, (a: Agg) => Kept(keep, a, MinuteAdds(geo, a.host, 60 * m, CountsOf(hosts, a), q)),
             (a: Agg) => Kept(keep, a, MinuteAdds(geo, a.host, 60 * n, CountsOf(hosts, a), q)));
  }

  lemma {:induction false} RowsByAgg(geo: Geometry, rows: seq<Row>, keep: Agg -> bool, q: Metric, all: set<Agg>)
    requires geo.bucket > 0 && forall r | r in rows :: r.agg in all
    ensures StoreHour(geo, rows, keep, q) == Over(all, a => Kept(keep, a, AggRows(geo, rows, a, q)))
  {
    var whole := (a: Agg) => Kept(keep, a, AggRows(geo, rows, a, q));
    if rows == [] {
      OverZero(all, whole);
    } else {
      var front, last := rows[..|rows| - 1], rows[|rows| - 1];
      RowsByAgg(geo, front, keep, q, all);
      var added := (a: Agg) => Kept(keep, a, RowOf(geo, last, a, q));
      OverAdd(all, a => Kept(keep, a, AggRows(geo, front, a, q)), added, whole);
      OverTake(all, added, last.agg);
      OverZero(all - {last.agg}, added);
    }
    OverSame(all, whole, a => Kept(keep, a, AggRows(geo, rows, a, q)));
  }

  lemma SlotByAgg(geo: Geometry, filing: Filing, minutes: seq<MinuteSlot>, m: int, keep: Agg -> bool, q: Metric,
                  all: set<Agg>)
    requires geo.bucket > 0 && |minutes| == MINUTE_SLOTS && HostsAt(minutes, m).Keys <= all
    ensures SlotAs(geo, filing, minutes, m, keep, q)
      == Over(all, a => Kept(keep, a, MinuteOf(geo, filing, minutes, m, a, q)))
  {
    var hosts, at := HostsAt(minutes, m), FiledAt(filing, m);
    var each := (a: Agg) => Kept(keep, a, MinuteOf(geo, filing, minutes, m, a, q));
    if Filed(geo, filing, m) {
      OverSame(hosts.Keys, (a: Agg) => Kept(keep, a, MinuteAdds(geo, a.host, 60 * at, CountsOf(hosts, a), q)), each);
      OverSupport(hosts.Keys, all, each);
    } else {
      OverZero(all, each);
    }
    OverSame(all, each, a => Kept(keep, a, MinuteOf(geo, filing, minutes, m, a, q)));
  }

  lemma MinutesByAgg(geo: Geometry, filing: Filing, minutes: seq<MinuteSlot>, lo: int, hi: int, keep: Agg -> bool,
                     q: Metric, all: set<Agg>)
    requires geo.bucket > 0 && |minutes| == MINUTE_SLOTS && forall m | lo <= m < hi :: HostsAt(minutes, m).Keys <= all
    ensures SlotsAs(geo, filing, minutes, lo, hi, keep, q)
      == Over(all, a => Kept(keep, a, MinuteSum(geo, filing, minutes, lo, hi, a, q)))
  {
    var slot := (m: int) => SlotAs(geo, filing, minutes, m, keep, q);
    var term := (m: int, a: Agg) => Kept(keep, a, MinuteOf(geo, filing, minutes, m, a, q));
    forall m | lo <= m < hi ensures slot(m) == OverAt(all, term, m) {
      SlotTerms(geo, filing, minutes, m, keep, q, all, term);
    }
    RangeOver(lo, hi, all, slot, term);
    forall a ensures RangeAt(lo, hi, term, a) == Kept(keep, a, MinuteSum(geo, filing, minutes, lo, hi, a, q)) {
      SumTerms(geo, filing, minutes, lo, hi, keep, q, a, term);
    }
    OverSame(all, a => RangeAt(lo, hi, term, a), a => Kept(keep, a, MinuteSum(geo, filing, minutes, lo, hi, a, q)));
    RangeSame(lo, hi, slot, m => SlotAs(geo, filing, minutes, m, keep, q));
  }

  lemma SlotTerms(geo: Geometry, filing: Filing, minutes: seq<MinuteSlot>, m: int, keep: Agg -> bool, q: Metric,
                  all: set<Agg>,
                  term: (int, Agg) -> int)
    requires geo.bucket > 0 && |minutes| == MINUTE_SLOTS && HostsAt(minutes, m).Keys <= all
    requires forall a :: term(m, a) == Kept(keep, a, MinuteOf(geo, filing, minutes, m, a, q))
    ensures SlotAs(geo, filing, minutes, m, keep, q) == OverAt(all, term, m)
  {
    SlotByAgg(geo, filing, minutes, m, keep, q, all);
    OverAtSame(all, a => Kept(keep, a, MinuteOf(geo, filing, minutes, m, a, q)), term, m);
  }

  lemma SumTerms(geo: Geometry, filing: Filing, minutes: seq<MinuteSlot>, lo: int, hi: int, keep: Agg -> bool,
                 q: Metric, a: Agg,
                 term: (int, Agg) -> int)
    requires geo.bucket > 0 && |minutes| == MINUTE_SLOTS
    requires forall m :: term(m, a) == Kept(keep, a, MinuteOf(geo, filing, minutes, m, a, q))
    ensures RangeAt(lo, hi, term, a) == Kept(keep, a, MinuteSum(geo, filing, minutes, lo, hi, a, q))
  {
    RangeKept(lo, hi, keep, a, m => MinuteOf(geo, filing, minutes, m, a, q), m => term(m, a));
  }

  lemma RangeKept(lo: int, hi: int, keep: Agg -> bool, a: Agg, f: int -> int, kept: int -> int)
    requires forall m | lo <= m < hi :: kept(m) == Kept(keep, a, f(m))
    ensures Range(lo, hi, kept) == Kept(keep, a, Range(lo, hi, f))
  {
    if keep(a) { RangeSame(lo, hi, kept, f); } else { RangeZero(lo, hi, kept); }
  }

  lemma HoursByAgg(hours: seq<HourSlot>, g: int, keep: Agg -> bool, q: Metric, all: set<Agg>)
    requires |hours| == HOUR_SLOTS && HourHosts(hours, g).Keys <= all
    ensures HourSlotAdds(HourHosts(hours, g), keep, q) == Over(all, a => Kept(keep, a, HourAdds(Held(hours, g, a), q)))
  {
    var hosts := HourHosts(hours, g);
    var each := (a: Agg) => Kept(keep, a, HourAdds(Held(hours, g, a), q));
    OverSame(hosts.Keys, (a: Agg) => Kept(keep, a, HourAdds(HeldIn(hosts, a), q)), each);
    OverSupport(hosts.Keys, all, each);
    OverSame(all, each, a => Kept(keep, a, HourAdds(Held(hours, g, a), q)));
  }

  lemma HourByAgg(geo: Geometry, filing: Filing, minutes: seq<MinuteSlot>, hours: seq<HourSlot>, g: int,
                  keep: Agg -> bool, q: Metric, all: set<Agg>)
    requires geo.bucket > 0 && |minutes| == MINUTE_SLOTS && |hours| == HOUR_SLOTS && AggsOf(minutes, hours, g) <= all
    ensures HourSum(geo, filing, minutes, hours, g, keep, q)
      == Over(all, a => Kept(keep, a, AggSlots(geo, filing, minutes, hours, g, a, q)))
  {
    assert SlotsAs(geo, filing, minutes, 60 * g, 60 * g + 60, keep, q)
        == Over(all, a => Kept(keep, a, MinuteSum(geo, filing, minutes, 60 * g, 60 * g + 60, a, q))) by {
      MinutesByAgg(geo, filing, minutes, 60 * g, 60 * g + 60, keep, q, all);
    }
    assert HourSlotAdds(HourHosts(hours, g), keep, q)
      == Over(all, a => Kept(keep, a, HourAdds(Held(hours, g, a), q))) by {
      HoursByAgg(hours, g, keep, q, all);
    }
    BothByAgg(geo, filing, minutes, hours, g, keep, q, all);
  }

  lemma BothByAgg(geo: Geometry, filing: Filing, minutes: seq<MinuteSlot>, hours: seq<HourSlot>, g: int,
                  keep: Agg -> bool, q: Metric, all: set<Agg>)
    requires geo.bucket > 0 && |minutes| == MINUTE_SLOTS && |hours| == HOUR_SLOTS
    ensures Over(all, a => Kept(keep, a, MinuteSum(geo, filing, minutes, 60 * g, 60 * g + 60, a, q)))
        + Over(all, a => Kept(keep, a, HourAdds(Held(hours, g, a), q)))
      == Over(all, a => Kept(keep, a, AggSlots(geo, filing, minutes, hours, g, a, q)))
  {
    OverAdd(all, a => Kept(keep, a, MinuteSum(geo, filing, minutes, 60 * g, 60 * g + 60, a, q)),
            a => Kept(keep, a, HourAdds(Held(hours, g, a), q)),
            a => Kept(keep, a, AggSlots(geo, filing, minutes, hours, g, a, q)));
  }
}
