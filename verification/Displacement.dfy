/** Rows keep an hour's counts without their minutes, so a report reads them all at the hour's start:
    which counts that moves, and exactly when it shows. */
module Displacement {
  import opened Agreement
  import opened Report
  import opened Sums
  import opened Traffic

  ghost predicate NonNegative(minutes: seq<MinuteSlot>, g: int)
    requires |minutes| == MINUTE_SLOTS
  {
    forall m, a, f | 60 * g <= m < 60 * g + 60 && 0 <= f < FIELDS :: ValueAt(minutes, m, a, f) >= 0
  }

  lemma TotalsNonNegative(minutes: seq<MinuteSlot>, g: int, a: Agg, f: int)
    requires |minutes| == MINUTE_SLOTS && NonNegative(minutes, g) && 0 <= f < FIELDS
    ensures TotalOf(minutes, g, a, f) >= 0
  {
    var value := (m: int) => ValueAt(minutes, m, a, f);
    RangeLeq(60 * g, 60 * g + 60, m => 0, value);
    RangeZero(60 * g, 60 * g + 60, m => 0);
    RangeSame(60 * g, 60 * g + 60, value, m => ValueAt(minutes, m, a, f));
  }

  /** The metric shows something of this minute only when it is counted at the hour's start. */
  ghost predicate Displaced(geo: Geometry, minutes: seq<MinuteSlot>, g: int, keep: Agg -> bool, q: Metric, m: int,
                            a: Agg)
    requires geo.bucket > 0 && |minutes| == MINUTE_SLOTS
  {
    && keep(a) && Shows(geo, a.host, 3600 * g, q) && !(Visits(geo, m) && Shows(geo, a.host, 60 * m, q))
    && ValueAt(minutes, m, a, FieldOf(q)) != 0
  }

  ghost predicate Stays(geo: Geometry, minutes: seq<MinuteSlot>, g: int, keep: Agg -> bool, q: Metric, m: int)
    requires geo.bucket > 0 && |minutes| == MINUTE_SLOTS
  {
    forall a :: !Displaced(geo, minutes, g, keep, q, m, a)
  }

  ghost predicate NothingDisplaced(geo: Geometry, minutes: seq<MinuteSlot>, g: int, keep: Agg -> bool, q: Metric)
    requires geo.bucket > 0 && |minutes| == MINUTE_SLOTS
  {
    forall m | 60 * g <= m < 60 * g + 60 :: Stays(geo, minutes, g, keep, q, m)
  }

  lemma LaterBucket(geo: Geometry, at: int, later: int)
    requires geo.bucket > 0 && at <= later && geo.Index(at) >= 0 && geo.Index(later) >= 0
    ensures geo.Index(at) <= geo.Index(later)
  {
    var x, y := at - geo.start, later - geo.start;
    if x / geo.bucket > y / geo.bucket { Grows(y / geo.bucket + 1, x / geo.bucket, geo.bucket); }
  }

  /** Counting at the hour's start loses nothing a metric other than a single bucket shows. */
  lemma StartShowsMore(geo: Geometry, host: string, g: int, m: int, q: Metric)
    requires geo.bucket > 0 && !q.Series? && geo.Index(3600 * g) >= 0 && 60 * g <= m
    ensures Shows(geo, host, 60 * m, q) ==> Shows(geo, host, 3600 * g, q)
  {
    if geo.Index(60 * m) >= 0 { LaterBucket(geo, 3600 * g, 60 * m); }
  }

  function OwnShare(geo: Geometry, minutes: seq<MinuteSlot>, keep: Agg -> bool, q: Metric, m: int, a: Agg): int
    requires geo.bucket > 0 && |minutes| == MINUTE_SLOTS
  {
    if Visits(geo, m) then Kept(keep, a, MinuteAdds(geo, a.host, 60 * m, CountsOf(HostsAt(minutes, m), a), q)) else 0
  }

  function StartShare(geo: Geometry, minutes: seq<MinuteSlot>, g: int, keep: Agg -> bool, q: Metric, m: int,
                      a: Agg): int
    requires geo.bucket > 0 && |minutes| == MINUTE_SLOTS
  {
    Kept(keep, a, MinuteAdds(geo, a.host, 3600 * g, CountsOf(HostsAt(minutes, m), a), q))
  }

  /** What the metric shows of one minute at the hour's start only. */
  ghost function DisplacedShare(geo: Geometry, minutes: seq<MinuteSlot>, g: int, keep: Agg -> bool, q: Metric,
                                m: int, a: Agg): int
    requires geo.bucket > 0 && |minutes| == MINUTE_SLOTS
  {
    if Displaced(geo, minutes, g, keep, q, m, a) then ValueAt(minutes, m, a, FieldOf(q)) else 0
  }

  lemma ShareMoves(geo: Geometry, minutes: seq<MinuteSlot>, g: int, keep: Agg -> bool, q: Metric, m: int, a: Agg)
    requires geo.bucket > 0 && |minutes| == MINUTE_SLOTS && !q.Series? && geo.Index(3600 * g) >= 0
    requires 60 * g <= m < 60 * g + 60
    ensures StartShare(geo, minutes, g, keep, q, m, a)
      == OwnShare(geo, minutes, keep, q, m, a) + DisplacedShare(geo, minutes, g, keep, q, m, a)
  {
    StartShowsMore(geo, a.host, g, m, q);
  }

  ghost function DisplacedMinute(geo: Geometry, minutes: seq<MinuteSlot>, g: int, keep: Agg -> bool, q: Metric,
                                 m: int): int
    requires geo.bucket > 0 && |minutes| == MINUTE_SLOTS
  {
    Over(HostsAt(minutes, m).Keys, a => DisplacedShare(geo, minutes, g, keep, q, m, a))
  }

  lemma SlotMoves(geo: Geometry, minutes: seq<MinuteSlot>, g: int, keep: Agg -> bool, q: Metric, m: int)
    requires geo.bucket > 0 && |minutes| == MINUTE_SLOTS && !q.Series? && geo.Index(3600 * g) >= 0
    requires 60 * g <= m < 60 * g + 60
    ensures SlotAs(geo, HourStart, minutes, m, keep, q)
      == SlotAs(geo, OwnMinute, minutes, m, keep, q) + DisplacedMinute(geo, minutes, g, keep, q, m)
  {
    var hosts := HostsAt(minutes, m);
    var own, start := a => OwnShare(geo, minutes, keep, q, m, a), a => StartShare(geo, minutes, g, keep, q, m, a);
    forall a ensures start(a) == own(a) + DisplacedShare(geo, minutes, g, keep, q, m, a) {
      ShareMoves(geo, minutes, g, keep, q, m, a);
    }
    OverAdd(hosts.Keys, own, a => DisplacedShare(geo, minutes, g, keep, q, m, a), start);
    SlotIsOver(geo, minutes, g, keep, q, m, own, start);
  }

  lemma SlotIsOver(geo: Geometry, minutes: seq<MinuteSlot>, g: int, keep: Agg -> bool, q: Metric, m: int,
                   own: Agg -> int, start: Agg -> int)
    requires geo.bucket > 0 && |minutes| == MINUTE_SLOTS && 60 * g <= m < 60 * g + 60
    requires forall a :: own(a) == OwnShare(geo, minutes, keep, q, m, a)
    requires forall a :: start(a) == StartShare(geo, minutes, g, keep, q, m, a)
    ensures SlotAs(geo, OwnMinute, minutes, m, keep, q) == Over(HostsAt(minutes, m).Keys, own)
    ensures SlotAs(geo, HourStart, minutes, m, keep, q) == Over(HostsAt(minutes, m).Keys, start)
  {
    var hosts := HostsAt(minutes, m);
    HourOfMinute(g, m);
    if Visits(geo, m) {
      OverSame(hosts.Keys, (a: Agg) => Kept(keep, a, MinuteAdds(geo, a.host, 60 * m, CountsOf(hosts, a), q)), own);
    } else {
      OverZero(hosts.Keys, own);
    }
    OverSame(hosts.Keys, (a: Agg) => Kept(keep, a, MinuteAdds(geo, a.host, 60 * (60 * g), CountsOf(hosts, a), q)),
             start);
  }

  /** What the metric shows of the hour at its start only. */
  ghost function DisplacedSum(geo: Geometry, minutes: seq<MinuteSlot>, g: int, keep: Agg -> bool, q: Metric): int
    requires geo.bucket > 0 && |minutes| == MINUTE_SLOTS
  {
    Range(60 * g, 60 * g + 60, m => DisplacedMinute(geo, minutes, g, keep, q, m))
  }

  /** An hour counted at its start adds what its minutes add and what is displaced. */
  lemma HourMoves(geo: Geometry, minutes: seq<MinuteSlot>, hours: seq<HourSlot>, g: int, keep: Agg -> bool, q: Metric)
    requires geo.bucket > 0 && |minutes| == MINUTE_SLOTS && |hours| == HOUR_SLOTS
    requires !q.Series? && geo.Index(3600 * g) >= 0
    ensures HourSum(geo, HourStart, minutes, hours, g, keep, q)
      == HourSum(geo, OwnMinute, minutes, hours, g, keep, q) + DisplacedSum(geo, minutes, g, keep, q)
  {
    forall m | 60 * g <= m < 60 * g + 60
      ensures SlotAs(geo, HourStart, minutes, m, keep, q)
        == SlotAs(geo, OwnMinute, minutes, m, keep, q) + DisplacedMinute(geo, minutes, g, keep, q, m)
    {
      SlotMoves(geo, minutes, g, keep, q, m);
    }
    RangeAdd(60 * g, 60 * g + 60, m => SlotAs(geo, OwnMinute, minutes, m, keep, q),
             m => DisplacedMinute(geo, minutes, g, keep, q, m), m => SlotAs(geo, HourStart, minutes, m, keep, q));
  }

  lemma MinuteDisplaces(geo: Geometry, minutes: seq<MinuteSlot>, g: int, keep: Agg -> bool, q: Metric, m: int)
    requires geo.bucket > 0 && |minutes| == MINUTE_SLOTS && NonNegative(minutes, g) && 60 * g <= m < 60 * g + 60
    ensures DisplacedMinute(geo, minutes, g, keep, q, m) >= 0
    ensures DisplacedMinute(geo, minutes, g, keep, q, m) == 0 <==> Stays(geo, minutes, g, keep, q, m)
  {
    var hosts, share := HostsAt(minutes, m).Keys, (a: Agg) => DisplacedShare(geo, minutes, g, keep, q, m, a);
    forall a ensures share(a) >= 0 && (share(a) == 0 <==> !Displaced(geo, minutes, g, keep, q, m, a)) {
      if Displaced(geo, minutes, g, keep, q, m, a) { assert ValueAt(minutes, m, a, FieldOf(q)) >= 0; }
    }
    OverLeq(hosts, a => 0, share);
    OverZero(hosts, (a: Agg) => 0);
    OverSame(hosts, share, a => DisplacedShare(geo, minutes, g, keep, q, m, a));
  }

  /** Counts are displaced exactly when some minute's are. */
  lemma DisplacesIff(geo: Geometry, minutes: seq<MinuteSlot>, g: int, keep: Agg -> bool, q: Metric)
    requires geo.bucket > 0 && |minutes| == MINUTE_SLOTS && NonNegative(minutes, g)
    ensures DisplacedSum(geo, minutes, g, keep, q) >= 0
    ensures DisplacedSum(geo, minutes, g, keep, q) == 0 <==> NothingDisplaced(geo, minutes, g, keep, q)
  {
    var minute := (m: int) => DisplacedMinute(geo, minutes, g, keep, q, m);
    forall m | 60 * g <= m < 60 * g + 60
      ensures minute(m) >= 0 && (minute(m) == 0 <==> Stays(geo, minutes, g, keep, q, m))
    {
      MinuteDisplaces(geo, minutes, g, keep, q, m);
    }
    RangeLeq(60 * g, 60 * g + 60, m => 0, minute);
    RangeZero(60 * g, 60 * g + 60, m => 0);
    RangeSame(60 * g, 60 * g + 60, minute, m => DisplacedMinute(geo, minutes, g, keep, q, m));
  }

  /** Totals, per-host counters and the histogram move nothing but what the window's end cuts off. */
  predicate WholeWindow(geo: Geometry, q: Metric)
    requires geo.bucket > 0
  {
    q.HostTotal? || q.LatencyCount? || (q.SeriesUpTo? && q.i >= geo.Buckets() - 1) || !IsMinuteMetric(q)
  }

  lemma OnlyTheEndCuts(geo: Geometry, minutes: seq<MinuteSlot>, g: int, keep: Agg -> bool, q: Metric, m: int, a: Agg)
    requires geo.Valid() && |minutes| == MINUTE_SLOTS && WholeWindow(geo, q)
    requires geo.Index(3600 * g) >= 0 && 60 * g <= m < 60 * g + 60
    ensures Displaced(geo, minutes, g, keep, q, m, a)
      <==> !Visits(geo, m) && keep(a) && Shows(geo, a.host, 3600 * g, q) && ValueAt(minutes, m, a, FieldOf(q)) != 0
  {
    IndexInRange(geo, 60 * m);
  }

  // ----- one bucket is the difference of two prefixes -----

  lemma SlotDiffers(geo: Geometry, filing: Filing, minutes: seq<MinuteSlot>, m: int, keep: Agg -> bool, i: int, f: int)
    requires geo.bucket > 0 && |minutes| == MINUTE_SLOTS
    ensures SlotAs(geo, filing, minutes, m, keep, SeriesUpTo(i, f))
      == SlotAs(geo, filing, minutes, m, keep, SeriesUpTo(i - 1, f))
        + SlotAs(geo, filing, minutes, m, keep, Series(i, f))
  {
    if Filed(geo, filing, m) {
      var hosts, at := HostsAt(minutes, m), 60 * FiledAt(filing, m);
      OverAdd(hosts.Keys,
              (a: Agg) => Kept(keep, a, MinuteAdds(geo, a.host, at, CountsOf(hosts, a), SeriesUpTo(i - 1, f))),
              (a: Agg) => Kept(keep, a, MinuteAdds(geo, a.host, at, CountsOf(hosts, a), Series(i, f))),
              (a: Agg) => Kept(keep, a, MinuteAdds(geo, a.host, at, CountsOf(hosts, a), SeriesUpTo(i, f))));
    }
  }

  lemma HourDiffers(geo: Geometry, filing: Filing, minutes: seq<MinuteSlot>, hours: seq<HourSlot>, g: int,
                    keep: Agg -> bool, i: int, f: int)
    requires geo.bucket > 0 && |minutes| == MINUTE_SLOTS && |hours| == HOUR_SLOTS
    ensures HourSum(geo, filing, minutes, hours, g, keep, SeriesUpTo(i, f))
      == HourSum(geo, filing, minutes, hours, g, keep, SeriesUpTo(i - 1, f))
        + HourSum(geo, filing, minutes, hours, g, keep, Series(i, f))
  {
    forall m ensures SlotAs(geo, filing, minutes, m, keep, SeriesUpTo(i, f))
      == SlotAs(geo, filing, minutes, m, keep, SeriesUpTo(i - 1, f))
        + SlotAs(geo, filing, minutes, m, keep, Series(i, f))
    {
      SlotDiffers(geo, filing, minutes, m, keep, i, f);
    }
    RangeAdd(60 * g, 60 * g + 60, m => SlotAs(geo, filing, minutes, m, keep, SeriesUpTo(i - 1, f)),
             m => SlotAs(geo, filing, minutes, m, keep, Series(i, f)),
               m => SlotAs(geo, filing, minutes, m, keep, SeriesUpTo(i, f)));
    NoDimension(HourHosts(hours, g), keep, SeriesUpTo(i, f));
    NoDimension(HourHosts(hours, g), keep, SeriesUpTo(i - 1, f));
    NoDimension(HourHosts(hours, g), keep, Series(i, f));
  }

  lemma NoDimension(hosts: map<Agg, HostHour>, keep: Agg -> bool, q: Metric)
    requires IsMinuteMetric(q)
    ensures HourSlotAdds(hosts, keep, q) == 0
  {
    OverZero(hosts.Keys, (a: Agg) => Kept(keep, a, HourAdds(HeldIn(hosts, a), q)));
  }

  lemma NoPrefix(geo: Geometry, filing: Filing, minutes: seq<MinuteSlot>, hours: seq<HourSlot>, g: int,
                 keep: Agg -> bool, i: int, f: int)
    requires geo.bucket > 0 && |minutes| == MINUTE_SLOTS && |hours| == HOUR_SLOTS && i < 0
    ensures HourSum(geo, filing, minutes, hours, g, keep, SeriesUpTo(i, f)) == 0
  {
    forall m ensures SlotAs(geo, filing, minutes, m, keep, SeriesUpTo(i, f)) == 0 {
      var hosts, at := HostsAt(minutes, m), 60 * FiledAt(filing, m);
      OverZero(hosts.Keys,
               (a: Agg) => Kept(keep, a, MinuteAdds(geo, a.host, at, CountsOf(hosts, a), SeriesUpTo(i, f))));
    }
    RangeZero(60 * g, 60 * g + 60, m => SlotAs(geo, filing, minutes, m, keep, SeriesUpTo(i, f)));
    NoDimension(HourHosts(hours, g), keep, SeriesUpTo(i, f));
  }
}
