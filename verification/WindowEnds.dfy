/** Reports whose window starts or ends inside an hour, as the comparison with the day before does
    half the time: what the store path misses, what it counts twice over, and examples. */
module WindowEnds {
  import opened Agreement
  import opened Collector
  import opened Displacement
  import opened Ingest
  import opened OneRequest
  import opened Report
  import opened RoundTrip
  import opened StorePath
  import opened Sums
  import opened Traffic

  /** Whatever the store holds of the hour the window's start cuts is not read. */
  lemma CutStartUnread(geo: Geometry, store: map<int, seq<Row>>, t: Table, nowHour: int, keep: Agg -> bool, q: Metric,
                       h: int, rows: seq<Row>)
    requires geo.Valid() && t.Shaped() && 3600 * h < geo.start
    ensures StoreWindowAdds(geo, store[h := rows], t.minutes, t.hours, nowHour, keep, q)
      == StoreWindowAdds(geo, store, t.minutes, t.hours, nowHour, keep, q)
  {
    EachHourOnce(geo, store, t, nowHour, keep, q);
    EachHourOnce(geo, store[h := rows], t, nowHour, keep, q);
    RangeSame(FirstHour(geo), HoursTo(geo), g => HourOnce(geo, store, t, nowHour, keep, q, g),
              g => HourOnce(geo, store[h := rows], t, nowHour, keep, q, g));
  }

  lemma EmptyHour(geo: Geometry, filing: Filing, t: Table, h: int, keep: Agg -> bool, q: Metric)
    requires geo.bucket > 0 && t.Shaped() && EmptyAt(t, h)
    ensures HourSum(geo, filing, t.minutes, t.hours, h, keep, q) == 0
  {
    forall m | 60 * h <= m < 60 * h + 60 ensures SlotAs(geo, filing, t.minutes, m, keep, q) == 0 {
      assert HostsAt(t.minutes, m) == map[];
      EmptySlotAdds(geo, FiledAt(filing, m), keep);
    }
    RangeZero(60 * h, 60 * h + 60, m => SlotAs(geo, filing, t.minutes, m, keep, q));
    EmptyHourAdds(keep);
  }

  /** A window of the past that memory no longer holds: its totals, per-host counters, histogram and
      dimensions are what was recorded, less the part of the first hour that the start leaves of it, plus
      what the last hour held after the end. They are exact iff the two are equal. */
  lemma PastWindow(geo: Geometry, store: map<int, seq<Row>>, t: Table, nowHour: int, keep: Agg -> bool,
                   was: int -> Table, q: Metric)
    requires geo.Valid() && t.Shaped() && FlushedFrom(geo, store, nowHour, keep, was) && (q.SigCount? ==> '|' !in q.sig)
    requires WholeWindow(geo, q) && EmptyAt(t, FirstHour(geo))
    ensures var reported := StoreWindowAdds(geo, store, t.minutes, t.hours, nowHour, keep, q);
      var recorded := Recorded(geo, store, nowHour, keep, was, t, q);
      var missing, cut := Missing(geo, store, nowHour, keep, was, q), CutOff(geo, store, nowHour, keep, was, q);
      reported == recorded - missing + cut && (reported == recorded <==> missing == cut)
  {
    BothEndsIff(geo, store, t, nowHour, keep, was, q);
    EmptyHour(geo, OwnMinute, t, FirstHour(geo), keep, q);
  }

  /** What the window should show of a stored first hour that its start cuts. */
  ghost function Missing(geo: Geometry, store: map<int, seq<Row>>, nowHour: int, keep: Agg -> bool,
                         was: int -> Table, q: Metric): int
    requires geo.bucket > 0 && FlushedFrom(geo, store, nowHour, keep, was)
  {
    var h := FirstHour(geo);
    if InStore(geo, store, nowHour, keep, h) && 3600 * h < geo.start
    then HourSum(geo, OwnMinute, was(h).minutes, was(h).hours, h, keep, q)
    else 0
  }

  // ----- examples: one request at 1:45, its hour flushed -----

  const REQUESTS: Metric := HostTotal("a", REQ)

  function All(a: Agg): bool { true }

  lemma {:induction false} AggsWithin(minutes: seq<MinuteSlot>, lo: int, hi: int, all: set<Agg>)
    requires |minutes| == MINUTE_SLOTS && forall m | lo <= m < hi :: HostsAt(minutes, m).Keys <= all
    ensures AggsIn(minutes, lo, hi) <= all
    decreases hi - lo
  {
    if lo < hi { AggsWithin(minutes, lo, hi - 1, all); }
  }

  /** One request of the requester in hour 1, at 1:45, flushed as these rows. */
  ghost predicate OneRequestAt(s: Table, rows: seq<Row>) {
    && s.Shaped() && Flushed(s.minutes, s.hours, 1, rows) && NonNegative(s.minutes, 1) && (exists r :: r in rows)
    && OneCounted(s)
  }

  ghost predicate OneCounted(s: Table)
    requires s.Shaped()
  {
    && (forall m | 60 <= m < 120 :: HostsAt(s.minutes, m).Keys <= {REQUESTER})
    && (forall m | 60 <= m < 120 :: ValueAt(s.minutes, m, REQUESTER, REQ) == if m == 105 then 1 else 0)
    && HourHosts(s.hours, 1).Keys <= {REQUESTER}
  }

  lemma SlotsAre()
    ensures OneRequestAt(Slots(), ROWS)
  {
    RowsFlushed();
    OnlyHour();
    RequestCounts();
    assert ROWS[0] in ROWS;
    forall m, a, f | 60 <= m < 120 && 0 <= f < FIELDS
      ensures ValueAt(Slots().minutes, m, a, f) >= 0
    {
      SlotValue(m, a, f);
    }
    forall m | 60 <= m < 120
      ensures HostsAt(Slots().minutes, m).Keys <= {REQUESTER}
      ensures ValueAt(Slots().minutes, m, REQUESTER, REQ) == if m == 105 then 1 else 0
    {
      OnlyMinute(m);
      SlotValue(m, REQUESTER, REQ);
    }
  }

  lemma RequestSum(geo: Geometry, filing: Filing, s: Table)
    requires geo.Valid() && s.Shaped() && OneCounted(s)
    ensures AggSlots(geo, filing, s.minutes, s.hours, 1, REQUESTER, REQUESTS)
      == if Filed(geo, filing, 105) && geo.Index(60 * FiledAt(filing, 105)) >= 0 then 1 else 0
  {
    forall m | 60 <= m < 120
      ensures MinuteOf(geo, filing, s.minutes, m, REQUESTER, REQUESTS)
        == if m == 105 && Filed(geo, filing, m) && geo.Index(60 * FiledAt(filing, m)) >= 0 then 1 else 0
    {
      assert ValueAt(s.minutes, m, REQUESTER, REQ) == if m == 105 then 1 else 0;
    }
    RangeOnly(60, 120, m => MinuteOf(geo, filing, s.minutes, m, REQUESTER, REQUESTS), 105);
  }

  /** The hour counts one request, when the time it is counted at is in the window. */
  lemma RequestHour(geo: Geometry, filing: Filing, s: Table)
    requires geo.Valid() && s.Shaped() && OneCounted(s)
    ensures HourSum(geo, filing, s.minutes, s.hours, 1, All, REQUESTS)
      == if Filed(geo, filing, 105) && geo.Index(60 * FiledAt(filing, 105)) >= 0 then 1 else 0
  {
    AggsWithin(s.minutes, 60, 120, {REQUESTER});
    HourByAgg(geo, filing, s.minutes, s.hours, 1, All, REQUESTS, {REQUESTER});
    RequestSum(geo, filing, s);
    OverOne(REQUESTER, a => Kept(All, a, AggSlots(geo, filing, s.minutes, s.hours, 1, a, REQUESTS)));
  }

  lemma OverOne(x: Agg, g: Agg -> int)
    ensures Over({x}, g) == g(x)
  {
    OverTake({x}, g, x);
    assert {x} - {x} == {};
  }

  lemma RequestServed(geo: Geometry, s: Table, rows: seq<Row>)
    requires OneRequestAt(s, rows)
    ensures FlushedFrom(geo, map[1 := rows], 48, All, _ => s)
    ensures Served(geo, map[1 := rows], 48, All, 1) <==> geo.start <= 3600 < geo.end
    ensures InStore(geo, map[1 := rows], 48, All, 1) <==> FirstHour(geo) <= 1 && 3600 < geo.end
  {
    var store := map[1 := rows];
    var r :| r in rows;
    assert r in HourRows(store, 1) && All(r.agg);
  }

  lemma StoreOfHour(geo: Geometry, s: Table, rows: seq<Row>, t: Table)
    requires geo.Valid() && FirstHour(geo) == 1 && HoursTo(geo) == 2 && OneRequestAt(s, rows) && t.Shaped()
    ensures StoreWindowAdds(geo, map[1 := rows], t.minutes, t.hours, 48, All, REQUESTS)
      == if geo.start <= 3600 then 1 else HourSum(geo, OwnMinute, t.minutes, t.hours, 1, All, REQUESTS)
  {
    var store := map[1 := rows];
    EachHourOnce(geo, store, t, 48, All, REQUESTS);
    RangeOnly(1, 2, h => HourOnce(geo, store, t, 48, All, REQUESTS, h), 1);
    RequestServed(geo, s, rows);
    if geo.start <= 3600 { RequestRows(geo, s, rows); }
  }

  lemma RequestRows(geo: Geometry, s: Table, rows: seq<Row>)
    requires geo.Valid() && geo.start <= 3600 < geo.end && OneRequestAt(s, rows)
    ensures StoreHour(geo, rows, All, REQUESTS) == 1
  {
    FlushedHour(geo, s, 1, rows, All, REQUESTS);
    RequestHour(geo, HourStart, s);
    HourOfMinute(1, 105);
  }

  lemma MemoryOfHour(geo: Geometry, s: Table)
    requires geo.Valid() && FirstHour(geo) == 1 && HoursTo(geo) == 2 && s.Shaped() && OneCounted(s)
    ensures MemoryAdds(geo, s.minutes, s.hours, All, {}, REQUESTS) == if Visits(geo, 105)
      && geo.Index(6300) >= 0 then 1 else 0
  {
    MemoryByHour(geo, s, All, {}, REQUESTS);
    RangeOnly(1, 2, h => HourOrSkipped(geo, s, All, {}, REQUESTS, h), 1);
    RequestHour(geo, OwnMinute, s);
  }

  lemma FreshEmpty(h: int)
    ensures EmptyAt(Fresh(), h)
  {
  }

  /** 1:00 to 1:30: the store path counts the request of 1:45, the memory path does not. */
  lemma EndCutExample()
    ensures var geo := Geometry(3600, 5400, 1800);
      && StoreWindowAdds(geo, map[1 := ROWS], Slots().minutes, Slots().hours, 48, All, REQUESTS) == 1
      && MemoryAdds(geo, Slots().minutes, Slots().hours, All, {}, REQUESTS) == 0
  {
    SlotsAre();
    StoreOfHour(Geometry(3600, 5400, 1800), Slots(), ROWS, Slots());
    MemoryOfHour(Geometry(3600, 5400, 1800), Slots());
  }

  lemma RecordedOfHour(geo: Geometry, s: Table, rows: seq<Row>, t: Table)
    requires geo.Valid() && FirstHour(geo) == 1 && HoursTo(geo) == 2 && 3600 < geo.end && OneRequestAt(s, rows)
      && t.Shaped()
    ensures FlushedFrom(geo, map[1 := rows], 48, All, _ => s)
    ensures Recorded(geo, map[1 := rows], 48, All, _ => s, t, REQUESTS) == if Visits(geo, 105)
      && geo.Index(6300) >= 0 then 1 else 0
  {
    RequestServed(geo, s, rows);
    RangeOnly(1, 2, h => HourRecorded(geo, map[1 := rows], 48, All, _ => s, t, REQUESTS, h), 1);
    RequestHour(geo, OwnMinute, s);
  }

  /** 1:30 to 2:00, once memory has moved on: the recorded request of 1:45 is not reported. */
  lemma StartCutExample()
    ensures var geo := Geometry(5400, 7200, 1800);
      && FlushedFrom(geo, map[1 := ROWS], 48, All, _ => Slots())
      && StoreWindowAdds(geo, map[1 := ROWS], Fresh().minutes, Fresh().hours, 48, All, REQUESTS) == 0
      && Recorded(geo, map[1 := ROWS], 48, All, _ => Slots(), Fresh(), REQUESTS) == 1
  {
    SlotsAre();
    var geo, t := Geometry(5400, 7200, 1800), Fresh();
    StoreOfHour(geo, Slots(), ROWS, t);
    RecordedOfHour(geo, Slots(), ROWS, t);
    FreshEmpty(1);
    EmptyHour(geo, OwnMinute, t, 1, All, REQUESTS);
  }

  lemma RequestMoves(geo: Geometry, s: Table, rows: seq<Row>)
    requires geo == Geometry(3600, 7200, 1800) && OneRequestAt(s, rows)
    ensures StoreWindowAdds(geo, map[1 := rows], s.minutes, s.hours, 48, All, REQUESTS)
      == MemoryAdds(geo, s.minutes, s.hours, All, {}, REQUESTS)
    ensures exists i :: StoreWindowAdds(geo, map[1 := rows], s.minutes, s.hours, 48, All, Series(i, REQ))
                     != MemoryAdds(geo, s.minutes, s.hours, All, {}, Series(i, REQ))
  {
    StoreOfHour(geo, s, rows, s);
    MemoryOfHour(geo, s);
    RequestServed(geo, s, rows);
    StoreSeriesIsMemoryIff(geo, map[1 := rows], s, 48, All, REQ);
    assert !KeepsBucket(geo, s.minutes, 1, All, REQ) by {
      assert All(REQUESTER) && geo.Index(60 * 105) == 1 && ValueAt(s.minutes, 105, REQUESTER, REQ) == 1;
    }
  }

  /** 1:00 to 2:00 in half hours: the totals agree and the series does not. */
  lemma HalfHourExample()
    ensures var geo := Geometry(3600, 7200, 1800);
      && StoreWindowAdds(geo, map[1 := ROWS], Slots().minutes, Slots().hours, 48, All, REQUESTS)
         == MemoryAdds(geo, Slots().minutes, Slots().hours, All, {}, REQUESTS)
      && exists i :: StoreWindowAdds(geo, map[1 := ROWS], Slots().minutes, Slots().hours, 48, All, Series(i, REQ))
                  != MemoryAdds(geo, Slots().minutes, Slots().hours, All, {}, Series(i, REQ))
  {
    SlotsAre();
    RequestMoves(Geometry(3600, 7200, 1800), Slots(), ROWS);
  }
}
