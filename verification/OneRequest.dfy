/** The smallest traffic there is, for examples: what one event adds to an hour, and the rows an hour
    with a single request is flushed as. */
module OneRequest {
  import opened Ingest
  import opened RoundTrip
  import opened Sums
  import opened Traffic
  import opened Wrappers

  function AggFor(t: Table, e: Event): Agg { Agg(HostFor(t.hostSet, e.host).0, e.src) }

  /** The event is counted in its minute: the slot does not hold a newer one. */
  predicate Lands(t: Table, e: Event, now: int)
    requires t.Shaped()
  {
    var min := Stamp(e, now) / 60;
    t.minutes[min % MINUTE_SLOTS].minute <= min
  }

  lemma IngestedValue(t: Table, e: Event, now: int, mode: Mode, m: int, a: Agg, f: int)
    requires t.Shaped() && Lands(t, e, now) && 0 <= f < FIELDS
    requires var min := Stamp(e, now) / 60; min - MINUTE_SLOTS < m < min + MINUTE_SLOTS
    ensures ValueAt(Ingested(t, e, now, mode).minutes, m, a, f)
      == ValueAt(t.minutes, m, a, f) + if m == Stamp(e, now) / 60 && a == AggFor(t, e) then Delta(e)[f] else 0
  {
    var min := Stamp(e, now) / 60;
    if m != min { OtherSlot(min, m); }
  }

  lemma OtherSlot(min: int, m: int)
    requires m != min && min - MINUTE_SLOTS < m < min + MINUTE_SLOTS
    ensures m % MINUTE_SLOTS != min % MINUTE_SLOTS
  {
  }

  /** One event adds its counters to its hour, once. */
  lemma IngestedTotal(t: Table, e: Event, now: int, mode: Mode, a: Agg, f: int)
    requires t.Shaped() && Lands(t, e, now) && 0 <= f < FIELDS
    ensures var h := Stamp(e, now) / 3600;
      TotalOf(Ingested(t, e, now, mode).minutes, h, a, f)
        == TotalOf(t.minutes, h, a, f) + if a == AggFor(t, e) then Delta(e)[f] else 0
  {
    var min, h, out := Stamp(e, now) / 60, Stamp(e, now) / 3600, Ingested(t, e, now, mode).minutes;
    var d := if a == AggFor(t, e) then Delta(e)[f] else 0;
    MinuteInHour(Stamp(e, now));
    forall m | 60 * h <= m < 60 * h + 60
      ensures ValueAt(out, m, a, f) == ValueAt(t.minutes, m, a, f) + if m == min then d else 0
    {
      IngestedValue(t, e, now, mode, m, a, f);
    }
    OneMinuteMore(t.minutes, out, h, a, f, min, d);
  }

  lemma OneMinuteMore(was: seq<MinuteSlot>, now: seq<MinuteSlot>, h: int, a: Agg, f: int, min: int, d: int)
    requires |was| == |now| == MINUTE_SLOTS && 0 <= f < FIELDS && 60 * h <= min < 60 * h + 60
    requires forall m | 60 * h <= m < 60 * h + 60 ::
               ValueAt(now, m, a, f) == ValueAt(was, m, a, f) + if m == min then d else 0
    ensures TotalOf(now, h, a, f) == TotalOf(was, h, a, f) + d
  {
    var added := (m: int) => if m == min then d else 0;
    RangeAdd(60 * h, 60 * h + 60, m => ValueAt(was, m, a, f), added, m => ValueAt(now, m, a, f));
    RangeOnly(60 * h, 60 * h + 60, added, min);
  }

  lemma MinuteInHour(at: int)
    ensures 60 * (at / 3600) <= at / 60 < 60 * (at / 3600) + 60
  {
  }

  // ----- one request -----

  /** A request to host "a" from the US at 1:45. */
  const REQUEST := Event(Some(6300), "a", "US", "", "", 200, 3, 100, "external", None)

  const REQUESTER := Agg("a", "external")

  const ROWS: seq<Row> := [
    Row(1, REQUESTER, Total, "", 1, 0, 0, 100),
    Row(1, REQUESTER, Status, "2xx", 1, 0, 0, 0),
    Row(1, REQUESTER, Latency, "5", 1, 0, 0, 0),
    Row(1, REQUESTER, Country, "US", 1, 0, 0, 0)]

  /** The tables after that request. */
  function Slots(): (t: Table)
    ensures t.Shaped()
  {
    Ingested(Fresh(), REQUEST, 6300, Off)
  }

  lemma SlotValue(m: int, a: Agg, f: int)
    requires 60 <= m < 120 && 0 <= f < FIELDS
    ensures ValueAt(Slots().minutes, m, a, f) == if m == 105 && a == REQUESTER then Delta(REQUEST)[f] else 0
  {
    IngestedValue(Fresh(), REQUEST, 6300, Off, m, a, f);
    assert HostsAt(Fresh().minutes, m) == map[];
  }

  lemma SlotTotal(a: Agg, f: int)
    requires 0 <= f < FIELDS
    ensures TotalOf(Slots().minutes, 1, a, f) == if a == REQUESTER then Delta(REQUEST)[f] else 0
  {
    forall m | 60 <= m < 120 && m != 105 ensures ValueAt(Slots().minutes, m, a, f) == 0 { SlotValue(m, a, f); }
    RangeOnly(60, 120, m => ValueAt(Slots().minutes, m, a, f), 105);
    SlotValue(105, a, f);
  }

  lemma RequestCounts()
    ensures forall f | 0 <= f < FIELDS ::
              Delta(REQUEST)[f] == if f == REQ || f == CLASS || f == DUR then 1 else if f == BYTES then 100 else 0
  {
    assert DurBucket(3) == 0 && StatusClass(200) == 0;
  }

  lemma IngestedAggs(t: Table, e: Event, now: int, mode: Mode, m: int)
    requires t.Shaped() && Lands(t, e, now)
    requires var min := Stamp(e, now) / 60; min - MINUTE_SLOTS < m < min + MINUTE_SLOTS
    ensures HostsAt(Ingested(t, e, now, mode).minutes, m).Keys
      == HostsAt(t.minutes, m).Keys + if m == Stamp(e, now) / 60 then {AggFor(t, e)} else {}
  {
    var min := Stamp(e, now) / 60;
    if m != min { OtherSlot(min, m); }
  }

  lemma OnlyMinute(m: int)
    requires 60 <= m < 120
    ensures HostsAt(Slots().minutes, m).Keys == if m == 105 then {REQUESTER} else {}
  {
    IngestedAggs(Fresh(), REQUEST, 6300, Off, m);
    assert HostsAt(Fresh().minutes, m).Keys == {};
  }

  lemma OnlyClient(a: Agg)
    ensures Present(Slots().minutes, 1, a) <==> a == REQUESTER
  {
    OnlyMinute(105);
    forall m | 60 <= m < 120 ensures a in HostsAt(Slots().minutes, m) ==> a == REQUESTER { OnlyMinute(m); }
    if a == REQUESTER { assert 60 * 1 <= 105 < 60 * 1 + 60 && a in HostsAt(Slots().minutes, 105); }
  }

  lemma IngestedHour(t: Table, e: Event, now: int, mode: Mode)
    requires t.Shaped() && Lands(t, e, now) && t.hours[Stamp(e, now) / 3600 % HOUR_SLOTS].hour <= Stamp(e, now) / 3600
    ensures var h := Stamp(e, now) / 3600; var agg, hosts := AggFor(t, e), HourHosts(t.hours, h);
      HourHosts(Ingested(t, e, now, mode).hours, h)
        == hosts[agg := Counted(if agg in hosts then hosts[agg] else NEW_HOUR, e, mode, Stamp(e, now))]
  {
  }

  lemma RequestCounted()
    ensures Counted(NEW_HOUR, REQUEST, Off, 6300) == NEW_HOUR.(country := map["US" := Dim(1, 0, 0)])
  {
  }

  lemma OnlyHour()
    ensures HourHosts(Slots().hours, 1) == map[REQUESTER := NEW_HOUR.(country := map["US" := Dim(1, 0, 0)])]
  {
    FirstRequest(Fresh());
  }

  lemma FirstRequest(t: Table)
    requires t.Shaped() && Lands(t, REQUEST, 6300) && AggFor(t, REQUEST) == REQUESTER
    requires t.hours[1].hour <= 1 && HourHosts(t.hours, 1) == map[]
    ensures HourHosts(Ingested(t, REQUEST, 6300, Off).hours, 1)
      == map[REQUESTER := NEW_HOUR.(country := map["US" := Dim(1, 0, 0)])]
  {
    IngestedHour(t, REQUEST, 6300, Off);
    RequestCounted();
  }

  lemma ClientTotals(a: Agg)
    ensures forall f | 0 <= f < FIELDS ::
              TotalOf(Slots().minutes, 1, a, f) == if a != REQUESTER then 0 else if f == REQ || f == CLASS
                || f == DUR then 1 else if f == BYTES then 100 else 0
  {
    RequestCounts();
    forall f | 0 <= f < FIELDS
      ensures TotalOf(Slots().minutes, 1, a, f) == if a == REQUESTER then Delta(REQUEST)[f] else 0
    {
      SlotTotal(a, f);
    }
  }

  lemma RowRendered(r: Row)
    ensures Rendered(Slots().minutes, Slots().hours, 1, r) <==> r in ROWS
  {
    OnlyHour();
    OnlyClient(r.agg);
    ClientTotals(r.agg);
    OneClientRows(Slots().minutes, HourHosts(Slots().hours, 1), r);
  }

  lemma OneClientRows(minutes: seq<MinuteSlot>, hosts: map<Agg, HostHour>, r: Row)
    requires |minutes| == MINUTE_SLOTS && hosts == map[REQUESTER := NEW_HOUR.(country := map["US" := Dim(1, 0, 0)])]
    requires Present(minutes, 1, r.agg) <==> r.agg == REQUESTER
    requires forall f | 0 <= f < FIELDS ::
               TotalOf(minutes, 1, r.agg, f) == if r.agg != REQUESTER then 0 else if f == REQ || f == CLASS
                 || f == DUR then 1 else if f == BYTES then 100 else 0
    ensures r.hour == 1 && (RenderedTotals(minutes, 1, r) || RenderedDims(hosts, r)) <==> r in ROWS
  {
    match r.kind
    case Status => assert StatusKey(0) == "2xx";
    case Latency => assert DurKey(0) == "5";
    case _ =>
  }

  /** Its hour is flushed as four rows. */
  lemma RowsFlushed()
    ensures Flushed(Slots().minutes, Slots().hours, 1, ROWS)
  {
    forall r ensures Rendered(Slots().minutes, Slots().hours, 1, r) <==> r in ROWS { RowRendered(r); }
    RowsUnique();
  }

  lemma RowsUnique()
    ensures Unique(ROWS) && Distinct(ROWS)
  {
  }
}
