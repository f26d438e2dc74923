/** Runs of events, flushes and starts one after the other: what every table keeps, and that nothing
    flushed is lost. */
module Lifetime {
  import opened Collector
  import opened Displacement
  import opened Ingest
  import opened Replay
  import opened Restart
  import opened RoundTrip
  import opened Traffic

  /** No label holds the separator, as labels are made, and no bytes are counted back. */
  predicate Clean(e: Event) { '|' !in e.sig && e.bytes >= 0 }

  ghost predicate CleanRun(run: seq<Arrival>) { forall a | a in run :: Clean(a.event) }

  // ----- what every table keeps -----

  predicate CountsSound(c: Counts) { forall f | 0 <= f < FIELDS :: c[f] >= 0 }

  ghost predicate HostsSound(hosts: map<Agg, Counts>) { forall a | a in hosts :: CountsSound(hosts[a]) }

  predicate LabelsClean(sig: map<string, int>) { forall l | l in sig :: '|' !in l }

  ghost predicate HoursClean(hosts: map<Agg, HostHour>) { forall a | a in hosts :: LabelsClean(hosts[a].sig) }

  ghost predicate Sound(t: Table) {
    && t.Shaped()
    && (forall i | 0 <= i < MINUTE_SLOTS :: HostsSound(t.minutes[i].hosts))
    && (forall j | 0 <= j < HOUR_SLOTS :: HoursClean(t.hours[j].hosts))
  }

  lemma FreshSound()
    ensures Sound(Fresh())
  {
  }

  lemma PutSound(slot: MinuteSlot, m: int, agg: Agg, c: Counts)
    requires HostsSound(slot.hosts) && CountsSound(c)
    ensures HostsSound(Put(slot, m, agg, c).hosts)
  {
    var hosts := if slot.minute == m then slot.hosts else map[];
    assert CountsSound(CountsOf(hosts, agg));
    assert CountsSound(Plus(CountsOf(hosts, agg), c));
  }

  lemma CountedClean(hh: HostHour, e: Event, mode: Mode, at: int)
    requires LabelsClean(hh.sig) && '|' !in e.sig
    ensures LabelsClean(Counted(hh, e, mode, at).sig)
  {
  }

  lemma HourPutClean(slot: HourSlot, hr: int, agg: Agg, e: Event, mode: Mode, at: int)
    requires HoursClean(slot.hosts) && '|' !in e.sig
    ensures HoursClean(HourPut(slot, hr, agg, e, mode, at).hosts)
  {
    var hosts := if slot.hour == hr then slot.hosts else map[];
    CountedClean(if agg in hosts then hosts[agg] else NEW_HOUR, e, mode, at);
  }

  lemma DeltaSound(e: Event)
    requires e.bytes >= 0
    ensures CountsSound(Delta(e))
  {
  }

  lemma IngestedSound(t: Table, e: Event, now: int, mode: Mode)
    requires Sound(t) && Clean(e)
    ensures Sound(Ingested(t, e, now, mode))
  {
    var at := Stamp(e, now);
    var agg := Agg(HostFor(t.hostSet, e.host).0, e.src);
    var i, j := at / 60 % MINUTE_SLOTS, at / 3600 % HOUR_SLOTS;
    DeltaSound(e);
    PutSound(t.minutes[i], at / 60, agg, Delta(e));
    HourPutClean(t.hours[j], at / 3600, agg, e, mode, at);
    IngestedSlots(t, e, now, mode);
    EventSound(t, Put(t.minutes[i], at / 60, agg, Delta(e)), i, HourPut(t.hours[j], at / 3600, agg, e, mode, at), j,
               Ingested(t, e, now, mode));
  }

  lemma EventSound(t: Table, slot: MinuteSlot, i: int, hour: HourSlot, j: int, out: Table)
    requires Sound(t) && out.Shaped() && 0 <= i < MINUTE_SLOTS && 0 <= j < HOUR_SLOTS
    requires HostsSound(slot.hosts) && HoursClean(hour.hosts)
    requires out.minutes == t.minutes || out.minutes == t.minutes[i := slot]
    requires out.hours == t.hours || out.hours == t.hours[j := hour]
    ensures Sound(out)
  {
  }

  /** A row counts nothing back. */
  predicate RowSound(r: Row) { forall f | 0 <= f < FIELDS :: Amount(r, f) >= 0 }

  lemma SharesSound(r: Row, span: int, off: int)
    requires RowSound(r) && span > 0 && off >= 0
    ensures CountsSound(SharesOf(r, span, off))
  {
    forall f | 0 <= f < FIELDS ensures SharesOf(r, span, off)[f] >= 0 {
      assert Amount(r, f) >= 0;
      ShareMonotone(0, Amount(r, f), span, off);
    }
  }

  lemma DimClean(hh: HostHour, r: Row)
    requires LabelsClean(hh.sig)
    ensures LabelsClean(AppliedDim(hh, r).sig)
  {
  }

  lemma SpreadSound(minutes: seq<MinuteSlot>, r: Row, nowMin: int)
    requires |minutes| == MINUTE_SLOTS && RowSound(r)
      && forall i | 0 <= i < MINUTE_SLOTS :: HostsSound(minutes[i].hosts)
    ensures forall i | 0 <= i < MINUTE_SLOTS :: HostsSound(Spread(minutes, r, nowMin)[i].hosts)
  {
    var lo, last := 60 * r.hour, LastMinute(r.hour, nowMin);
    forall i | 0 <= i < MINUTE_SLOTS ensures HostsSound(Spread(minutes, r, nowMin)[i].hosts) {
      var m := MinuteAt(lo, i);
      if last > lo && m < last {
        SharesSound(r, last - lo, m - lo);
        PutSound(minutes[i], m, r.agg, SharesOf(r, last - lo, m - lo));
      }
    }
  }

  lemma RowKeepsSound(t: Table, r: Row, nowMin: int)
    requires Sound(t) && RowSound(r)
    ensures Sound(AppliedRow(t, r, nowMin))
  {
    var j := r.hour % HOUR_SLOTS;
    var hosts := if t.hours[j].hour == r.hour then t.hours[j].hosts else map[];
    if IsMinuteKind(r.kind) { SpreadSound(t.minutes, r, nowMin); }
    DimClean(if r.agg in hosts then hosts[r.agg] else NEW_HOUR, r);
  }

  lemma {:induction false} AppliedSound(t: Table, rows: seq<Row>, nowMin: int)
    requires Sound(t) && forall r | r in rows :: RowSound(r)
    ensures Sound(Applied(t, rows, nowMin))
  {
    if rows != [] {
      AppliedSound(t, rows[..|rows| - 1], nowMin);
      RowKeepsSound(Applied(t, rows[..|rows| - 1], nowMin), rows[|rows| - 1], nowMin);
    }
  }

  // ----- runs and starts -----

  /** A run of events from a table. */
  function Ran(t: Table, run: seq<Arrival>): (out: Table)
    requires t.Shaped()
    ensures out.Shaped()
  {
    if run == [] then t
    else
      var last := run[|run| - 1];
      Ingested(Ran(t, run[..|run| - 1]), last.event, last.now, last.mode)
  }

  lemma {:induction false} RanSound(t: Table, run: seq<Arrival>)
    requires Sound(t) && CleanRun(run)
    ensures Sound(Ran(t, run))
  {
    if run != [] {
      var last := run[|run| - 1];
      RanSound(t, run[..|run| - 1]);
      assert Clean(last.event);
      IngestedSound(Ran(t, run[..|run| - 1]), last.event, last.now, last.mode);
    }
  }

  lemma {:induction false} RanFresh(run: seq<Arrival>)
    ensures Ran(Fresh(), run) == After(run)
  {
    if run != [] { RanFresh(run[..|run| - 1]); }
  }

  ghost predicate StoreSound(store: map<int, seq<Row>>) { forall h, r | r in HourRows(store, h) :: RowSound(r) }

  lemma {:induction false} ReadSound(store: map<int, seq<Row>>, lo: int, hi: int)
    requires StoreSound(store)
    ensures forall r | r in ReadHours(store, lo, hi) :: RowSound(r)
    decreases hi - lo
  {
    if lo < hi { ReadSound(store, lo, hi - 1); }
  }

  /** A start from a sound store gives sound tables... */
  lemma ReplayedSound(store: map<int, seq<Row>>, nowHour: int, nowMin: int)
    requires StoreSound(store)
    ensures Sound(Replayed(store, nowHour, nowMin))
  {
    FreshSound();
    ReadSound(store, nowHour - 24, nowHour + 1);
    AppliedSound(Fresh(), ReadHours(store, nowHour - 24, nowHour + 1), nowMin);
  }

  lemma SoundValues(s: Table, h: int)
    requires Sound(s)
    ensures NonNegative(s.minutes, h)
    ensures forall a, l | a in HourHosts(s.hours, h) && l in HourHosts(s.hours, h)[a].sig :: '|' !in l
  {
    forall m, a, f | 60 * h <= m < 60 * h + 60 && 0 <= f < FIELDS ensures ValueAt(s.minutes, m, a, f) >= 0 {
      assert HostsSound(s.minutes[m % MINUTE_SLOTS].hosts);
      assert CountsSound(CountsOf(HostsAt(s.minutes, m), a));
    }
    assert HoursClean(s.hours[h % HOUR_SLOTS].hosts);
  }

  lemma RenderedSound(s: Table, h: int, r: Row)
    requires Sound(s) && Rendered(s.minutes, s.hours, h, r)
    ensures RowSound(r)
  {
    SoundValues(s, h);
    forall f | 0 <= f < FIELDS ensures Amount(r, f) >= 0 {
      TotalsNonNegative(s.minutes, h, r.agg, f);
    }
  }

  /** ...and a flush of sound tables keeps the store sound. */
  lemma WrittenSound(s: Table, h: int, partial: seq<Row>, was: seq<Row>, now: seq<Row>)
    requires Sound(s) && WrittenHour(s.minutes, s.hours, h, partial, was, now)
    requires (forall r | r in was :: RowSound(r)) && forall r | r in partial :: !IsMinuteKind(r.kind)
    ensures forall r | r in now :: RowSound(r)
  {
    var full :| IsFull(s.minutes, s.hours, h, partial, full)
      && now == if Budgeted(full) == [] then was else Budgeted(full);
    forall r | r in full ensures RowSound(r) {
      assert ForHour(s.minutes, s.hours, h, partial, r);
      if r !in partial { RenderedSound(s, h, r); }
    }
  }

  // ----- nothing flushed is lost -----

  /** An hour of the last day as a flush within the budget left it in the store, with its partial rows. */
  ghost predicate FlushedHourOf(s: Table, store: map<int, seq<Row>>, g: int, partial: seq<Row>, was: seq<Row>) {
    && s.Shaped() && FiledByHour(store) && WrittenHour(s.minutes, s.hours, g, partial, was, HourRows(store, g))
    && WithinBudget(s, g, partial) && (was == [] || exists r :: Rendered(s.minutes, s.hours, g, r))
    && Unique(partial) && forall r | r in partial :: Partial(s.hours, g, r)
  }

  /** From any sound tables, events, a flush, a stop and a start: every counter, country, denial reason
      and signature of any hour written in the last day is back, whatever the labels. */
  lemma RunFlushStart(t0: Table, run: seq<Arrival>, store: map<int, seq<Row>>, g: int, partial: seq<Row>, was: seq<Row>,
                      nowHour: int, nowMin: int, agg: Agg)
    requires Sound(t0) && CleanRun(run) && FlushedHourOf(Ran(t0, run), store, g, partial, was)
    requires nowHour - 24 < g <= nowHour && nowHour == nowMin / 60
    ensures var s, back := Ran(t0, run), Replayed(store, nowHour, nowMin);
      var held, now := Held(s.hours, g, agg), HourOf(back, g, agg);
      && (forall f | 0 <= f < FIELDS :: TotalOf(back.minutes, g, agg, f) == TotalOf(s.minutes, g, agg, f))
      && now.country == held.country && now.deny == held.deny && now.sig == held.sig
  {
    RanSound(t0, run);
    SoundFlushed(Ran(t0, run), store, g, partial, was);
    FlushedBack(Ran(t0, run), store, g, nowHour, nowMin, agg);
  }

  lemma SoundFlushed(s: Table, store: map<int, seq<Row>>, g: int, partial: seq<Row>, was: seq<Row>)
    requires Sound(s) && FlushedHourOf(s, store, g, partial, was)
    ensures s.Shaped() && FiledByHour(store) && NonNegative(s.minutes, g)
      && Flushed(s.minutes, s.hours, g, HourRows(store, g))
    ensures forall a :: LabelsClean(Held(s.hours, g, a).sig)
  {
    SoundValues(s, g);
    WrittenStartsFlushed(s, g, partial, was, HourRows(store, g));
  }

  lemma FlushedBack(s: Table, store: map<int, seq<Row>>, g: int, nowHour: int, nowMin: int, agg: Agg)
    requires s.Shaped() && FiledByHour(store) && NonNegative(s.minutes, g)
      && Flushed(s.minutes, s.hours, g, HourRows(store, g))
    requires LabelsClean(Held(s.hours, g, agg).sig) && nowHour - 24 < g <= nowHour && nowHour == nowMin / 60
    ensures var back := Replayed(store, nowHour, nowMin); var held, now := Held(s.hours, g, agg), HourOf(back, g, agg);
      && (forall f | 0 <= f < FIELDS :: TotalOf(back.minutes, g, agg, f) == TotalOf(s.minutes, g, agg, f))
      && now.country == held.country && now.deny == held.deny && now.sig == held.sig
  {
    forall f | 0 <= f < FIELDS
      ensures TotalOf(Replayed(store, nowHour, nowMin).minutes, g, agg, f) == TotalOf(s.minutes, g, agg, f)
    {
      TotalsNonNegative(s.minutes, g, agg, f);
      StartRestoresTotals(store, s, g, nowHour, nowMin, agg, f);
    }
    StartRestoresDimensions(store, s, g, nowHour, nowMin, agg);
  }

  /** In a collector's first life, moreover, no minute of the replayed hour has more denials than
      requests. */
  lemma DeniedAfterStart(run: seq<Arrival>, store: map<int, seq<Row>>, g: int, partial: seq<Row>, was: seq<Row>,
                         nowHour: int, nowMin: int, m: int, agg: Agg)
    requires CleanRun(run) && FlushedHourOf(After(run), store, g, partial, was)
    requires nowHour - 24 < g <= nowHour && nowHour == nowMin / 60 && 60 * g <= m < 60 * g + 60
    ensures var back := Replayed(store, nowHour, nowMin).minutes;
      0 <= ValueAt(back, m, agg, DEN) <= ValueAt(back, m, agg, REQ)
  {
    var s := After(run);
    AlwaysOk(run);
    TotalsWellFormed(s, g, agg, DEN);
    FreshSound();
    RanSound(Fresh(), run);
    RanFresh(run);
    SoundFlushed(s, store, g, partial, was);
    DeniedBack(s, store, g, nowHour, nowMin, m, agg);
  }

  lemma DeniedBack(s: Table, store: map<int, seq<Row>>, g: int, nowHour: int, nowMin: int, m: int, agg: Agg)
    requires s.Shaped() && FiledByHour(store) && Flushed(s.minutes, s.hours, g, HourRows(store, g))
    requires 0 <= TotalOf(s.minutes, g, agg, DEN) <= TotalOf(s.minutes, g, agg, REQ)
    requires nowHour - 24 < g <= nowHour && 60 * g <= m < 60 * g + 60
    ensures var back := Replayed(store, nowHour, nowMin).minutes;
      0 <= ValueAt(back, m, agg, DEN) <= ValueAt(back, m, agg, REQ)
  {
    var before, after := ReplaysHour(store, g, nowHour);
    var t0 := FreshTable(g);
    DeniedWithinRequests(s.minutes, s.hours, t0, g, before, HourRows(store, g), after, nowMin, m, agg);
  }
}
