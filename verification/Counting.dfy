/** What the tables count, read off the events themselves: over any run, a minute holds for each host and
    source the sums of the events stamped in it, and an hour the tallies of its events. */
module Counting {
  import opened Ingest
  import opened OneRequest
  import opened RoundTrip
  import opened Traffic
  import opened Wrappers

  // ----- one event -----

  /** When an arrival counts: its own time if that lies within the last hour and the next minute. */
  function When(a: Arrival): int {
    if a.event.time.Some? && a.now - 3600 <= a.event.time.value <= a.now + 60 then a.event.time.value else a.now
  }

  function Minute(a: Arrival): int { When(a) / 60 }

  function Hour(a: Arrival): int { When(a) / 3600 }

  /** The latency classes: up to 5, 10, 25, 50, 100, 250, 500, 1000, 2500, 5000 and 10000 milliseconds, and
      beyond. */
  const LIMITS := [5, 10, 25, 50, 100, 250, 500, 1000, 2500, 5000, 10000]

  predicate InLatency(ms: int, b: int) {
    && 0 <= b <= 11
    && (b > 0 ==> LIMITS[b - 1] < ms)
    && (b < 11 ==> ms <= LIMITS[b])
  }

  /** The status classes: 2xx, 3xx, 4xx, 5xx and any other. */
  predicate InClass(status: int, k: int) {
    if 0 <= k < 4 then 100 * k + 200 <= status < 100 * k + 300 else k == 4 && !(200 <= status < 600)
  }

  /** What an event weighs in a counter: requests, denials, threats, bytes, five status classes, twelve
      latency classes. */
  function Weight(e: Event, f: int): int {
    if f == 0 then 1
    else if f == 1 then if e.deny != "" then 1 else 0
    else if f == 2 then if e.sig != "" then 1 else 0
    else if f == 3 then e.bytes
    else if f < 9 then if InClass(e.status, f - 4) then 1 else 0
    else if InLatency(e.durMs, f - 9) then 1 else 0
  }

  lemma {:induction false} BucketIs(ms: int, i: nat)
    requires i <= 11 && (i > 0 ==> LIMITS[i - 1] < ms)
    ensures InLatency(ms, BucketFrom(ms, i))
    decreases 11 - i
  {
    if i < 11 && ms > BOUNDS[i] { BucketIs(ms, i + 1); }
  }

  lemma OneLatency(ms: int, b: int, c: int)
    requires InLatency(ms, b) && InLatency(ms, c)
    ensures b == c
  {
    if b < c { LimitsGrow(b, c - 1); }
    if c < b { LimitsGrow(c, b - 1); }
  }

  lemma LimitsGrow(i: int, j: int)
    requires 0 <= i <= j < 11
    ensures LIMITS[i] <= LIMITS[j]
    decreases j
  {
    if i < j { LimitsGrow(i, j - 1); }
  }

  lemma ClassIs(status: int, k: int)
    requires 0 <= k < 5
    ensures InClass(status, k) <==> k == StatusClass(status)
  {
  }

  lemma DeltaWeighs(e: Event, f: int)
    requires 0 <= f < 21
    ensures Delta(e)[f] == Weight(e, f)
  {
    if f >= 4 { DeltaField(e, f); }
    if 4 <= f < 9 { ClassIs(e.status, f - 4); }
    if 9 <= f {
      BucketIs(e.durMs, 0);
      if InLatency(e.durMs, f - 9) { OneLatency(e.durMs, f - 9, DurBucket(e.durMs)); }
    }
  }

  lemma StampIsWhen(a: Arrival)
    ensures Stamp(a.event, a.now) == When(a)
  {
  }

  // ----- minutes -----

  /** The clock stands after 1970. */
  predicate Since1970(run: seq<Arrival>) {
    forall a | a in run :: When(a) >= 0
  }

  /** Some event of the run fell in a later minute that takes the same slot. */
  predicate MinuteGone(run: seq<Arrival>, m: int) {
    exists j | 0 <= j < |run| :: Minute(run[j]) > m && Minute(run[j]) % 1440 == m % 1440
  }

  lemma MinuteGoneMore(front: seq<Arrival>, a: Arrival, m: int)
    ensures MinuteGone(front + [a], m) <==> MinuteGone(front, m) || (Minute(a) > m && Minute(a) % 1440 == m % 1440)
  {
    var run := front + [a];
    if MinuteGone(front, m) {
      var j :| 0 <= j < |front| && Minute(front[j]) > m && Minute(front[j]) % 1440 == m % 1440;
      assert run[j] == front[j];
    }
    assert run[|front|] == a;
  }

  lemma {:induction false} SlotNewer(run: seq<Arrival>, m: int)
    requires Since1970(run) && m >= 0
    ensures After(run).minutes[m % 1440].minute > m <==> MinuteGone(run, m)
  {
    if run != [] {
      var front, last := run[..|run| - 1], run[|run| - 1];
      assert front + [last] == run;
      SlotNewer(front, m);
      MinuteGoneMore(front, last, m);
      StampIsWhen(last);
    }
  }

  /** The events counted in a minute for a host and source. */
  function MinuteEvents(run: seq<Arrival>, m: int, agg: Agg): seq<Event> {
    if run == [] then []
    else
      var front, last := run[..|run| - 1], run[|run| - 1];
      MinuteEvents(front, m, agg) + if Minute(last) == m
        && AggFor(After(front), last.event) == agg then [last.event] else []
  }

  function Total(events: seq<Event>, f: int): int {
    if events == [] then 0 else Total(events[..|events| - 1], f) + Weight(events[|events| - 1], f)
  }

  lemma TotalMore(events: seq<Event>, e: Event, f: int)
    ensures Total(events + [e], f) == Total(events, f) + Weight(e, f)
  {
    assert (events + [e])[..|events|] == events;
  }

  /** What a slot holds of a minute. */
  function ValueIn(slot: MinuteSlot, m: int, agg: Agg, f: int): int
    requires 0 <= f < 21
  {
    if slot.minute == m then CountsOf(slot.hosts, agg)[f] else 0
  }

  /** One more arrival, seen from one slot. */
  lemma SlotStep(t: Table, a: Arrival, i: int)
    requires t.Shaped() && 0 <= i < 1440
    ensures Ingested(t, a.event, a.now, a.mode).minutes[i]
         == if Minute(a) % 1440 == i && t.minutes[i].minute <= Minute(a)
            then Put(t.minutes[i], Minute(a), AggFor(t, a.event), Delta(a.event)) else t.minutes[i]
  {
    StampIsWhen(a);
  }

  lemma PutValue(slot: MinuteSlot, n: int, counted: Agg, e: Event, m: int, agg: Agg, f: int)
    requires 0 <= f < 21 && slot.minute <= n
    ensures ValueIn(Put(slot, n, counted, Delta(e)), m, agg, f)
         == if n == m then ValueIn(slot, m, agg, f) + (if counted == agg then Weight(e, f) else 0) else 0
  {
    DeltaWeighs(e, f);
  }

  /** One more arrival, seen from one minute. */
  lemma ValueStep(t: Table, a: Arrival, m: int, agg: Agg, f: int)
    requires t.Shaped() && 0 <= f < 21
    ensures var slot := t.minutes[m % 1440];
      ValueAt(Ingested(t, a.event, a.now, a.mode).minutes, m, agg, f)
      == if Minute(a) % 1440 != m % 1440 || slot.minute > Minute(a) then ValueIn(slot, m, agg, f)
         else if Minute(a) != m then 0
         else ValueIn(slot, m, agg, f) + if AggFor(t, a.event) == agg then Weight(a.event, f) else 0
  {
    var slot := t.minutes[m % 1440];
    SlotStep(t, a, m % 1440);
    if slot.minute <= Minute(a) { PutValue(slot, Minute(a), AggFor(t, a.event), a.event, m, agg, f); }
  }

  lemma ValueNotTaken(t: Table, a: Arrival, m: int, agg: Agg, f: int)
    requires t.Shaped() && 0 <= f < 21 && t.minutes[m % 1440].minute <= m
    requires Minute(a) > m ==> Minute(a) % 1440 != m % 1440
    ensures ValueAt(Ingested(t, a.event, a.now, a.mode).minutes, m, agg, f) == ValueAt(t.minutes, m, agg, f)
      + if Minute(a) == m && AggFor(t, a.event) == agg then Weight(a.event, f) else 0
  {
    ValueStep(t, a, m, agg, f);
    assert ValueAt(t.minutes, m, agg, f) == ValueIn(t.minutes[m % 1440], m, agg, f);
  }

  /** One more arrival, while the minute's slot is not taken. */
  lemma ValueRun(front: seq<Arrival>, last: Arrival, m: int, agg: Agg, f: int)
    requires Since1970(front + [last]) && m >= 0 && 0 <= f < 21 && !MinuteGone(front + [last], m)
    ensures !MinuteGone(front, m)
    ensures ValueAt(After(front + [last]).minutes, m, agg, f) == ValueAt(After(front).minutes, m, agg, f)
      + if Minute(last) == m && AggFor(After(front), last.event) == agg then Weight(last.event, f) else 0
  {
    var run := front + [last];
    assert run[..|run| - 1] == front && run[|run| - 1] == last;
    assert forall a | a in front :: a in run;
    MinuteGoneMore(front, last, m);
    SlotNewer(front, m);
    ValueNotTaken(After(front), last, m, agg, f);
  }

  /** The minute's slot is taken: it holds nothing of the minute. */
  lemma GoneValue(run: seq<Arrival>, m: int, agg: Agg, f: int)
    requires Since1970(run) && m >= 0 && 0 <= f < 21 && MinuteGone(run, m)
    ensures ValueAt(After(run).minutes, m, agg, f) == 0
  {
    SlotNewer(run, m);
  }

  /** Over any run, a minute holds of every counter what its events weigh; nothing once a later minute
      has taken its slot. */
  lemma {:induction false} MinuteCounts(run: seq<Arrival>, m: int, agg: Agg, f: int)
    requires Since1970(run) && m >= 0 && 0 <= f < 21
    ensures ValueAt(After(run).minutes, m, agg, f)
         == if MinuteGone(run, m) then 0 else Total(MinuteEvents(run, m, agg), f)
  {
    if MinuteGone(run, m) {
      GoneValue(run, m, agg, f);
    } else if run == [] {
      assert HostsAt(Fresh().minutes, m) == map[];
    } else {
      var front, last := run[..|run| - 1], run[|run| - 1];
      assert front + [last] == run;
      ValueRun(front, last, m, agg, f);
      MinuteCounts(front, m, agg, f);
      MinuteStep(front, last, m, agg, f);
    }
  }

  lemma MinuteStep(front: seq<Arrival>, last: Arrival, m: int, agg: Agg, f: int)
    requires 0 <= f < 21
    ensures Total(MinuteEvents(front + [last], m, agg), f) == Total(MinuteEvents(front, m, agg), f)
      + if Minute(last) == m && AggFor(After(front), last.event) == agg then Weight(last.event, f) else 0
  {
    var run := front + [last];
    assert run[..|run| - 1] == front;
    TotalMore(MinuteEvents(front, m, agg), last.event, f);
    assert MinuteEvents(front, m, agg) + [] == MinuteEvents(front, m, agg);
  }

  // ----- hosts -----

  function Named(e: Event): string { if e.host == "" then "-" else e.host }

  function Names(run: seq<Arrival>): set<string> {
    set i | 0 <= i < |run| :: Named(run[i].event)
  }

  lemma NamesMore(front: seq<Arrival>, a: Arrival)
    ensures Names(front + [a]) == Names(front) + {Named(a.event)}
  {
    var run := front + [a];
    forall n ensures n in Names(run) <==> n in Names(front) || n == Named(a.event) {
      if n in Names(front) {
        var i :| 0 <= i < |front| && Named(front[i].event) == n;
        assert run[i] == front[i];
      }
      if n == Named(a.event) { assert run[|front|] == a; }
    }
  }

  lemma HostStep(t: Table, a: Arrival)
    requires t.Shaped()
    ensures Ingested(t, a.event, a.now, a.mode).hostSet
         == if |t.hostSet| < 512 then t.hostSet + {Named(a.event)} else t.hostSet
  {
    if Named(a.event) in t.hostSet { assert t.hostSet + {Named(a.event)} == t.hostSet; }
  }

  /** As long as a run has named at most 512 hosts, each is counted under its own name. */
  lemma {:induction false} HostsTracked(run: seq<Arrival>)
    requires |Names(run)| <= 512
    ensures After(run).hostSet == Names(run)
  {
    if run != [] {
      var front, last := run[..|run| - 1], run[|run| - 1];
      assert front + [last] == run;
      NamesMore(front, last);
      SubsetSmaller(Names(front), Names(run));
      HostsTracked(front);
      HostStep(After(front), last);
      if |Names(front)| == 512 { SameNames(Names(front), Named(last.event)); }
    }
  }

  lemma SameNames(a: set<string>, n: string)
    requires |a| == 512 && |a + {n}| <= 512
    ensures a + {n} == a
  {
    if n !in a { OneMoreName(a, n); }
  }

  lemma OwnName(run: seq<Arrival>, i: nat)
    requires i < |run| && |Names(run)| <= 512
    ensures AggFor(After(run[..i]), run[i].event) == Agg(Named(run[i].event), run[i].event.src)
  {
    assert Names(run[..i]) <= Names(run) by {
      assert forall j | 0 <= j < i :: run[..i][j] == run[j];
    }
    var name := Named(run[i].event);
    assert name in Names(run);
    SubsetSmaller(Names(run[..i]), Names(run));
    HostsTracked(run[..i]);
    if name !in Names(run[..i]) {
      OneMoreName(Names(run[..i]), name);
      SubsetSmaller(Names(run[..i]) + {name}, Names(run));
    }
  }

  lemma SubsetSmaller(a: set<string>, b: set<string>)
    requires a <= b
    ensures |a| <= |b|
  {
    assert b == a + (b - a);
  }

  lemma OneMoreName(a: set<string>, n: string)
    requires n !in a
    ensures |a + {n}| == |a| + 1
  {
  }

  // ----- hours -----

  /** Some counted event of the run fell in a later hour that takes the same slot. */
  predicate HourGone(run: seq<Arrival>, h: int) {
    exists j | 0 <= j < |run| ::
      Hour(run[j]) > h && Hour(run[j]) % 25 == h % 25 && !MinuteGone(run[..j], Minute(run[j]))
  }

  lemma HourGoneMore(front: seq<Arrival>, a: Arrival, h: int)
    ensures HourGone(front + [a], h) <==>
      HourGone(front, h) || (Hour(a) > h && Hour(a) % 25 == h % 25 && !MinuteGone(front, Minute(a)))
  {
    var run := front + [a];
    assert forall j | 0 <= j < |front| :: run[j] == front[j] && run[..j] == front[..j];
    assert run[|front|] == a && run[..|front|] == front;
  }

  lemma {:induction false} HourSlotNewer(run: seq<Arrival>, h: int)
    requires Since1970(run) && h >= 0
    ensures After(run).hours[h % 25].hour > h <==> HourGone(run, h)
  {
    if run != [] {
      var front, last := run[..|run| - 1], run[|run| - 1];
      assert front + [last] == run;
      HourSlotNewer(front, h);
      SlotNewer(front, Minute(last));
      HourGoneMore(front, last, h);
      StampIsWhen(last);
    }
  }

  /** The events an hour counts for a host and source: those whose minute was not gone when they came. */
  function HourEvents(run: seq<Arrival>, h: int, agg: Agg): seq<Event> {
    if run == [] then []
    else
      var front, last := run[..|run| - 1], run[|run| - 1];
      HourEvents(front, h, agg) +
      if Hour(last) == h && !MinuteGone(front, Minute(last)) && AggFor(After(front), last.event) == agg
      then [last.event] else []
  }

  function Tally(events: seq<Event>, p: Event -> bool): int {
    if events == [] then 0
    else Tally(events[..|events| - 1], p) + if p(events[|events| - 1]) then 1 else 0
  }

  lemma TallyMore(events: seq<Event>, e: Event, p: Event -> bool)
    ensures Tally(events + [e], p) == Tally(events, p) + if p(e) then 1 else 0
  {
    assert (events + [e])[..|events|] == events;
  }

  /** The hour holds the tallies of its events: for each country its requests, denials and threats, and for
      each reason its denials. */
  ghost predicate Tallied(hh: HostHour, events: seq<Event>) {
    && (forall code :: CountryTallied(hh, events, code))
    && (forall k :: ReasonTallied(hh, events, k))
  }

  predicate CountryTallied(hh: HostHour, events: seq<Event>, code: string) {
    GetDim(hh.country, code)
    == Dim(Tally(events, (e: Event) => e.country == code),
           Tally(events, (e: Event) => e.country == code && e.deny != ""),
           Tally(events, (e: Event) => e.country == code && e.sig != ""))
  }

  predicate ReasonTallied(hh: HostHour, events: seq<Event>, k: string) {
    Get(hh.deny, k) == Tally(events, (e: Event) => e.deny != "" && e.deny == k)
  }

  lemma CountryStep(hh: HostHour, events: seq<Event>, e: Event, mode: Mode, at: int, code: string)
    requires CountryTallied(hh, events, code)
    ensures CountryTallied(Counted(hh, e, mode, at), events + [e], code)
  {
    TallyMore(events, e, (x: Event) => x.country == code);
    TallyMore(events, e, (x: Event) => x.country == code && x.deny != "");
    TallyMore(events, e, (x: Event) => x.country == code && x.sig != "");
  }

  lemma ReasonStep(hh: HostHour, events: seq<Event>, e: Event, mode: Mode, at: int, k: string)
    requires ReasonTallied(hh, events, k)
    ensures ReasonTallied(Counted(hh, e, mode, at), events + [e], k)
  {
    TallyMore(events, e, (x: Event) => x.deny != "" && x.deny == k);
  }

  /** What a slot holds of an hour. */
  function HeldOf(slot: HourSlot, h: int, agg: Agg): HostHour {
    if slot.hour == h && agg in slot.hosts then slot.hosts[agg] else NEW_HOUR
  }

  /** One more arrival, seen from one hour's slot. */
  lemma HourSlotStep(t: Table, a: Arrival, j: int)
    requires t.Shaped() && 0 <= j < 25
    ensures Ingested(t, a.event, a.now, a.mode).hours[j]
         == if t.minutes[Minute(a) % 1440].minute <= Minute(a) && Hour(a) % 25 == j && t.hours[j].hour <= Hour(a)
            then HourPut(t.hours[j], Hour(a), AggFor(t, a.event), a.event, a.mode, When(a)) else t.hours[j]
  {
    StampIsWhen(a);
  }

  lemma HeldStep(t: Table, a: Arrival, h: int, agg: Agg)
    requires t.Shaped()
    ensures var slot := t.hours[h % 25];
      Held(Ingested(t, a.event, a.now, a.mode).hours, h, agg)
      == if t.minutes[Minute(a) % 1440].minute > Minute(a) || Hour(a) % 25 != h % 25 || slot.hour > Hour(a)
         then HeldOf(slot, h, agg)
         else if Hour(a) != h then NEW_HOUR
         else if AggFor(t, a.event) == agg then Counted(HeldOf(slot, h, agg), a.event, a.mode, When(a))
         else HeldOf(slot, h, agg)
  {
    HourSlotStep(t, a, h % 25);
  }

  /** One more arrival, while the hour's slot is not taken. */
  lemma HeldRun(front: seq<Arrival>, last: Arrival, h: int, agg: Agg)
    requires Since1970(front + [last]) && h >= 0 && !HourGone(front + [last], h)
    ensures !HourGone(front, h)
    ensures Held(After(front + [last]).hours, h, agg)
         == if Hour(last) == h && !MinuteGone(front, Minute(last)) && AggFor(After(front), last.event) == agg
            then Counted(Held(After(front).hours, h, agg), last.event, last.mode, When(last))
            else Held(After(front).hours, h, agg)
  {
    var run := front + [last];
    assert run[..|run| - 1] == front && run[|run| - 1] == last;
    assert When(last) >= 0 && forall a | a in front :: a in run;
    HourGoneMore(front, last, h);
    HourSlotNewer(front, h);
    SlotNewer(front, Minute(last));
    HeldStep(After(front), last, h, agg);
    if After(front).hours[h % 25].hour < h { NothingYet(front, h, agg); }
  }

  /** The hour's slot is taken: it holds nothing of the hour. */
  lemma GoneHolds(run: seq<Arrival>, h: int, agg: Agg)
    requires Since1970(run) && h >= 0 && HourGone(run, h)
    ensures Held(After(run).hours, h, agg) == NEW_HOUR
  {
    HourSlotNewer(run, h);
  }

  /** Over any run, an hour whose slot is not taken holds exactly the tallies of its events. */
  lemma {:induction false} HourCounts(run: seq<Arrival>, h: int, agg: Agg)
    requires Since1970(run) && h >= 0
    ensures if HourGone(run, h) then Held(After(run).hours, h, agg) == NEW_HOUR
            else Tallied(Held(After(run).hours, h, agg), HourEvents(run, h, agg))
  {
    if HourGone(run, h) {
      GoneHolds(run, h, agg);
    } else if run == [] {
      assert HourHosts(Fresh().hours, h) == map[];
    } else {
      var front, last := run[..|run| - 1], run[|run| - 1];
      assert front + [last] == run;
      HeldRun(front, last, h, agg);
      HourCounts(front, h, agg);
      HourStep(front, last, h, agg);
      EventsMore(front, last, h, agg);
    }
  }

  lemma EventsMore(front: seq<Arrival>, last: Arrival, h: int, agg: Agg)
    ensures HourEvents(front + [last], h, agg)
         == if Hour(last) == h && !MinuteGone(front, Minute(last)) && AggFor(After(front), last.event) == agg
            then HourEvents(front, h, agg) + [last.event] else HourEvents(front, h, agg)
  {
    assert (front + [last])[..|front|] == front;
  }

  lemma NothingYet(front: seq<Arrival>, h: int, agg: Agg)
    requires After(front).hours[h % 25].hour < h
    ensures Held(After(front).hours, h, agg) == NEW_HOUR
  {
  }

  /** The step where the arrival counts in this hour. */
  lemma HourStep(front: seq<Arrival>, last: Arrival, h: int, agg: Agg)
    requires Tallied(Held(After(front).hours, h, agg), HourEvents(front, h, agg))
    ensures Tallied(Counted(Held(After(front).hours, h, agg), last.event, last.mode, When(last)),
                    HourEvents(front, h, agg) + [last.event])
  {
    var hh, events := Held(After(front).hours, h, agg), HourEvents(front, h, agg);
    forall code ensures CountryTallied(Counted(hh, last.event, last.mode, When(last)), events + [last.event], code) {
      CountryStep(hh, events, last.event, last.mode, When(last), code);
    }
    forall k ensures ReasonTallied(Counted(hh, last.event, last.mode, When(last)), events + [last.event], k) {
      ReasonStep(hh, events, last.event, last.mode, When(last), k);
    }
  }

  /** The signatures an hour's events carry. */
  function Labels(events: seq<Event>): set<string> {
    set i | 0 <= i < |events| && events[i].sig != "" :: events[i].sig
  }

  lemma LabelsMore(events: seq<Event>, e: Event)
    ensures Labels(events + [e]) == Labels(events) + if e.sig != "" then {e.sig} else {}
  {
    var all := events + [e];
    forall l ensures l in Labels(all) <==> l in Labels(events) || (e.sig != "" && l == e.sig) {
      if l in Labels(events) {
        var i :| 0 <= i < |events| && events[i].sig != "" && events[i].sig == l;
        assert all[i] == events[i];
      }
      if e.sig != "" && l == e.sig { assert all[|events|] == e; }
    }
  }

  /** Each signature's hits, its own. */
  ghost predicate SignaturesTallied(hh: HostHour, events: seq<Event>) {
    && hh.sig.Keys == Labels(events)
    && forall l :: SignatureTallied(hh, events, l)
  }

  predicate SignatureTallied(hh: HostHour, events: seq<Event>, l: string) {
    Get(hh.sig, l) == Tally(events, (e: Event) => e.sig != "" && e.sig == l)
  }

  lemma SignatureStep(hh: HostHour, events: seq<Event>, e: Event, mode: Mode, at: int)
    requires SignaturesTallied(hh, events) && |Labels(events + [e])| <= 63
    ensures SignaturesTallied(Counted(hh, e, mode, at), events + [e])
  {
    OwnSlot(hh, events, e);
    CountedSigs(hh, e, mode, at);
    SignaturesMore(hh, Counted(hh, e, mode, at), events, e);
  }

  lemma SignaturesMore(was: HostHour, now: HostHour, events: seq<Event>, e: Event)
    requires SignaturesTallied(was, events)
    requires now.sig == if e.sig == "" then was.sig else was.sig[e.sig := Get(was.sig, e.sig) + 1]
    ensures SignaturesTallied(now, events + [e])
  {
    LabelsMore(events, e);
    forall l ensures SignatureTallied(now, events + [e], l) {
      assert SignatureTallied(was, events, l);
      OneSignature(was.sig, now.sig, events, e, l);
    }
  }

  lemma OwnSlot(hh: HostHour, events: seq<Event>, e: Event)
    requires hh.sig.Keys == Labels(events) && |Labels(events + [e])| <= 63
    ensures e.sig == "" || e.sig in hh.sig || |hh.sig| < 63
  {
    LabelsMore(events, e);
    if e.sig != "" && e.sig !in Labels(events) { OneMoreName(Labels(events), e.sig); }
    assert |hh.sig| == |hh.sig.Keys|;
  }

  lemma OneSignature(was: map<string, int>, now: map<string, int>, events: seq<Event>, e: Event, l: string)
    requires Get(was, l) == Tally(events, (x: Event) => x.sig != "" && x.sig == l)
    requires now == if e.sig == "" then was else was[e.sig := Get(was, e.sig) + 1]
    ensures Get(now, l) == Tally(events + [e], (x: Event) => x.sig != "" && x.sig == l)
  {
    TallyMore(events, e, (x: Event) => x.sig != "" && x.sig == l);
  }

  /** A signature that is there, or for which there is room besides "other", takes its own hit. */
  lemma CountedSigs(hh: HostHour, e: Event, mode: Mode, at: int)
    ensures e.sig == "" ==> Counted(hh, e, mode, at).sig == hh.sig
    ensures e.sig != "" && (e.sig in hh.sig || |hh.sig| < 63) ==>
      Counted(hh, e, mode, at).sig == hh.sig[e.sig := Get(hh.sig, e.sig) + 1]
  {
  }

  /** As long as the events of an hour, host and source carry at most 63 signatures, none is folded into
      "other": each has exactly its own hits. */
  lemma {:induction false} SignatureCounts(run: seq<Arrival>, h: int, agg: Agg)
    requires Since1970(run) && h >= 0 && !HourGone(run, h) && |Labels(HourEvents(run, h, agg))| <= 63
    ensures SignaturesTallied(Held(After(run).hours, h, agg), HourEvents(run, h, agg))
  {
    if run == [] {
      assert HourHosts(Fresh().hours, h) == map[];
      assert NEW_HOUR.sig.Keys == Labels([]);
    } else {
      var front, last := run[..|run| - 1], run[|run| - 1];
      assert front + [last] == run;
      var was, events := Held(After(front).hours, h, agg), HourEvents(front, h, agg);
      HeldRun(front, last, h, agg);
      EventsMore(front, last, h, agg);
      LabelsMore(events, last.event);
      SubsetSmaller(Labels(events), Labels(HourEvents(run, h, agg)));
      SignatureCounts(front, h, agg);
      if HourEvents(run, h, agg) == events + [last.event] {
        SignatureStep(was, events, last.event, last.mode, When(last));
      }
    }
  }

  /** Whatever the run, the bounds: 512 hosts; and for an hour, host and source 64 signatures, 8 countries
      for each and 512 clients. */
  lemma WithinCaps(run: seq<Arrival>, h: int, agg: Agg)
    ensures |After(run).hostSet| <= 512
    ensures var hh := Held(After(run).hours, h, agg);
      |hh.sig| <= 64 && |hh.clients| <= 512 && hh.sig.Keys == hh.sigCountry.Keys
      && forall l | l in hh.sig :: |hh.sigCountry[l]| <= 8
  {
    AlwaysOk(run);
    var t := After(run);
    assert HostsOk(t.hours[h % 25].hosts);
    NewHourOk();
  }
}
