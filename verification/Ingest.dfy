/** One event folded into the bounded tables, and what the bounds conserve. */
module Ingest {
  import opened Sums
  import opened Traffic
  import opened Wrappers

  const MAX_LABELS := 64
  const MAX_COUNTRIES := 8
  const MAX_CLIENTS := 512
  const MAX_HOSTS := 512
  const STALE := 3600
  const AHEAD := 60

  datatype Mode = Persist | Memory | Off

  /** An event as the collector sees it: `country` looked up, `sig` classified, `src` the network
      source; "" where there is no host, signature or denial. Times are whole seconds. */
  datatype Event = Event(time: Option<int>, host: string, country: string, sig: string, deny: string,
                         status: int, durMs: int, bytes: int, src: string, client: Option<string>)

  datatype Table = Table(minutes: seq<MinuteSlot>, hours: seq<HourSlot>, hostSet: set<string>) {
    predicate Shaped() { |minutes| == MINUTE_SLOTS && |hours| == HOUR_SLOTS }
  }

  /** Old and future stamps count now. */
  function Stamp(e: Event, now: int): int {
    if e.time == None || now - e.time.value > STALE || e.time.value > now + AHEAD then now else e.time.value
  }

  function StatusClass(status: int): (i: int)
    ensures 0 <= i < CLASSES
  {
    if 200 <= status < 300 then 0 else if 300 <= status < 400 then 1
    else if 400 <= status < 500 then 2 else if 500 <= status < 600 then 3 else 4
  }

  const BOUNDS := [5, 10, 25, 50, 100, 250, 500, 1000, 2500, 5000, 10000]

  function BucketFrom(ms: int, i: nat): (b: int)
    requires i <= |BOUNDS|
    ensures i <= b < DURS
    decreases |BOUNDS| - i
  {
    if i == |BOUNDS| then DURS - 1 else if ms <= BOUNDS[i] then i else BucketFrom(ms, i + 1)
  }

  function DurBucket(ms: int): int { BucketFrom(ms, 0) }

  /** What the event adds to its minute. */
  function Delta(e: Event): Counts {
    seq(FIELDS, f =>
      if f == REQ then 1
      else if f == DEN then if e.deny != "" then 1 else 0
      else if f == THR then if e.sig != "" then 1 else 0
      else if f == BYTES then e.bytes
      else if f == CLASS + StatusClass(e.status) || f == DUR + DurBucket(e.durMs) then 1
      else 0)
  }

  function Get(m: map<string, int>, k: string): int { if k in m then m[k] else 0 }

  function GetDim(m: map<string, Dim>, k: string): Dim { if k in m then m[k] else Dim(0, 0, 0) }

  /** A new key past the cap is folded into "other", which the cap keeps room for. */
  function Slot<V>(m: map<string, V>, k: string, cap: int): string {
    if k !in m && |m| >= cap - 1 && k != OTHER then OTHER else k
  }

  function CountedSig(hh: HostHour, e: Event): HostHour {
    if e.sig == "" then hh
    else hh.(sig := MoreHits(hh.sig, e.sig), sigCountry := MoreCountries(hh.sig, hh.sigCountry, e.sig, e.country))
  }

  function MoreHits(sig: map<string, int>, name: string): map<string, int> {
    var l := Slot(sig, name, MAX_LABELS);
    sig[l := Get(sig, l) + 1]
  }

  function MoreCountries(sig: map<string, int>, sigCountry: map<string, map<string, int>>, name: string,
                         country: string)
    : map<string, map<string, int>>
  {
    var l := Slot(sig, name, MAX_LABELS);
    sigCountry[l := MoreIn(CountriesOf(sig, sigCountry, l), country)]
  }

  function CountriesOf(sig: map<string, int>, sigCountry: map<string, map<string, int>>, l: string): map<string, int> {
    if l in sigCountry && l in sig then sigCountry[l] else map[]
  }

  function MoreIn(countries: map<string, int>, country: string): map<string, int> {
    var c := Slot(countries, country, MAX_COUNTRIES);
    countries[c := Get(countries, c) + 1]
  }

  function CountedClient(hh: HostHour, e: Event, mode: Mode, at: int): HostHour {
    if mode == Off || e.client == None then hh
    else
      var k := e.client.value;
      if k !in hh.clients && |hh.clients| >= MAX_CLIENTS then hh
      else
        var ca := if k in hh.clients then hh.clients[k] else Client(0, 0, 0, e.country, 0, mode == Persist);
        hh.(clients := hh.clients[k := Client(ca.n + 1, ca.d + (if e.deny != "" then 1 else 0),
                                              ca.t + (if e.sig != "" then 1 else 0),
                                              ca.country, at, ca.persist && mode == Persist)])
  }

  function CountedCountry(hh: HostHour, e: Event): HostHour {
    var cc := GetDim(hh.country, e.country);
    var denied, threat := e.deny != "", e.sig != "";
    hh.(country := hh.country[e.country := Dim(cc.n + 1, cc.d + (if denied then 1 else 0),
                                               cc.t + if threat then 1 else 0)],
        deny := if denied then hh.deny[e.deny := Get(hh.deny, e.deny) + 1] else hh.deny)
  }

  function Counted(hh: HostHour, e: Event, mode: Mode, at: int): HostHour {
    CountedClient(CountedSig(CountedCountry(hh, e), e), e, mode, at)
  }

  function HostFor(hostSet: set<string>, host: string): (string, set<string>) {
    var host := if host == "" then NO_HOST else host;
    if host in hostSet then (host, hostSet)
    else if |hostSet| >= MAX_HOSTS then (NO_HOST, hostSet)
    else (host, hostSet + {host})
  }

  function HourPut(slot: HourSlot, hr: int, agg: Agg, e: Event, mode: Mode, at: int): HourSlot {
    var hosts := if slot.hour == hr then slot.hosts else map[];
    var hh := if agg in hosts then hosts[agg] else NEW_HOUR;
    HourSlot(hr, hosts[agg := Counted(hh, e, mode, at)])
  }

  /** The tables after one event. A slot that already holds a newer minute drops the event, and so
      does one that holds a newer hour. */
  function Ingested(t: Table, e: Event, now: int, mode: Mode): (r: Table)
    requires t.Shaped()
    ensures r.Shaped()
  {
    var at := Stamp(e, now);
    var (host, hostSet) := HostFor(t.hostSet, e.host);
    var agg, min, hr := Agg(host, e.src), at / 60, at / 3600;
    var i, j := min % MINUTE_SLOTS, hr % HOUR_SLOTS;
    if t.minutes[i].minute > min then t.(hostSet := hostSet)
    else
      var minutes := t.minutes[i := Put(t.minutes[i], min, agg, Delta(e))];
      if t.hours[j].hour > hr then Table(minutes, t.hours, hostSet)
      else Table(minutes, t.hours[j := HourPut(t.hours[j], hr, agg, e, mode, at)], hostSet)
  }

  // ----- what the bounds keep -----

  ghost function SumOf(m: map<string, int>): int {
    Over(m.Keys, k => Get(m, k))
  }

  ghost function SumThreats(m: map<string, Dim>): int {
    Over(m.Keys, k => GetDim(m, k).t)
  }

  ghost function SumDenied(m: map<string, Dim>): int {
    Over(m.Keys, k => GetDim(m, k).d)
  }

  /** Within its cap, with room for "other" until "other" is there. */
  ghost predicate Capped<V>(m: map<string, V>, cap: int) {
    |m| <= cap && (|m| == cap ==> OTHER in m)
  }

  ghost predicate SigOk(hh: HostHour) {
    Capped(hh.sig, MAX_LABELS) && LabelsOk(hh.sig, hh.sigCountry)
  }

  /** Each label's countries are capped and add up to its hits. */
  ghost predicate LabelsOk(sig: map<string, int>, sigCountry: map<string, map<string, int>>) {
    && sig.Keys == sigCountry.Keys
    && forall l | l in sig :: Capped(sigCountry[l], MAX_COUNTRIES) && SumOf(sigCountry[l]) == sig[l]
  }

  /** The bounds and what they conserve: signature hits are the countries' threats, each label's
      country hits are the label's, denial reasons are the countries' denials. */
  ghost predicate HourOk(hh: HostHour) {
    && SigOk(hh) && |hh.clients| <= MAX_CLIENTS
    && SumOf(hh.sig) == SumThreats(hh.country)
    && SumOf(hh.deny) == SumDenied(hh.country)
  }

  function Field(c: Counts, f: int): int { if 0 <= f < FIELDS then c[f] else 0 }

  /** Every request is in one status class and one latency bucket; denials and threats are requests. */
  ghost predicate MinuteOk(c: Counts) {
    && 0 <= c[DEN] <= c[REQ] && 0 <= c[THR] <= c[REQ]
    && Range(CLASS, CLASS + CLASSES, f => Field(c, f)) == c[REQ]
    && Range(DUR, DUR + DURS, f => Field(c, f)) == c[REQ]
    && forall f | 0 <= f < FIELDS && f != BYTES :: 0 <= c[f]
  }

  ghost predicate TableOk(t: Table) {
    && t.Shaped() && |t.hostSet| <= MAX_HOSTS
    && HoursOk(t.hours) && MinutesOk(t.minutes)
  }

  ghost predicate MinutesOk(minutes: seq<MinuteSlot>) {
    forall i, a | 0 <= i < |minutes| && a in minutes[i].hosts :: MinuteOk(minutes[i].hosts[a])
  }

  ghost predicate HoursOk(hours: seq<HourSlot>) {
    forall i | 0 <= i < |hours| :: HostsOk(hours[i].hosts)
  }

  ghost predicate HostsOk(hosts: map<Agg, HostHour>) {
    forall a | a in hosts :: HourOk(hosts[a])
  }

  lemma SumUpdate(m: map<string, int>, k: string, v: int)
    ensures SumOf(m[k := v]) == SumOf(m) - Get(m, k) + v
  {
    assert m[k := v].Keys == m.Keys + {k};
    OverUpdate(m.Keys, x => Get(m, x), x => Get(m[k := v], x), k);
  }

  lemma DimUpdate(m: map<string, Dim>, k: string, v: Dim)
    ensures SumThreats(m[k := v]) == SumThreats(m) - GetDim(m, k).t + v.t
    ensures SumDenied(m[k := v]) == SumDenied(m) - GetDim(m, k).d + v.d
  {
    assert m[k := v].Keys == m.Keys + {k};
    OverUpdate(m.Keys, x => GetDim(m, x).t, x => GetDim(m[k := v], x).t, k);
    OverUpdate(m.Keys, x => GetDim(m, x).d, x => GetDim(m[k := v], x).d, k);
  }

  lemma SlotCapped<V>(m: map<string, V>, k: string, cap: int, v: V)
    requires Capped(m, cap) && cap >= 2
    ensures Capped(m[Slot(m, k, cap) := v], cap)
  {
    var s := Slot(m, k, cap);
    assert m[s := v].Keys == m.Keys + {s};
    assert |m[s := v]| == |m[s := v].Keys| && |m| == |m.Keys|;
  }

  lemma CountryOk(hh: HostHour, e: Event)
    requires HourOk(hh)
    ensures var c := CountedCountry(hh, e);
      && SigOk(c) && c.clients == hh.clients && c.sig == hh.sig && SumOf(c.deny) == SumDenied(c.country)
      && SumThreats(c.country) == SumOf(hh.sig) + if e.sig != "" then 1 else 0
  {
    DimUpdate(hh.country, e.country, CountedCountry(hh, e).country[e.country]);
    DenyOk(hh, e);
  }

  lemma DenyOk(hh: HostHour, e: Event)
    ensures SumOf(CountedCountry(hh, e).deny) == SumOf(hh.deny) + if e.deny != "" then 1 else 0
  {
    if e.deny != "" { SumUpdate(hh.deny, e.deny, Get(hh.deny, e.deny) + 1); }
  }

  lemma CountedSigOk(hh: HostHour, e: Event)
    requires SigOk(hh)
    ensures var c := CountedSig(hh, e);
      SigOk(c) && SumOf(c.sig) == SumOf(hh.sig) + (if e.sig != "" then 1 else 0)
      && c.country == hh.country && c.deny == hh.deny && c.clients == hh.clients
  {
    if e.sig != "" { SigCounted(hh.sig, hh.sigCountry, e.sig, e.country); }
  }

  lemma SigCounted(sig: map<string, int>, sigCountry: map<string, map<string, int>>, name: string, country: string)
    requires Capped(sig, MAX_LABELS) && LabelsOk(sig, sigCountry)
    ensures Capped(MoreHits(sig, name), MAX_LABELS) && SumOf(MoreHits(sig, name)) == SumOf(sig) + 1
    ensures LabelsOk(MoreHits(sig, name), MoreCountries(sig, sigCountry, name, country))
  {
    var l := Slot(sig, name, MAX_LABELS);
    LabelCounted(sig, name);
    LabelCountries(sig, sigCountry, l);
    CountriesOk(CountriesOf(sig, sigCountry, l), country);
    LabelAdded(sig, sigCountry, l, Get(sig, l) + 1, MoreIn(CountriesOf(sig, sigCountry, l), country));
  }

  lemma LabelCountries(sig: map<string, int>, sigCountry: map<string, map<string, int>>, l: string)
    requires LabelsOk(sig, sigCountry)
    ensures Capped(CountriesOf(sig, sigCountry, l), MAX_COUNTRIES)
      && SumOf(CountriesOf(sig, sigCountry, l)) == Get(sig, l)
  {
    NoSum();
  }

  lemma NoSum()
    ensures SumOf(map[]) == 0
  {
  }

  lemma LabelCounted(sig: map<string, int>, name: string)
    requires Capped(sig, MAX_LABELS)
    ensures Capped(MoreHits(sig, name), MAX_LABELS) && SumOf(MoreHits(sig, name)) == SumOf(sig) + 1
  {
    var l := Slot(sig, name, MAX_LABELS);
    SumUpdate(sig, l, Get(sig, l) + 1);
    SlotCapped(sig, name, MAX_LABELS, Get(sig, l) + 1);
  }

  lemma LabelAdded(sig: map<string, int>, sigCountry: map<string, map<string, int>>, l: string, n: int,
                   countries: map<string, int>)
    requires LabelsOk(sig, sigCountry) && Capped(countries, MAX_COUNTRIES) && SumOf(countries) == n
    ensures LabelsOk(sig[l := n], sigCountry[l := countries])
  {
  }

  /** A label's countries take one hit more. */
  lemma CountriesOk(countries: map<string, int>, country: string)
    requires Capped(countries, MAX_COUNTRIES)
    ensures Capped(MoreIn(countries, country), MAX_COUNTRIES)
      && SumOf(MoreIn(countries, country)) == SumOf(countries) + 1
  {
    var k := Slot(countries, country, MAX_COUNTRIES);
    SumUpdate(countries, k, Get(countries, k) + 1);
    SlotCapped(countries, country, MAX_COUNTRIES, Get(countries, k) + 1);
  }

  lemma CountedOk(hh: HostHour, e: Event, mode: Mode, at: int)
    requires HourOk(hh)
    ensures HourOk(Counted(hh, e, mode, at))
  {
    CountryOk(hh, e);
    CountedSigOk(CountedCountry(hh, e), e);
    ClientOk(CountedSig(CountedCountry(hh, e), e), e, mode, at);
  }

  lemma ClientOk(hh: HostHour, e: Event, mode: Mode, at: int)
    requires |hh.clients| <= MAX_CLIENTS
    ensures var c := CountedClient(hh, e, mode, at);
      |c.clients| <= MAX_CLIENTS && c.sig == hh.sig && c.sigCountry == hh.sigCountry && c.country == hh.country
        && c.deny == hh.deny
  {
    if mode != Off && e.client.Some? {
      var k, c := e.client.value, CountedClient(hh, e, mode, at);
      if k in c.clients { OneMoreClient(hh.clients, k, c.clients[k]); }
    }
  }

  lemma OneMoreClient(m: map<string, Client>, k: string, v: Client)
    ensures |m[k := v]| == if k in m then |m| else |m| + 1
  {
    assert m[k := v].Keys == m.Keys + {k};
    assert |m[k := v]| == |m[k := v].Keys| && |m| == |m.Keys|;
  }

  lemma NewHourOk()
    ensures HourOk(NEW_HOUR)
  {
    assert NEW_HOUR.sig.Keys == {};
  }

  lemma RangePlus(c: Counts, d: Counts, lo: int, hi: int)
    requires 0 <= lo <= hi <= FIELDS
    ensures Range(lo, hi, f => Field(Plus(c, d), f))
      == Range(lo, hi, f => Field(c, f)) + Range(lo, hi, f => Field(d, f))
  {
    assert forall f | lo <= f < hi :: Field(Plus(c, d), f) == Field(c, f) + Field(d, f);
    RangeAdd(lo, hi, f => Field(c, f), f => Field(d, f),
             f => Field(Plus(c, d), f));
  }

  lemma DeltaField(e: Event, f: int)
    requires CLASS <= f < FIELDS
    ensures Field(Delta(e), f) == if f == CLASS + StatusClass(e.status) || f == DUR + DurBucket(e.durMs) then 1 else 0
  {
  }

  lemma DeltaOk(e: Event)
    ensures MinuteOk(Delta(e))
  {
    var g := (f: int) => Field(Delta(e), f);
    forall f | CLASS <= f < FIELDS
      ensures g(f) == if f == CLASS + StatusClass(e.status) || f == DUR + DurBucket(e.durMs) then 1 else 0
    {
      DeltaField(e, f);
    }
    RangeOnly(CLASS, CLASS + CLASSES, g, CLASS + StatusClass(e.status));
    RangeOnly(DUR, DUR + DURS, g, DUR + DurBucket(e.durMs));
  }

  lemma PlusOk(c: Counts, d: Counts)
    requires MinuteOk(c) && MinuteOk(d)
    ensures MinuteOk(Plus(c, d))
  {
    RangePlus(c, d, CLASS, CLASS + CLASSES);
    RangePlus(c, d, DUR, DUR + DURS);
  }

  lemma ZeroOk()
    ensures MinuteOk(ZERO)
  {
    var g := (f: int) => Field(ZERO, f);
    RangeZero(CLASS, CLASS + CLASSES, g);
    RangeZero(DUR, DUR + DURS, g);
  }

  lemma IngestedOk(t: Table, e: Event, now: int, mode: Mode)
    requires TableOk(t)
    ensures TableOk(Ingested(t, e, now, mode))
  {
    var at := Stamp(e, now);
    var agg := Agg(HostFor(t.hostSet, e.host).0, e.src);
    var i, j := at / 60 % MINUTE_SLOTS, at / 3600 % HOUR_SLOTS;
    HostForOk(t.hostSet, e.host);
    DeltaOk(e);
    PutOk(t.minutes, i, at / 60, agg, Delta(e));
    HourPutOk(t.hours, j, at / 3600, agg, e, mode, at);
    IngestedSlots(t, e, now, mode);
    SlotsOk(t, Put(t.minutes[i], at / 60, agg, Delta(e)), i, HourPut(t.hours[j], at / 3600, agg, e, mode, at), j,
            Ingested(t, e, now, mode));
  }

  /** An event writes at most one slot of each table. */
  lemma IngestedSlots(t: Table, e: Event, now: int, mode: Mode)
    requires t.Shaped()
    ensures var at, out := Stamp(e, now), Ingested(t, e, now, mode);
      var agg := Agg(HostFor(t.hostSet, e.host).0, e.src);
      var i, j := at / 60 % MINUTE_SLOTS, at / 3600 % HOUR_SLOTS;
      && out.hostSet == HostFor(t.hostSet, e.host).1
      && (out.minutes == t.minutes || out.minutes == t.minutes[i := Put(t.minutes[i], at / 60, agg, Delta(e))])
      && (out.hours == t.hours || out.hours == t.hours[j := HourPut(t.hours[j], at / 3600, agg, e, mode, at)])
  {
  }

  lemma SlotsOk(t: Table, slot: MinuteSlot, i: int, hour: HourSlot, j: int, out: Table)
    requires TableOk(t) && out.Shaped() && 0 <= i < MINUTE_SLOTS && 0 <= j < HOUR_SLOTS && |out.hostSet| <= MAX_HOSTS
    requires MinutesOk(t.minutes[i := slot]) && HoursOk(t.hours[j := hour])
    requires out.minutes == t.minutes || out.minutes == t.minutes[i := slot]
    requires out.hours == t.hours || out.hours == t.hours[j := hour]
    ensures TableOk(out)
  {
  }

  lemma HostForOk(hostSet: set<string>, host: string)
    requires |hostSet| <= MAX_HOSTS
    ensures |HostFor(hostSet, host).1| <= MAX_HOSTS
  {
  }

  lemma PutOk(minutes: seq<MinuteSlot>, i: int, m: int, agg: Agg, c: Counts)
    requires 0 <= i < |minutes| && MinutesOk(minutes) && MinuteOk(c)
    ensures MinutesOk(minutes[i := Put(minutes[i], m, agg, c)])
  {
    ZeroOk();
    var hosts := if minutes[i].minute == m then minutes[i].hosts else map[];
    PlusOk(CountsOf(hosts, agg), c);
  }

  lemma HourPutOk(hours: seq<HourSlot>, j: int, hr: int, agg: Agg, e: Event, mode: Mode, at: int)
    requires 0 <= j < |hours| && HoursOk(hours)
    ensures HoursOk(hours[j := HourPut(hours[j], hr, agg, e, mode, at)])
  {
    NewHourOk();
    var hosts := if hours[j].hour == hr then hours[j].hosts else map[];
    assert HostsOk(hosts);
    var hh := if agg in hosts then hosts[agg] else NEW_HOUR;
    CountedOk(hh, e, mode, at);
    HostAdded(hosts, agg, Counted(hh, e, mode, at));
  }

  lemma HostAdded(hosts: map<Agg, HostHour>, agg: Agg, hh: HostHour)
    requires HostsOk(hosts) && HourOk(hh)
    ensures HostsOk(hosts[agg := hh])
  {
  }

  // ----- runs -----

  datatype Arrival = Arrival(event: Event, now: int, mode: Mode)

  /** The tables after a run from a new collector. */
  function After(run: seq<Arrival>): (t: Table)
    ensures t.Shaped()
  {
    if run == [] then Fresh()
    else
      var last := run[|run| - 1];
      Ingested(After(run[..|run| - 1]), last.event, last.now, last.mode)
  }

  function Fresh(): (t: Table)
    ensures t.Shaped()
  {
    Table(seq(MINUTE_SLOTS, _ => MinuteSlot(0, map[])), seq(HOUR_SLOTS, _ => HourSlot(0, map[])), {})
  }

  /** Capped aggregates still conserve, after any run. */
  lemma {:induction false} AlwaysOk(run: seq<Arrival>)
    ensures TableOk(After(run))
  {
    if run != [] {
      var last := run[|run| - 1];
      AlwaysOk(run[..|run| - 1]);
      IngestedOk(After(run[..|run| - 1]), last.event, last.now, last.mode);
    }
  }
}
