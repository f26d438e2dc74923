/** The analytics collector: bounded tables updated in place, flushed to a store of hourly rows,
    replayed from it, and read by reports. */
module Collector {
  import opened Agreement
  import opened Ingest
  import opened Replay
  import opened Report
  import opened RoundTrip
  import opened Sums
  import opened Traffic

  const ROW_BUDGET := 200000

  /** The store's rows of the hours from lo on, hour by hour. */
  function ReadHours(store: map<int, seq<Row>>, lo: int, hi: int): seq<Row>
    decreases hi - lo
  {
    if lo >= hi then [] else ReadHours(store, lo, hi - 1) + HourRows(store, hi - 1)
  }

  function HourRows(store: map<int, seq<Row>>, h: int): seq<Row> {
    if h in store then store[h] else []
  }

  // ----- rendering: which rows each piece yields -----

  predicate CountsRow(h: int, agg: Agg, c: Counts, r: Row) {
    r.hour == h && r.agg == agg &&
    match r.kind
    case Total => r == Row(h, agg, Total, "", c[REQ], c[DEN], c[THR], c[BYTES])
    case Status =>
      var i := StatusIndex(r.key); c[CLASS + i] > 0 && r == Row(h, agg, Status, StatusKey(i), c[CLASS + i], 0, 0, 0)
    case Latency =>
      var i := DurIndex(r.key); c[DUR + i] > 0 && r == Row(h, agg, Latency, DurKey(i), c[DUR + i], 0, 0, 0)
    case _ => false
  }

  predicate DimRow(h: int, hosts: map<Agg, HostHour>, kind: Kind, r: Row) {
    r.hour == h && r.kind == kind && RenderedDims(hosts, r)
  }

  lemma DistinctJoin<T>(a: seq<T>, b: seq<T>)
    requires Distinct(a) && Distinct(b) && forall x :: !(x in a && x in b)
    ensures Distinct(a + b)
  {
    var ab := a + b;
    forall i, j | 0 <= i < j < |ab| ensures ab[i] != ab[j] {
      if i < |a| <= j { assert ab[i] in a && ab[j] in b; }
    }
  }

  ghost predicate Seen(minutes: seq<MinuteSlot>, lo: int, hi: int, agg: Agg)
    requires |minutes| == MINUTE_SLOTS
  {
    exists m | lo <= m < hi :: agg in HostsAt(minutes, m)
  }

  lemma SeenMore(minutes: seq<MinuteSlot>, lo: int, m: int)
    requires |minutes| == MINUTE_SLOTS && lo <= m
    ensures forall a :: Seen(minutes, lo, m + 1, a) <==> Seen(minutes, lo, m, a) || a in HostsAt(minutes, m)
  {
  }

  function MergedAt<V>(a: map<Agg, V>, b: map<Agg, V>, add: (V, V) -> V, k: Agg): V
    requires k in a || k in b
  {
    if k !in b then a[k] else if k in a then add(a[k], b[k]) else b[k]
  }

  ghost predicate IsMerge<V>(a: map<Agg, V>, b: map<Agg, V>, add: (V, V) -> V, c: map<Agg, V>) {
    && (forall k :: k in c <==> k in a || k in b)
    && (forall k | k in c :: c[k] == MergedAt(a, b, add, k))
  }

  method MergeInto<V>(a: map<Agg, V>, b: map<Agg, V>, add: (V, V) -> V) returns (c: map<Agg, V>)
    ensures IsMerge(a, b, add, c)
  {
    c := a;
    var todo := b.Keys;
    while todo != {}
      invariant forall k | k in todo :: k in b
      invariant forall k :: k in c <==> k in a || (k in b && k !in todo)
      invariant forall k | k in a && (k in todo || k !in b) :: c[k] == a[k]
      invariant forall k | k in b && k !in todo :: c[k] == MergedAt(a, b, add, k)
      decreases |todo|
    {
      var k :| k in todo;
      c := c[k := if k in c then add(c[k], b[k]) else b[k]];
      todo := todo - {k};
    }
  }

  lemma MergeCounts(a: map<Agg, Counts>, b: map<Agg, Counts>, c: map<Agg, Counts>, k: Agg, f: int)
    requires 0 <= f < FIELDS && IsMerge(a, b, Plus, c)
    ensures CountsOf(c, k)[f] == CountsOf(a, k)[f] + CountsOf(b, k)[f]
  {
  }

  /** The budget keeps the front of the rows, most important first. */
  function Budgeted(full: seq<Row>): seq<Row> {
    if |full| > ROW_BUDGET then full[..ROW_BUDGET] else full
  }

  /** How early a row is cut: clients first, then the countries of signatures, signatures, countries. */
  function Tier(partial: seq<Row>, r: Row): nat {
    if r in partial then if r.kind == ClientKind then 4 else 3
    else match r.kind
      case Country => 1
      case Signature => 2
      case _ => 0
  }

  predicate Ranked(partial: seq<Row>, rows: seq<Row>) {
    forall i, j | 0 <= i <= j < |rows| :: Tier(partial, rows[i]) <= Tier(partial, rows[j])
  }

  lemma RankedAlike(partial: seq<Row>, rows: seq<Row>, tier: nat)
    requires forall r | r in rows :: Tier(partial, r) == tier
    ensures Ranked(partial, rows)
  {
    forall i, j | 0 <= i <= j < |rows| ensures Tier(partial, rows[i]) <= Tier(partial, rows[j]) {
      assert rows[i] in rows && rows[j] in rows;
    }
  }

  lemma RankedJoin(partial: seq<Row>, a: seq<Row>, b: seq<Row>, lo: nat, hi: nat)
    requires Ranked(partial, a) && Ranked(partial, b) && lo <= hi
    requires forall r | r in a :: Tier(partial, r) <= lo
    requires forall r | r in b :: lo <= Tier(partial, r) <= hi
    ensures Ranked(partial, a + b) && forall r | r in a + b :: Tier(partial, r) <= hi
  {
    var ab := a + b;
    forall i, j | 0 <= i <= j < |ab| ensures Tier(partial, ab[i]) <= Tier(partial, ab[j]) {
      if i < |a| <= j { assert ab[i] in a && ab[j] in b; }
    }
  }

  class Collector {
    const minutes: array<MinuteSlot>
    const hours: array<HourSlot>
    var hostSet: set<string>
    var flushed: int
    var store: map<int, seq<Row>>

    ghost predicate Valid()
      reads this
    {
      minutes.Length == MINUTE_SLOTS && hours.Length == HOUR_SLOTS
    }

    ghost function Contents(): (t: Table)
      requires Valid()
      reads this, minutes, hours
      ensures t.Shaped()
    {
      Table(minutes[..], hours[..], hostSet)
    }

    constructor (store: map<int, seq<Row>>)
      ensures Valid() && fresh(minutes) && fresh(hours) && Contents() == Fresh() && flushed == 0 && this.store == store
    {
      minutes := new MinuteSlot[MINUTE_SLOTS](_ => MinuteSlot(0, map[]));
      hours := new HourSlot[HOUR_SLOTS](_ => HourSlot(0, map[]));
      hostSet, flushed, this.store := {}, 0, store;
      new;
      assert minutes[..] == Fresh().minutes && hours[..] == Fresh().hours;
    }

    // ----- ingest -----

    method HostSlot(named: string) returns (host: string)
      modifies this`hostSet
      ensures (host, hostSet) == HostFor(old(hostSet), named)
    {
      host := if named == "" then NO_HOST else named;
      if host !in hostSet {
        if |hostSet| >= MAX_HOSTS { return NO_HOST; }
        hostSet := hostSet + {host};
      }
    }

    /** Folds counters into a minute's slot, unless it holds a newer minute. */
    method CountMinute(min: int, agg: Agg, c: Counts) returns (dropped: bool)
      requires Valid()
      modifies minutes
      ensures dropped == (old(minutes[..])[min % MINUTE_SLOTS].minute > min)
      ensures minutes[..] == if dropped then old(minutes[..])
        else old(minutes[..])[min % MINUTE_SLOTS := Put(old(minutes[..])[min % MINUTE_SLOTS], min, agg, c)]
    {
      var i := min % MINUTE_SLOTS;
      if minutes[i].minute != min {
        if minutes[i].minute > min { return true; }
        minutes[i] := MinuteSlot(min, map[]);
      }
      minutes[i] := MinuteSlot(min, minutes[i].hosts[agg := Plus(CountsOf(minutes[i].hosts, agg), c)]);
      return false;
    }

    method CountHour(hr: int, agg: Agg, e: Event, mode: Mode, at: int)
      requires Valid()
      modifies hours
      ensures var was := old(hours[..]); var j := hr % HOUR_SLOTS;
        hours[..] == if was[j].hour > hr then was else was[j := HourPut(was[j], hr, agg, e, mode, at)]
    {
      var j := hr % HOUR_SLOTS;
      if hours[j].hour != hr {
        if hours[j].hour > hr { return; }
        hours[j] := HourSlot(hr, map[]);
      }
      var hh := if agg in hours[j].hosts then hours[j].hosts[agg] else NEW_HOUR;
      hours[j] := HourSlot(hr, hours[j].hosts[agg := Counted(hh, e, mode, at)]);
    }

    method Ingest(e: Event, now: int, mode: Mode)
      requires Valid()
      modifies this`hostSet, minutes, hours
      ensures Contents() == Ingested(old(Contents()), e, now, mode)
    {
      var at := Stamp(e, now);
      var host := HostSlot(e.host);
      var dropped := CountMinute(at / 60, Agg(host, e.src), Delta(e));
      if dropped { return; }
      CountHour(at / 3600, Agg(host, e.src), e, mode, at);
    }

    // ----- flush -----

    method HourTotals(h: int) returns (totals: map<Agg, Counts>)
      requires Valid()
      ensures forall a :: a in totals <==> Present(minutes[..], h, a)
      ensures forall a, f | 0 <= f < FIELDS :: CountsOf(totals, a)[f] == TotalOf(minutes[..], h, a, f)
    {
      totals := map[];
      ghost var ms := minutes[..];
      var m := 60 * h;
      while m < 60 * h + 60
        invariant 60 * h <= m <= 60 * h + 60
        invariant forall a :: a in totals <==> Seen(ms, 60 * h, m, a)
        invariant forall a, f | 0 <= f < FIELDS :: CountsOf(totals, a)[f] == Range(60 * h, m, k => ValueAt(ms, k, a, f))
      {
        SeenMore(ms, 60 * h, m);
        totals := AddMinuteTotals(totals, m);
        m := m + 1;
      }
    }

    method AddMinuteTotals(before: map<Agg, Counts>, m: int) returns (totals: map<Agg, Counts>)
      requires Valid()
      ensures forall a :: a in totals <==> a in before || a in HostsAt(minutes[..], m)
      ensures forall a, f | 0 <= f < FIELDS ::
                CountsOf(totals, a)[f] == CountsOf(before, a)[f] + ValueAt(minutes[..], m, a, f)
    {
      var slot := minutes[m % MINUTE_SLOTS];
      if slot.minute != m { return before; }
      totals := MergeInto(before, slot.hosts, Plus);
      forall a, f | 0 <= f < FIELDS
        ensures CountsOf(totals, a)[f] == CountsOf(before, a)[f] + ValueAt(minutes[..], m, a, f)
      {
        MergeCounts(before, slot.hosts, totals, a, f);
      }
    }

    method CountsRows(h: int, agg: Agg, c: Counts) returns (rows: seq<Row>)
      ensures Distinct(rows) && forall r :: r in rows <==> CountsRow(h, agg, c, r)
    {
      rows := [Row(h, agg, Total, "", c[REQ], c[DEN], c[THR], c[BYTES])];
      for i := 0 to CLASSES
        invariant Distinct(rows)
        invariant forall r ::
                    r in rows <==>
                      CountsRow(h, agg, c, r) && (r.kind == Total || (r.kind == Status && StatusIndex(r.key) < i))
      {
        StatusRoundTrip(i);
        if c[CLASS + i] > 0 { rows := rows + [Row(h, agg, Status, StatusKey(i), c[CLASS + i], 0, 0, 0)]; }
      }
      for i := 0 to DURS
        invariant Distinct(rows)
        invariant forall r :: r in rows <==> CountsRow(h, agg, c, r) && (r.kind != Latency || DurIndex(r.key) < i)
      {
        DurRoundTrip(i);
        if c[DUR + i] > 0 { rows := rows + [Row(h, agg, Latency, DurKey(i), c[DUR + i], 0, 0, 0)]; }
      }
    }

    method TotalsRows(h: int, totals: map<Agg, Counts>) returns (rows: seq<Row>)
      ensures Distinct(rows) && forall r :: r in rows <==> r.agg in totals && CountsRow(h, r.agg, totals[r.agg], r)
    {
      rows := [];
      var todo := totals.Keys;
      while todo != {}
        invariant todo <= totals.Keys && Distinct(rows)
        invariant forall r :: r in rows <==> r.agg in totals && r.agg !in todo && CountsRow(h, r.agg, totals[r.agg], r)
        decreases |todo|
      {
        var agg :| agg in todo;
        var part := CountsRows(h, agg, totals[agg]);
        DistinctJoin(rows, part);
        rows := rows + part;
        todo := todo - {agg};
      }
    }

    /** The rows of one dimension of every host and source. */
    method DimRows(h: int, hosts: map<Agg, HostHour>, kind: Kind) returns (rows: seq<Row>)
      requires kind == Deny || kind == Country || kind == Signature
      ensures Distinct(rows) && forall r :: r in rows <==> DimRow(h, hosts, kind, r)
    {
      rows := [];
      var todo := hosts.Keys;
      while todo != {}
        invariant forall a | a in todo :: a in hosts
        invariant Distinct(rows) && forall r :: r in rows <==> DimRow(h, hosts, kind, r) && r.agg !in todo
        decreases |todo|
      {
        var agg :| agg in todo;
        var part := HostDimRows(h, agg, hosts[agg], kind);
        HostPart(h, hosts, agg, kind);
        DistinctJoin(rows, part);
        rows := rows + part;
        todo := todo - {agg};
      }
    }

    method HostDimRows(h: int, agg: Agg, hh: HostHour, kind: Kind) returns (rows: seq<Row>)
      requires kind == Deny || kind == Country || kind == Signature
      ensures Distinct(rows) && forall r :: r in rows <==> HostDimRow(h, agg, hh, kind, r)
    {
      rows := [];
      var keys := DimKeys(hh, kind);
      var todo := keys;
      while todo != {}
        invariant todo <= keys
        invariant Distinct(rows) && forall r :: r in rows <==> HostDimRow(h, agg, hh, kind, r) && r.key !in todo
        decreases |todo|
      {
        var k :| k in todo;
        var v := DimAt(hh, kind, k);
        rows := rows + [Row(h, agg, kind, k, v.n, v.d, v.t, 0)];
        todo := todo - {k};
      }
    }

    /** One hour's rows, totals and denials first; `partial` are the signature-country and client rows
        chosen for the hour. */
    method RowsForHour(h: int, partial: seq<Row>) returns (rows: seq<Row>, ghost full: seq<Row>)
      requires Valid() && Chosen(minutes[..], hours[..], h, partial)
      ensures CutByTier(minutes[..], hours[..], h, partial, rows)
      ensures rows == Budgeted(full) && IsFull(minutes[..], hours[..], h, partial, full)
    {
      var totals := HourTotals(h);
      var tier0 := TotalsRows(h, totals);
      var slot := hours[h % HOUR_SLOTS];
      var hosts := if slot.hour == h then slot.hosts else map[];
      var denials := DimRows(h, hosts, Deny);
      var countries := DimRows(h, hosts, Country);
      var signatures := DimRows(h, hosts, Signature);
      rows := tier0 + denials + countries + signatures + partial;
      full := rows;
      if |rows| > ROW_BUDGET { rows := rows[..ROW_BUDGET]; }
      TiersRendered(minutes[..], hours[..], h, totals, tier0, denials, countries, signatures, partial);
      BudgetCutsByTier(minutes[..], hours[..], h, partial, full);
    }

    method FlushHour(h: int, partial: seq<Row>, accepted: bool)
      requires Valid() && Chosen(minutes[..], hours[..], h, partial)
      modifies this`store
      ensures forall k | k != h || !accepted :: HourRows(store, k) == HourRows(old(store), k)
      ensures accepted ==> WrittenHour(minutes[..], hours[..], h, partial, HourRows(old(store), h), HourRows(store, h))
    {
      var rows, full := RowsForHour(h, partial);
      assert WrittenHour(minutes[..], hours[..], h, partial, HourRows(store, h),
                         if rows == [] then HourRows(store, h) else rows);
      if rows != [] && accepted { store := store[h := rows]; }
    }

    /** Prunes, then writes every completed hour since the last flush, and the running one when
        forced; `partial` chooses an hour's partial rows and `accepts` says whether the store takes
        the hour. */
    method MaybeFlush(nowHour: int, force: bool, enabled: bool, retentionDays: int, partial: int -> seq<Row>,
                      accepts: int -> bool)
      requires Valid()
      requires forall h :: Chosen(minutes[..], hours[..], h, partial(h))
      modifies this`store, this`flushed
      ensures Flushes(Tick(nowHour, force, enabled, retentionDays, minutes[..], hours[..], partial, accepts),
                      old(flushed), old(store), flushed, store)
    {
      store := Pruned(store, nowHour, enabled, retentionDays);
      ghost var pruned := store;
      var first := if flushed == 0 then nowHour - 1 else flushed + 1;
      var h := first;
      var end := if force then nowHour + 1 else nowHour;
      if h >= nowHour && force { h := nowHour; }
      ghost var from := h;
      while h < end
        invariant from <= h && (h <= end || h == from)
        invariant flushed == old(flushed)
        invariant forall k :: !(from <= k < h) || !accepts(k) ==> HourRows(store, k) == HourRows(pruned, k)
        invariant forall k | from <= k < h && accepts(k) ::
          WrittenHour(minutes[..], hours[..], k, partial(k), HourRows(pruned, k), HourRows(store, k))
      {
        FlushHour(h, partial(h), accepts(h));
        h := h + 1;
      }
      if !force { flushed := nowHour - 1; }
    }

    // ----- replay -----

    method ApplyRow(r: Row, nowMin: int)
      requires Valid()
      modifies this`hostSet, minutes, hours
      ensures Contents() == AppliedRow(old(Contents()), r, nowMin)
    {
      var j := r.hour % HOUR_SLOTS;
      if hours[j].hour != r.hour { hours[j] := HourSlot(r.hour, map[]); }
      var hh := if r.agg in hours[j].hosts then hours[j].hosts[r.agg] else NEW_HOUR;
      hours[j] := HourSlot(r.hour, hours[j].hosts[r.agg := AppliedDim(hh, r)]);
      if |hostSet| < MAX_HOSTS { hostSet := hostSet + {r.agg.host}; }
      if IsMinuteKind(r.kind) { SpreadRow(r, nowMin); }
    }

    method SpreadRow(r: Row, nowMin: int)
      requires Valid()
      modifies minutes
      ensures minutes[..] == Spread(old(minutes[..]), r, nowMin)
    {
      var lo, last := 60 * r.hour, LastMinute(r.hour, nowMin);
      if last <= lo { return; }
      ghost var was := minutes[..];
      var m := lo;
      while m < last
        invariant lo <= m <= last
        invariant forall i | 0 <= i < MINUTE_SLOTS :: minutes[i] == SpreadSlot(was[i], r, lo, last, MinuteAt(lo, i), m)
      {
        RingIndex(lo, m);
        RingOnly(lo, m);
        var i := m % MINUTE_SLOTS;
        minutes[i] := Put(minutes[i], m, r.agg, SharesOf(r, last - lo, m - lo));
        m := m + 1;
      }
      assert minutes[..] == Spread(was, r, nowMin);
    }

    method ReplayStore(nowHour: int, nowMin: int)
      requires Valid()
      modifies this, minutes, hours
      ensures Valid() && store == old(store) && flushed == nowHour - 1
      ensures Contents() == Applied(old(Contents()), ReadHours(store, nowHour - 24, nowHour + 1), nowMin)
    {
      var rows := ReadHours(store, nowHour - 24, nowHour + 1);
      flushed := nowHour - 1;
      assert rows[..|rows|] == rows;
      for i := 0 to |rows|
        invariant Valid() && store == old(store) && flushed == nowHour - 1
        invariant Contents() == Applied(old(Contents()), rows[..i], nowMin)
      {
        AppliedNext(old(Contents()), rows, i, nowMin);
        ApplyRow(rows[i], nowMin);
      }
    }

    // ----- reports -----

    method AddSlot(w: Window, hosts: map<Agg, Counts>, m: int, keep: Agg -> bool)
      requires w.Valid()
      modifies w
      ensures w.Valid() && forall q :: w.Value(q) == old(w.Value(q)) + SlotAdds(w.geo, hosts, m, keep, q)
    {
      var todo := hosts.Keys;
      ghost var done: set<Agg> := {};
      while todo != {}
        invariant w.Valid() && done + todo == hosts.Keys && done !! todo
        invariant forall q :: w.Value(q) == old(w.Value(q)) + SlotPart(w.geo, hosts, done, m, keep, q)
        decreases |todo|
      {
        var a :| a in todo;
        ghost var before := done;
        if keep(a) { w.AddMinute(a.host, 60 * m, hosts[a]); }
        todo, done := todo - {a}, done + {a};
        forall q ensures SlotPart(w.geo, hosts, done, m, keep, q)
          == SlotPart(w.geo, hosts, before, m, keep, q) + Kept(keep, a, MinuteAdds(w.geo, a.host, 60 * m, hosts[a], q))
        {
          OverTake(done, (x: Agg) => Kept(keep, x, MinuteAdds(w.geo, x.host, 60 * m, CountsOf(hosts, x), q)), a);
          assert done - {a} == before;
        }
      }
      assert done == hosts.Keys;
    }

    method AddHourSlot(w: Window, hosts: map<Agg, HostHour>, keep: Agg -> bool)
      requires w.Valid()
      modifies w
      ensures w.Valid() && forall q :: w.Value(q) == old(w.Value(q)) + HourSlotAdds(hosts, keep, q)
    {
      var todo := hosts.Keys;
      ghost var done: set<Agg> := {};
      while todo != {}
        invariant w.Valid() && done + todo == hosts.Keys && done !! todo
        invariant forall q :: w.Value(q) == old(w.Value(q)) + HourPart(hosts, done, keep, q)
        decreases |todo|
      {
        var a :| a in todo;
        ghost var before := done;
        if keep(a) { w.AddHour(hosts[a]); }
        todo, done := todo - {a}, done + {a};
        forall q
          ensures HourPart(hosts, done, keep, q)
            == HourPart(hosts, before, keep, q) + Kept(keep, a, HourAdds(hosts[a], q))
        {
          OverTake(done, (x: Agg) => Kept(keep, x, HourAdds(HeldIn(hosts, x), q)), a);
          assert done - {a} == before;
        }
      }
      assert done == hosts.Keys;
    }

    method AddMinutes(w: Window, lo: int, hi: int, keep: Agg -> bool, skip: set<int>)
      requires Valid() && w.Valid() && lo <= hi
      modifies w
      ensures w.Valid()
        && forall q :: w.Value(q) == old(w.Value(q)) + MinutesAdd(w.geo, minutes[..], lo, hi, keep, skip, q)
    {
      ghost var ms := minutes[..];
      var m := lo;
      while m < hi
        invariant lo <= m <= hi && w.Valid() && minutes[..] == ms
        invariant forall q :: w.Value(q) == old(w.Value(q)) + MinutesAdd(w.geo, ms, lo, m, keep, skip, q)
      {
        var slot := minutes[m % MINUTE_SLOTS];
        EmptySlotAdds(w.geo, m, keep);
        MinutesAddMore(w.geo, ms, lo, m, keep, skip);
        if m / 60 !in skip && slot.minute == m { AddSlot(w, slot.hosts, m, keep); }
        m := m + 1;
      }
    }

    method AddHours(w: Window, lo: int, hi: int, keep: Agg -> bool, skip: set<int>)
      requires Valid() && w.Valid() && lo <= hi
      modifies w
      ensures w.Valid() && forall q :: w.Value(q) == old(w.Value(q)) + HoursAdd(hours[..], lo, hi, keep, skip, q)
    {
      ghost var hs := hours[..];
      var h := lo;
      while h < hi
        invariant lo <= h <= hi && w.Valid() && hours[..] == hs
        invariant forall q :: w.Value(q) == old(w.Value(q)) + HoursAdd(hs, lo, h, keep, skip, q)
      {
        var slot := hours[h % HOUR_SLOTS];
        EmptyHourAdds(keep);
        HoursAddMore(hs, lo, h, keep, skip);
        if h !in skip && slot.hour == h { AddHourSlot(w, slot.hosts, keep); }
        h := h + 1;
      }
    }

    /** Folds the memory slots of the window, leaving out the hours in `skip`. */
    method AddMemory(w: Window, keep: Agg -> bool, skip: set<int>)
      requires Valid() && w.Valid()
      modifies w
      ensures w.Valid()
        && forall q :: w.Value(q) == old(w.Value(q)) + MemoryAdds(w.geo, minutes[..], hours[..], keep, skip, q)
    {
      AddMinutes(w, w.geo.start / 60, w.geo.end / 60, keep, skip);
      AddHours(w, w.geo.start / 3600, (w.geo.end + 3599) / 3600, keep, skip);
    }

    method MemoryWindow(geo: Geometry, keep: Agg -> bool) returns (w: Window)
      requires Valid() && geo.Valid()
      ensures fresh(w) && w.Valid() && w.geo == geo
      ensures forall q :: w.Value(q) == MemoryAdds(geo, minutes[..], hours[..], keep, {}, q)
    {
      w := new Window(geo);
      AddMemory(w, keep, {});
    }

    /** Folds the stored rows of the hours before the running one, then the memory slots of every hour
        that had none. */
    method StoreWindow(geo: Geometry, nowHour: int, keep: Agg -> bool) returns (w: Window)
      requires Valid() && geo.Valid()
      ensures fresh(w) && w.Valid() && w.geo == geo
      ensures forall q :: w.Value(q) == StoreWindowAdds(geo, store, minutes[..], hours[..], nowHour, keep, q)
    {
      w := new Window(geo);
      var stored := AddStored(w, HoursFrom(geo), HoursTo(geo), nowHour, keep);
      AddMemory(w, keep, stored);
    }

    method AddStored(w: Window, lo: int, hi: int, nowHour: int, keep: Agg -> bool) returns (stored: set<int>)
      requires w.Valid() && lo <= hi
      modifies w
      ensures stored == StoredHours(store, lo, hi, nowHour, keep)
      ensures w.Valid() && forall q :: w.Value(q) == old(w.Value(q)) + StoreAdds(w.geo, store, lo, hi, nowHour, keep, q)
    {
      stored := {};
      var h := lo;
      while h < hi
        invariant lo <= h <= hi && w.Valid()
        invariant stored == StoredHours(store, lo, h, nowHour, keep)
        invariant forall q :: w.Value(q) == old(w.Value(q)) + StoreAdds(w.geo, store, lo, h, nowHour, keep, q)
      {
        StoreAddsMore(w.geo, store, lo, h, nowHour, keep);
        StoredMore(store, lo, h, nowHour, keep);
        if h < nowHour {
          var any := AddRows(w, HourRows(store, h), keep);
          if any { stored := stored + {h}; }
        }
        h := h + 1;
      }
    }

    method AddRows(w: Window, rows: seq<Row>, keep: Agg -> bool) returns (any: bool)
      requires w.Valid()
      modifies w
      ensures w.Valid() && forall q :: w.Value(q) == old(w.Value(q)) + StoreHour(w.geo, rows, keep, q)
      ensures any <==> exists r | r in rows :: keep(r.agg)
    {
      any := false;
      assert rows[..|rows|] == rows;
      for i := 0 to |rows|
        invariant w.Valid() && (any <==> exists r | r in rows[..i] :: keep(r.agg))
        invariant forall q :: w.Value(q) == old(w.Value(q)) + StoreHour(w.geo, rows[..i], keep, q)
      {
        assert rows[..i + 1] == rows[..i] + [rows[i]];
        forall q ensures StoreHour(w.geo, rows[..i + 1], keep, q)
          == StoreHour(w.geo, rows[..i], keep, q) + Kept(keep, rows[i].agg, RowAdds(w.geo, rows[i], q))
        {
          EachMore(rows[..i], rows[i], (r: Row) => Kept(keep, r.agg, RowAdds(w.geo, r, q)));
        }
        if keep(rows[i].agg) {
          w.AddRow(rows[i]);
          any := true;
        }
      }
    }
  }

  // ----- flushing -----

  function Pruned(store: map<int, seq<Row>>, nowHour: int, enabled: bool, retentionDays: int): map<int, seq<Row>> {
    if enabled then map h | h in store && h >= nowHour - 24 * retentionDays :: store[h] else store
  }

  /** One flush: the clock and the switches, the slots as they stand, the partial rows chosen for each
      hour, and which hours the store accepts. */
  datatype Tick = Tick(nowHour: int, force: bool, enabled: bool, retentionDays: int, minutes: seq<MinuteSlot>,
                       hours: seq<HourSlot>, partial: int -> seq<Row>, accepts: int -> bool)
  {
    ghost predicate Shaped() { |minutes| == MINUTE_SLOTS && |hours| == HOUR_SLOTS }

    /** What pruning leaves of an hour's rows: all, or nothing beyond the days kept. */
    function Left(rows: seq<Row>, h: int): seq<Row> {
      if enabled && h < nowHour - 24 * retentionDays then [] else rows
    }
  }

  /** What one flush does to the mark of the last hour flushed and to the store. The hours behind the mark
      and before the running one are written, at first only the one before it; and the running one when
      forced. */
  ghost predicate Flushes(t: Tick, flushed: int, store: map<int, seq<Row>>, flushed': int, store': map<int, seq<Row>>)
  {
    && t.Shaped()
    && flushed' == (if t.force then flushed else t.nowHour - 1)
    && forall h ::
         if t.accepts(h) && ((if flushed == 0 then h == t.nowHour - 1 else flushed < h < t.nowHour)
                             || (t.force && h == t.nowHour))
         then WrittenHour(t.minutes, t.hours, h, t.partial(h), t.Left(HourRows(store, h), h), HourRows(store', h))
         else HourRows(store', h) == t.Left(HourRows(store, h), h)
  }

  /** What the store holds for an hour once it is flushed: the rendered rows within the budget, or
      what it held when nothing was recorded. */
  ghost predicate WrittenHour(minutes: seq<MinuteSlot>, hours: seq<HourSlot>, h: int, partial: seq<Row>, was: seq<Row>,
                              now: seq<Row>)
    requires |minutes| == MINUTE_SLOTS && |hours| == HOUR_SLOTS
  {
    exists full ::
      IsFull(minutes, hours, h, partial, full) && now == if Budgeted(full) == [] then was else Budgeted(full)
  }

  ghost predicate IsFull(minutes: seq<MinuteSlot>, hours: seq<HourSlot>, h: int, partial: seq<Row>, full: seq<Row>)
    requires |minutes| == MINUTE_SLOTS && |hours| == HOUR_SLOTS
  {
    Distinct(full) && Ranked(partial, full) && forall r :: r in full <==> ForHour(minutes, hours, h, partial, r)
  }

  /** Rows chosen for an hour besides the rendered ones, clients last. */
  ghost predicate Chosen(minutes: seq<MinuteSlot>, hours: seq<HourSlot>, h: int, partial: seq<Row>)
    requires |minutes| == MINUTE_SLOTS && |hours| == HOUR_SLOTS
  {
    Distinct(partial) && Ranked(partial, partial) && forall r | r in partial :: !Rendered(minutes, hours, h, r)
  }

  ghost predicate ForHour(minutes: seq<MinuteSlot>, hours: seq<HourSlot>, h: int, partial: seq<Row>, r: Row)
    requires |minutes| == MINUTE_SLOTS && |hours| == HOUR_SLOTS
  {
    Rendered(minutes, hours, h, r) || r in partial
  }

  /** Only a full budget cuts rows, and it cuts none while it keeps a less important one. */
  ghost predicate CutByTier(minutes: seq<MinuteSlot>, hours: seq<HourSlot>, h: int, partial: seq<Row>, rows: seq<Row>)
    requires |minutes| == MINUTE_SLOTS && |hours| == HOUR_SLOTS
  {
    && |rows| <= 200000 && Distinct(rows)
    && (forall r | r in rows :: ForHour(minutes, hours, h, partial, r))
    && (forall r | ForHour(minutes, hours, h, partial, r) && r !in rows ::
      |rows| == 200000 && forall s | s in rows :: Tier(partial, s) <= Tier(partial, r))
  }

  lemma BudgetCutsByTier(minutes: seq<MinuteSlot>, hours: seq<HourSlot>, h: int, partial: seq<Row>, full: seq<Row>)
    requires |minutes| == MINUTE_SLOTS && |hours| == HOUR_SLOTS && IsFull(minutes, hours, h, partial, full)
    ensures CutByTier(minutes, hours, h, partial, Budgeted(full))
  {
    var rows := Budgeted(full);
    forall r, s | r in full && r !in rows && s in rows ensures Tier(partial, s) <= Tier(partial, r) {
      var i :| 0 <= i < |rows| && rows[i] == s;
      var j :| 0 <= j < |full| && full[j] == r;
      assert full[i] == s && (j < |rows| ==> rows[j] == r);
    }
  }

  /** A slot while a row is being spread: minutes before `done` have their share. */
  function SpreadSlot(was: MinuteSlot, r: Row, lo: int, last: int, m: int, done: int): MinuteSlot
    requires lo < last
  {
    if m < done then Put(was, m, r.agg, SharesOf(r, last - lo, m - lo)) else was
  }

  lemma RingOnly(lo: int, m: int)
    requires lo <= m < lo + MINUTE_SLOTS
    ensures forall i | 0 <= i < MINUTE_SLOTS && MinuteAt(lo, i) == m :: i == m % MINUTE_SLOTS
  {
    forall i | 0 <= i < MINUTE_SLOTS && MinuteAt(lo, i) == m ensures i == m % MINUTE_SLOTS {
      SlotOfMinute(lo, i);
    }
  }

  lemma SlotOfMinute(lo: int, i: int)
    requires 0 <= i < MINUTE_SLOTS
    ensures MinuteAt(lo, i) % MINUTE_SLOTS == i
  {
    var q := (i - lo) / MINUTE_SLOTS;
    assert MinuteAt(lo, i) == i + (-q) * MINUTE_SLOTS;
    Wraps(i, -q);
  }

  // ----- windows -----

  ghost function SlotPart(geo: Geometry, hosts: map<Agg, Counts>, some: set<Agg>, m: int, keep: Agg -> bool,
                          q: Metric): int
    requires geo.bucket > 0
  {
    Over(some, (a: Agg) => Kept(keep, a, MinuteAdds(geo, a.host, 60 * m, CountsOf(hosts, a), q)))
  }

  ghost function HourPart(hosts: map<Agg, HostHour>, some: set<Agg>, keep: Agg -> bool, q: Metric): int {
    Over(some, (a: Agg) => Kept(keep, a, HourAdds(HeldIn(hosts, a), q)))
  }

  ghost function MinutesAdd(geo: Geometry, minutes: seq<MinuteSlot>, lo: int, hi: int, keep: Agg -> bool,
                            skip: set<int>, q: Metric): int
    requires geo.bucket > 0 && |minutes| == MINUTE_SLOTS
  {
    Range(lo, hi, m => MinuteAdd(geo, minutes, keep, skip, q, m))
  }

  ghost function MinuteAdd(geo: Geometry, minutes: seq<MinuteSlot>, keep: Agg -> bool, skip: set<int>, q: Metric,
                           m: int): int
    requires geo.bucket > 0 && |minutes| == MINUTE_SLOTS
  {
    if m / 60 in skip then 0 else SlotAdds(geo, HostsAt(minutes, m), m, keep, q)
  }

  ghost function HoursAdd(hours: seq<HourSlot>, lo: int, hi: int, keep: Agg -> bool, skip: set<int>, q: Metric): int
    requires |hours| == HOUR_SLOTS
  {
    Range(lo, hi, h => HourAdd(hours, keep, skip, q, h))
  }

  ghost function HourAdd(hours: seq<HourSlot>, keep: Agg -> bool, skip: set<int>, q: Metric, h: int): int
    requires |hours| == HOUR_SLOTS
  {
    if h in skip then 0 else HourSlotAdds(HourHosts(hours, h), keep, q)
  }

  ghost function MemoryAdds(geo: Geometry, minutes: seq<MinuteSlot>, hours: seq<HourSlot>, keep: Agg -> bool,
                            skip: set<int>, q: Metric): int
    requires geo.bucket > 0 && |minutes| == MINUTE_SLOTS && |hours| == HOUR_SLOTS
  {
    MinutesAdd(geo, minutes, geo.start / 60, geo.end / 60, keep, skip, q)
    + HoursAdd(hours, geo.start / 3600, (geo.end + 3599) / 3600, keep, skip, q)
  }

  /** The store's rows, and the memory slots of the hours that have none. */
  ghost function StoreWindowAdds(geo: Geometry, store: map<int, seq<Row>>, minutes: seq<MinuteSlot>,
                                 hours: seq<HourSlot>, nowHour: int,
                                 keep: Agg -> bool, q: Metric): int
    requires geo.bucket > 0 && |minutes| == MINUTE_SLOTS && |hours| == HOUR_SLOTS
  {
    StoreAdds(geo, store, HoursFrom(geo), HoursTo(geo), nowHour, keep, q)
    + MemoryAdds(geo, minutes, hours, keep, StoredHours(store, HoursFrom(geo), HoursTo(geo), nowHour, keep), q)
  }

  lemma MinutesAddMore(geo: Geometry, minutes: seq<MinuteSlot>, lo: int, m: int, keep: Agg -> bool, skip: set<int>)
    requires geo.bucket > 0 && |minutes| == MINUTE_SLOTS && lo <= m
    ensures forall q ::
              MinutesAdd(geo, minutes, lo, m + 1, keep, skip, q) == MinutesAdd(geo, minutes, lo, m, keep, skip, q)
                + if m / 60 in skip then 0 else SlotAdds(geo, HostsAt(minutes, m), m, keep, q)
  {
  }

  lemma HoursAddMore(hours: seq<HourSlot>, lo: int, h: int, keep: Agg -> bool, skip: set<int>)
    requires |hours| == HOUR_SLOTS && lo <= h
    ensures forall q ::
              HoursAdd(hours, lo, h + 1, keep, skip, q) == HoursAdd(hours, lo, h, keep, skip, q)
                + if h in skip then 0 else HourSlotAdds(HourHosts(hours, h), keep, q)
  {
  }

  lemma StoreAddsMore(geo: Geometry, store: map<int, seq<Row>>, lo: int, h: int, nowHour: int, keep: Agg -> bool)
    requires geo.bucket > 0 && lo <= h
    ensures forall q ::
              StoreAdds(geo, store, lo, h + 1, nowHour, keep, q) == StoreAdds(geo, store, lo, h, nowHour, keep, q)
                + if h < nowHour then StoreHour(geo, HourRows(store, h), keep, q) else 0
  {
  }

  lemma StoredMore(store: map<int, seq<Row>>, lo: int, h: int, nowHour: int, keep: Agg -> bool)
    requires lo <= h
    ensures StoredHours(store, lo, h + 1, nowHour, keep)
      == StoredHours(store, lo, h, nowHour, keep) + if IsStored(store, nowHour, keep, h) then {h} else {}
  {
  }

  lemma EmptySlotAdds(geo: Geometry, m: int, keep: Agg -> bool)
    requires geo.bucket > 0
    ensures forall q :: SlotAdds(geo, map[], m, keep, q) == 0
  {
    var none: map<Agg, Counts> := map[];
    assert none.Keys == {};
  }

  lemma EmptyHourAdds(keep: Agg -> bool)
    ensures forall q :: HourSlotAdds(map[], keep, q) == 0
  {
    var none: map<Agg, HostHour> := map[];
    assert none.Keys == {};
  }

  /** The whole hours of the window, as the store's query bounds them. */
  function HoursFrom(geo: Geometry): int { (geo.start + 3599) / 3600 }

  function HoursTo(geo: Geometry): int { (geo.end + 3599) / 3600 }

  ghost function StoreAdds(geo: Geometry, store: map<int, seq<Row>>, lo: int, hi: int, nowHour: int, keep: Agg -> bool,
                           q: Metric): int
    requires geo.bucket > 0
  {
    Range(lo, hi, h => if h < nowHour then StoreHour(geo, HourRows(store, h), keep, q) else 0)
  }

  ghost predicate IsStored(store: map<int, seq<Row>>, nowHour: int, keep: Agg -> bool, h: int) {
    h < nowHour && exists r | r in HourRows(store, h) :: keep(r.agg)
  }

  ghost function StoredHours(store: map<int, seq<Row>>, lo: int, hi: int, nowHour: int, keep: Agg -> bool): set<int> {
    set h | lo <= h < hi && IsStored(store, nowHour, keep, h)
  }

  // ----- what the tiers hold -----

  function DimKeys(hh: HostHour, kind: Kind): set<string> {
    match kind
    case Deny => hh.deny.Keys
    case Country => hh.country.Keys
    case Signature => hh.sig.Keys
    case _ => {}
  }

  function DimAt(hh: HostHour, kind: Kind, k: string): Dim {
    match kind
    case Deny => Dim(Get(hh.deny, k), 0, 0)
    case Country => GetDim(hh.country, k)
    case Signature => Dim(Get(hh.sig, k), 0, 0)
    case _ => Dim(0, 0, 0)
  }

  predicate HostDimRow(h: int, agg: Agg, hh: HostHour, kind: Kind, r: Row) {
    && r.hour == h && r.agg == agg && r.kind == kind && r.b == 0
    && r.key in DimKeys(hh, kind) && Dim(r.n, r.d, r.t) == DimAt(hh, kind, r.key)
  }

  lemma HostPart(h: int, hosts: map<Agg, HostHour>, agg: Agg, kind: Kind)
    requires agg in hosts && (kind == Deny || kind == Country || kind == Signature)
    ensures forall r :: HostDimRow(h, agg, hosts[agg], kind, r) <==> DimRow(h, hosts, kind, r) && r.agg == agg
  {
  }

  lemma TotalsRendered(minutes: seq<MinuteSlot>, h: int, totals: map<Agg, Counts>, r: Row)
    requires |minutes| == MINUTE_SLOTS
    requires forall a :: a in totals <==> Present(minutes, h, a)
    requires forall a, f | 0 <= f < FIELDS :: CountsOf(totals, a)[f] == TotalOf(minutes, h, a, f)
    ensures r.agg in totals && CountsRow(h, r.agg, totals[r.agg], r) <==> r.hour == h && RenderedTotals(minutes, h, r)
  {
    if r.agg in totals {
      assert CountsOf(totals, r.agg) == totals[r.agg];
      TotalFields(minutes, h, totals, r.agg);
    }
  }

  lemma TotalFields(minutes: seq<MinuteSlot>, h: int, totals: map<Agg, Counts>, a: Agg)
    requires |minutes| == MINUTE_SLOTS && a in totals
    requires forall a, f | 0 <= f < FIELDS :: CountsOf(totals, a)[f] == TotalOf(minutes, h, a, f)
    ensures forall f | 0 <= f < FIELDS :: totals[a][f] == TotalOf(minutes, h, a, f)
  {
    forall f | 0 <= f < FIELDS ensures totals[a][f] == TotalOf(minutes, h, a, f) {
      assert CountsOf(totals, a)[f] == TotalOf(minutes, h, a, f);
    }
  }

  lemma TiersRendered(minutes: seq<MinuteSlot>, hours: seq<HourSlot>, h: int, totals: map<Agg, Counts>, tier0: seq<Row>,
                      denials: seq<Row>, countries: seq<Row>, signatures: seq<Row>, partial: seq<Row>)
    requires |minutes| == MINUTE_SLOTS && |hours| == HOUR_SLOTS
    requires forall a :: a in totals <==> Present(minutes, h, a)
    requires forall a, f | 0 <= f < FIELDS :: CountsOf(totals, a)[f] == TotalOf(minutes, h, a, f)
    requires Distinct(tier0) && Distinct(denials) && Distinct(countries) && Distinct(signatures)
    requires forall r :: r in tier0 <==> r.agg in totals && CountsRow(h, r.agg, totals[r.agg], r)
    requires forall r :: r in denials <==> DimRow(h, HourHosts(hours, h), Deny, r)
    requires forall r :: r in countries <==> DimRow(h, HourHosts(hours, h), Country, r)
    requires forall r :: r in signatures <==> DimRow(h, HourHosts(hours, h), Signature, r)
    requires Chosen(minutes, hours, h, partial)
    ensures IsFull(minutes, hours, h, partial, tier0 + denials + countries + signatures + partial)
  {
    var dims := HourHosts(hours, h);
    forall r ensures r in tier0 + denials + countries + signatures <==> Rendered(minutes, hours, h, r) {
      TotalsRendered(minutes, h, totals, r);
    }
    DistinctJoin(tier0, denials);
    DistinctJoin(tier0 + denials, countries);
    DistinctJoin(tier0 + denials + countries, signatures);
    DistinctJoin(tier0 + denials + countries + signatures, partial);
    RankedAlike(partial, tier0, 0);
    RankedAlike(partial, denials, 0);
    RankedAlike(partial, countries, 1);
    RankedAlike(partial, signatures, 2);
    RankedJoin(partial, tier0, denials, 0, 0);
    RankedJoin(partial, tier0 + denials, countries, 0, 1);
    RankedJoin(partial, tier0 + denials + countries, signatures, 1, 2);
    RankedJoin(partial, tier0 + denials + countries + signatures, partial, 2, 4);
  }
}
