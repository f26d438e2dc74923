/** Reconciling the ledger of fetched access-list sources with what the configuration declares. */
module SyncReconcile {
  import opened Wrappers

  type Key = string

  datatype Source = Source(name: string, url: string, interval: int)

  datatype AccessList = AccessList(name: string, sources: seq<Source>)

  /** fetchedAt is None when it was never set or does not parse. */
  datatype Entry = Entry(list: string, source: string, url: string, fetchedAt: Option<int>, sha: string,
                         entries: seq<string>)

  /** What one run meets: the configuration, or why it would not load; whether syncing is on; whether
      the ledger loads and saves; what each URL fetches (an error refuses the fetch); and the hash. */
  datatype World = World(
    config: Result<seq<AccessList>, string>, enabled: bool, loads: bool, saves: bool,
    fetch: Source -> Option<seq<string>>, hash: (Key, string, seq<string>) -> string)

  function SourceKey(list: string, source: string): Key { list + "/" + source }

  // ----- one source -----

  datatype Declared = Declared(list: string, source: Source) {
    function Key(): Key { SourceKey(list, source.name) }
  }

  /** A source's next ledger entry and attempt, and whether it changed anything or was refused. */
  datatype Visit = Visit(entry: Option<Entry>, attempt: Option<int>, changed: bool, refused: bool)

  function Later(a: Option<int>, b: Option<int>): Option<int> {
    if a.Some? && b.Some? then Some(if b.value > a.value then b.value else a.value)
    else if b.Some? then b else a
  }

  predicate Due(fetchedAt: Option<int>, attempt: Option<int>, interval: int, now: int) {
    var last := Later(fetchedAt, attempt);
    last == None || now - last.value >= interval
  }

  function Visited(w: World, d: Declared, prev: Option<Entry>, attempt: Option<int>, now: int): Visit {
    var kept := if prev.Some? && prev.value.url == d.source.url then prev else None;
    var moved := prev.Some? && kept == None;
    var attempt := if moved then None else attempt;
    if !Due(if kept.Some? then kept.value.fetchedAt else None, attempt, d.source.interval, now) then
      Visit(kept, attempt, moved, false)
    else
      match w.fetch(d.source)
      case None => Visit(kept, attempt, moved, true)
      case Some(body) =>
        var sha := w.hash(d.Key(), d.source.url, body);
        if kept.Some? && kept.value.sha == sha then Visit(kept, Some(now), moved, false)
        else Visit(Some(Entry(d.list, d.source.name, d.source.url, Some(now), sha, body)), Some(now), true, false)
  }

  // ----- all of them -----

  function SourcesOf(al: AccessList): seq<Declared> {
    seq(|al.sources|, i requires 0 <= i < |al.sources| => Declared(al.name, al.sources[i]))
  }

  function AllDeclared(lists: seq<AccessList>): seq<Declared> {
    if lists == [] then [] else AllDeclared(lists[..|lists| - 1]) + SourcesOf(lists[|lists| - 1])
  }

  ghost predicate UniqueKeys(ds: seq<Declared>) {
    forall i, j | 0 <= i < j < |ds| :: ds[i].Key() != ds[j].Key()
  }

  function Find<V>(m: map<Key, V>, key: Key): Option<V> {
    if key in m then Some(m[key]) else None
  }

  function VisitOf(w: World, d: Declared, entries: map<Key, Entry>, attempts: map<Key, int>, now: int): Visit {
    Visited(w, d, Find(entries, d.Key()), Find(attempts, d.Key()), now)
  }

  predicate Names(ds: seq<Declared>, key: Key) {
    exists d | d in ds :: d.Key() == key
  }

  function Refusals(w: World, ds: seq<Declared>, entries: map<Key, Entry>, attempts: map<Key, int>, now: int): nat {
    if ds == [] then 0
    else Refusals(w, ds[..|ds| - 1], entries, attempts, now)
         + if VisitOf(w, ds[|ds| - 1], entries, attempts, now).refused then 1 else 0
  }

  /** The next ledger: each declared source as its own visit leaves it, and nothing else. */
  ghost predicate IsNext(w: World, ds: seq<Declared>, entries: map<Key, Entry>, attempts: map<Key, int>, now: int,
                         next: map<Key, Entry>)
  {
    && (forall d | d in ds :: Find(next, d.Key()) == VisitOf(w, d, entries, attempts, now).entry)
    && (forall k | k in next :: Names(ds, k))
  }

  ghost predicate AreAttempts(w: World, ds: seq<Declared>, entries: map<Key, Entry>, attempts: map<Key, int>, now: int,
                              after: map<Key, int>)
  {
    && (forall d | d in ds :: Find(after, d.Key()) == VisitOf(w, d, entries, attempts, now).attempt)
    && (forall k | !Names(ds, k) :: Find(after, k) == Find(attempts, k))
  }

  ghost predicate AnyChanged(w: World, ds: seq<Declared>, entries: map<Key, Entry>, attempts: map<Key, int>, now: int) {
    exists d | d in ds :: VisitOf(w, d, entries, attempts, now).changed
  }

  datatype Status = Status(enabled: bool, lastRun: int, lastSuccess: Option<int>, error: Option<string>, refused: nat)

  datatype Failure = LoadFailed | LedgerFailed | SaveFailed

  class Syncer {
    var ledger: map<Key, Entry>
    var attempts: map<Key, int>
    var status: Status
    var lastSuccess: Option<int>
    var reloads: nat

    constructor ()
      ensures ledger == map[] && attempts == map[] && lastSuccess == None && reloads == 0
    {
      ledger, attempts, lastSuccess, reloads := map[], map[], None, 0;
      status := Status(false, 0, None, None, 0);
    }

    method SetStatus(st: Status)
      modifies `status, `lastSuccess
      ensures lastSuccess == if st.error == None && st.refused == 0 then Some(st.lastRun) else old(lastSuccess)
      ensures status == st.(lastSuccess := lastSuccess)
    {
      if st.error == None && st.refused == 0 { lastSuccess := Some(st.lastRun); }
      status := st.(lastSuccess := lastSuccess);
    }

    method IsDue(key: Key, fetchedAt: Option<int>, interval: int, now: int) returns (due: bool)
      ensures due <==>
        && (fetchedAt.Some? ==> now - fetchedAt.value >= interval)
        && (key in attempts ==> now - attempts[key] >= interval)
    {
      var last := fetchedAt;
      if key in attempts && (last == None || attempts[key] > last.value) { last := Some(attempts[key]); }
      if last == None { return true; }
      return now - last.value >= interval;
    }

    /** One source: next and the attempts are updated in place. */
    method VisitSource(w: World, d: Declared, prev: Option<Entry>, next: map<Key, Entry>, now: int, ghost v: Visit)
      returns (next2: map<Key, Entry>, changed: bool, refused: bool)
      requires d.Key() !in next && v == Visited(w, d, prev, Find(attempts, d.Key()), now)
      modifies `attempts
      ensures
        && changed == v.changed && refused == v.refused
        && next2 == (if v.entry.Some? then next[d.Key() := v.entry.value] else next)
        && attempts == if v.attempt.Some? then old(attempts)[d.Key() := v.attempt.value] else old(attempts) - {d.Key()}
    {
      var key := d.Key();
      next2, changed, refused := next, false, false;
      ghost var had := Find(attempts, key);
      assert had.Some? ==> attempts == attempts[key := had.value];
      assert had == None ==> attempts == attempts - {key};
      if prev.Some? && prev.value.url == d.source.url {
        next2 := next2[key := prev.value];
      } else if prev.Some? {
        changed := true;
        attempts := attempts - {key};
      }
      var fetchedAt := if key in next2 then next2[key].fetchedAt else None;
      var due := IsDue(key, fetchedAt, d.source.interval, now);
      if !due { return; }
      var fetched := w.fetch(d.source);
      if fetched == None {
        refused := true;
        return;
      }
      attempts := attempts[key := now];
      var sha := w.hash(key, d.source.url, fetched.value);
      if key in next2 && next2[key].sha == sha { return; }
      next2 := next2[key := Entry(d.list, d.source.name, d.source.url, Some(now), sha, fetched.value)];
      changed := true;
    }

    /** The sources of one list. */
    method VisitList(w: World, al: AccessList, entries: map<Key, Entry>, now: int, next0: map<Key, Entry>,
                     changed0: bool, refused0: nat, ghost before: seq<Declared>, ghost was: map<Key, int>)
      returns (next: map<Key, Entry>, changed: bool, refused: nat)
      requires UniqueKeys(before + SourcesOf(al))
      requires Progress(w, before, entries, was, now, next0, attempts, changed0, refused0)
      modifies `attempts
      ensures Progress(w, before + SourcesOf(al), entries, was, now, next, attempts, changed, refused)
    {
      next, changed, refused := next0, changed0, refused0;
      ghost var seen := before;
      for j := 0 to |al.sources|
        invariant seen == before + SourcesOf(al)[..j]
        invariant Progress(w, seen, entries, was, now, next, attempts, changed, refused)
      {
        var d := Declared(al.name, al.sources[j]);
        assert seen + [d] == before + SourcesOf(al)[..j + 1];
        UniqueNext(before + SourcesOf(al), seen, d);
        NotVisited(w, seen, d, entries, was, now, next, attempts, changed, refused);
        var moved, failed;
        ghost var next1, attempts1 := next, attempts;
        next, moved, failed := VisitSource(w, d, Find(entries, d.Key()), next, now, VisitOf(w, d, entries, was, now));
        OneMore(w, seen, d, entries, was, now, next1, next, attempts1, attempts, changed, refused);
        if moved { changed := true; }
        if failed { refused := refused + 1; }
        seen := seen + [d];
      }
      assert SourcesOf(al)[..|al.sources|] == SourcesOf(al);
    }

    /** The loop over the access lists, then the look for dropped sources. */
    method VisitAll(w: World, lists: seq<AccessList>, entries: map<Key, Entry>, now: int)
      returns (next: map<Key, Entry>, changed: bool, refused: nat)
      requires UniqueKeys(AllDeclared(lists))
      modifies `attempts
      ensures IsNext(w, AllDeclared(lists), entries, old(attempts), now, next)
      ensures AreAttempts(w, AllDeclared(lists), entries, old(attempts), now, attempts)
      ensures refused == Refusals(w, AllDeclared(lists), entries, old(attempts), now)
      ensures changed
        <==> AnyChanged(w, AllDeclared(lists), entries, old(attempts), now) || exists k | k in entries :: k !in next
    {
      next, changed, refused := map[], false, 0;
      for i := 0 to |lists|
        invariant Progress(w, AllDeclared(lists[..i]), entries, old(attempts), now, next, attempts, changed, refused)
      {
        assert lists[..i + 1][..i] == lists[..i];
        DeclaredPrefix(lists, i + 1);
        UniquePrefix(AllDeclared(lists), |AllDeclared(lists[..i + 1])|);
        next, changed,
          refused := VisitList(w, lists[i], entries, now, next, changed, refused, AllDeclared(lists[..i]),
                               old(attempts));
      }
      assert lists[..|lists|] == lists;
      ghost var any := changed;
      var keys := entries.Keys;
      while keys != {} && !changed
        invariant keys <= entries.Keys
        invariant changed <==> any || exists k | k in entries :: k !in next && k !in keys
        decreases |keys|
      {
        var k :| k in keys;
        if k !in next { changed := true; }
        keys := keys - {k};
      }
    }

    /** `next` is the ledger the run arrives at, saved or not. */
    method Reconcile(w: World, now: int) returns (failure: Option<Failure>, ghost next: map<Key, Entry>)
      requires w.config.Ok? ==> UniqueKeys(AllDeclared(w.config.value))
      modifies this
      ensures w.config.Err? ==> failure == Some(LoadFailed) && ledger == old(ledger) && attempts == old(attempts)
      ensures w.config.Ok? && !w.enabled ==> failure == None && ledger == old(ledger) && attempts == old(attempts)
      ensures w.config.Ok? && w.enabled && !w.loads
        ==> failure == Some(LedgerFailed) && ledger == old(ledger) && attempts == old(attempts)
      ensures w.config.Ok? && w.enabled && w.loads ==>
        var ds := AllDeclared(w.config.value);
        && AreAttempts(w, ds, old(ledger), old(attempts), now, attempts)
        && status.refused == Refusals(w, ds, old(ledger), old(attempts), now)
        && IsNext(w, ds, old(ledger), old(attempts), now, next)
        && ledger == (if next != old(ledger) && w.saves then next else old(ledger))
        && reloads == old(reloads) + (if next != old(ledger) && w.saves then 1 else 0)
        && failure == if next != old(ledger) && !w.saves then Some(SaveFailed) else None
    {
      next := map[];
      var empty := Status(false, now, None, None, 0);
      if w.config.Err? {
        SetStatus(empty.(error := Some(w.config.error)));
        return Some(LoadFailed), next;
      }
      if !w.enabled {
        SetStatus(empty);
        return None, next;
      }
      if !w.loads {
        SetStatus(empty.(enabled := true, error := Some("ledger")));
        return Some(LedgerFailed), next;
      }
      var st := empty.(enabled := true);
      var result, changed, refused := VisitAll(w, w.config.value, ledger, now);
      next := result;
      ChangedIffDifferent(w, AllDeclared(w.config.value), ledger, old(attempts), now, next);
      st := st.(refused := refused);
      if changed {
        if !w.saves {
          SetStatus(st.(error := Some("save")));
          return Some(SaveFailed), next;
        }
        ledger := result;
        reloads := reloads + 1;
      }
      SetStatus(st);
      return None, next;
    }
  }

  // ----- bookkeeping -----

  lemma {:induction false} DeclaredPrefix(lists: seq<AccessList>, n: nat)
    requires n <= |lists|
    ensures |AllDeclared(lists[..n])| <= |AllDeclared(lists)|
      && AllDeclared(lists)[..|AllDeclared(lists[..n])|] == AllDeclared(lists[..n])
  {
    if n == |lists| {
      assert lists[..n] == lists;
    } else {
      var front := lists[..|lists| - 1];
      assert front[..n] == lists[..n];
      DeclaredPrefix(front, n);
    }
  }

  lemma UniquePrefix(all: seq<Declared>, n: nat)
    requires UniqueKeys(all) && n <= |all|
    ensures UniqueKeys(all[..n])
  {
  }

  lemma UniqueNext(all: seq<Declared>, seen: seq<Declared>, d: Declared)
    requires UniqueKeys(all) && seen + [d] <= all
    ensures !Names(seen, d.Key())
  {
    forall e | e in seen ensures e.Key() != d.Key() {
      var i :| 0 <= i < |seen| && seen[i] == e;
      assert (seen + [d])[i] == all[i] && (seen + [d])[|seen|] == all[|seen|];
    }
  }

  /** The state of the loop after the sources in `seen`. */
  ghost predicate Progress(w: World, seen: seq<Declared>, entries: map<Key, Entry>, was: map<Key, int>, now: int,
                           next: map<Key, Entry>, attempts: map<Key, int>, changed: bool, refused: nat) {
    && IsNext(w, seen, entries, was, now, next) && AreAttempts(w, seen, entries, was, now, attempts)
    && (changed <==> AnyChanged(w, seen, entries, was, now)) && refused == Refusals(w, seen, entries, was, now)
  }

  lemma NotVisited(w: World, seen: seq<Declared>, d: Declared, entries: map<Key, Entry>, was: map<Key, int>, now: int,
                   next: map<Key, Entry>, attempts: map<Key, int>, changed: bool, refused: nat)
    requires !Names(seen, d.Key()) && Progress(w, seen, entries, was, now, next, attempts, changed, refused)
    ensures d.Key() !in next && Find(attempts, d.Key()) == Find(was, d.Key())
  {
  }

  lemma OneMore(w: World, seen: seq<Declared>, d: Declared, entries: map<Key, Entry>, was: map<Key, int>, now: int,
                next: map<Key, Entry>, next2: map<Key, Entry>, mid: map<Key, int>, after: map<Key, int>, changed: bool,
                  refused: nat)
    requires !Names(seen, d.Key()) && Progress(w, seen, entries, was, now, next, mid, changed, refused)
    requires var v := VisitOf(w, d, entries, was, now);
      && next2 == (if v.entry.Some? then next[d.Key() := v.entry.value] else next)
      && after == (if v.attempt.Some? then mid[d.Key() := v.attempt.value] else mid - {d.Key()})
    ensures var v := VisitOf(w, d, entries, was, now);
      Progress(w, seen + [d], entries, was, now, next2, after, changed || v.changed,
               refused + if v.refused then 1 else 0)
  {
    OneMoreEntry(w, seen, d, entries, was, now, next, next2);
    OneMoreAttempt(w, seen, d, entries, was, now, mid, after);
    assert (seen + [d])[..|seen|] == seen;
    InMore(seen, d);
  }

  lemma InMore(seen: seq<Declared>, d: Declared)
    ensures forall e :: e in seen + [d] <==> e in seen || e == d
    ensures forall k :: Names(seen + [d], k) <==> Names(seen, k) || k == d.Key()
  {
    forall k ensures Names(seen + [d], k) <==> Names(seen, k) || k == d.Key() {
      if k == d.Key() { assert d in seen + [d]; }
      if Names(seen, k) {
        var e :| e in seen && e.Key() == k;
        assert e in seen + [d];
      }
    }
  }

  lemma OneMoreEntry(w: World, seen: seq<Declared>, d: Declared, entries: map<Key, Entry>, was: map<Key, int>, now: int,
                     next: map<Key, Entry>, next2: map<Key, Entry>)
    requires !Names(seen, d.Key()) && IsNext(w, seen, entries, was, now, next)
    requires var v := VisitOf(w, d, entries, was, now);
      next2 == if v.entry.Some? then next[d.Key() := v.entry.value] else next
    ensures IsNext(w, seen + [d], entries, was, now, next2)
  {
    InMore(seen, d);
    forall e | e in seen + [d] ensures Find(next2, e.Key()) == VisitOf(w, e, entries, was, now).entry {
      if e in seen { assert e.Key() != d.Key(); }
    }
  }

  lemma OneMoreAttempt(w: World, seen: seq<Declared>, d: Declared, entries: map<Key, Entry>, was: map<Key, int>,
                       now: int,
                       mid: map<Key, int>, after: map<Key, int>)
    requires !Names(seen, d.Key()) && AreAttempts(w, seen, entries, was, now, mid)
    requires var v := VisitOf(w, d, entries, was, now);
      after == if v.attempt.Some? then mid[d.Key() := v.attempt.value] else mid - {d.Key()}
    ensures AreAttempts(w, seen + [d], entries, was, now, after)
  {
    InMore(seen, d);
    forall e | e in seen + [d] ensures Find(after, e.Key()) == VisitOf(w, e, entries, was, now).attempt {
      if e in seen { assert e.Key() != d.Key(); }
    }
  }

  // ----- main results -----

  /** With unique keys, a run has something to commit exactly when the next ledger differs from the
      loaded one. */
  lemma ChangedIffDifferent(w: World, ds: seq<Declared>, entries: map<Key, Entry>, attempts: map<Key, int>, now: int,
                            next: map<Key, Entry>)
    requires IsNext(w, ds, entries, attempts, now, next)
    ensures AnyChanged(w, ds, entries, attempts, now) || (exists k | k in entries :: k !in next) <==> next != entries
  {
    forall d | d in ds
      ensures VisitOf(w, d, entries, attempts, now).changed <==> Find(next, d.Key()) != Find(entries, d.Key())
    {
      VisitChanges(w, d, Find(entries, d.Key()), Find(attempts, d.Key()), now);
    }
    if next != entries && forall k | k in entries :: k in next {
      var k :| k in next && Find(next, k) != Find(entries, k);
      assert Names(ds, k);
    }
  }

  lemma VisitChanges(w: World, d: Declared, prev: Option<Entry>, attempt: Option<int>, now: int)
    ensures var v := Visited(w, d, prev, attempt, now); v.changed <==> v.entry != prev
  {
  }

  /** A source is fetched at once when its URL moved, and otherwise when an interval has passed since it
      was fetched and since it was tried, as far as it ever was. */
  predicate MustFetch(d: Declared, prev: Option<Entry>, attempt: Option<int>, now: int) {
    (prev.Some? && prev.value.url != d.source.url)
    || (&& (prev.Some? && prev.value.fetchedAt.Some? ==> now - prev.value.fetchedAt.value >= d.source.interval)
        && (attempt.Some? ==> now - attempt.value >= d.source.interval))
  }

  /** Everything a visit does: nothing while no fetch is due; otherwise it is refused, or finds the set it
      has, or takes the new one. */
  lemma VisitIff(w: World, d: Declared, prev: Option<Entry>, attempt: Option<int>, now: int)
    ensures var v := Visited(w, d, prev, attempt, now); var body := w.fetch(d.source);
      var same := prev.Some? && prev.value.url == d.source.url;
      && (!MustFetch(d, prev, attempt, now) ==> v == Visit(prev, attempt, false, false))
      && (v.refused <==> MustFetch(d, prev, attempt, now) && body == None)
      && (v.refused && same ==> v == Visit(prev, attempt, false, true))
      && (v.refused && prev.Some? && !same ==> v == Visit(None, None, true, true))
      && (MustFetch(d, prev, attempt, now) && body.Some? ==>
            var sha := w.hash(d.Key(), d.source.url, body.value);
            if same && prev.value.sha == sha then v == Visit(prev, Some(now), false, false)
            else v == Visit(Some(Entry(d.list, d.source.name, d.source.url, Some(now), sha, body.value)), Some(now),
                            true, false))
  {
  }

  /** A source fetched in a run falls due again exactly when its interval has passed, whether the set
      changed or not and whether or not anything else did. */
  lemma DueAgainIff(w: World, ds: seq<Declared>, entries: map<Key, Entry>, attempts: map<Key, int>, now: int,
                    next: map<Key, Entry>, after: map<Key, int>, d: Declared, later: int)
    requires IsNext(w, ds, entries, attempts, now, next) && AreAttempts(w, ds, entries, attempts, now, after)
    requires d in ds && MustFetch(d, Find(entries, d.Key()), Find(attempts, d.Key()), now) && w.fetch(d.source).Some?
    requires d.Key() in entries && entries[d.Key()].fetchedAt.Some? ==> entries[d.Key()].fetchedAt.value <= now
    ensures MustFetch(d, Find(next, d.Key()), Find(after, d.Key()), later) <==> later - now >= d.source.interval
  {
    VisitIff(w, d, Find(entries, d.Key()), Find(attempts, d.Key()), now);
  }

  /** A refused fetch leaves the previous entry exactly as it was while the URL is unchanged, and
      records no attempt, so the next run tries again. */
  lemma RefusalKeeps(w: World, d: Declared, prev: Option<Entry>, attempt: Option<int>, now: int, later: int)
    requires Visited(w, d, prev, attempt, now).refused && now <= later
    ensures var v := Visited(w, d, prev, attempt, now);
      && (prev.Some? && prev.value.url == d.source.url ==> v.entry == prev && v.attempt == attempt)
      && (prev.None? || prev.value.url != d.source.url ==> v.entry == None)
      && Due(if v.entry.Some? then v.entry.value.fetchedAt else None, v.attempt, d.source.interval, later)
  {
  }

  predicate KeptOrFetched(w: World, d: Declared, prev: Option<Entry>, now: int, e: Entry) {
    && e.url == d.source.url
    && (prev == Some(e)
        || (w.fetch(d.source) == Some(e.entries) && e.fetchedAt == Some(now)
            && e.sha == w.hash(d.Key(), e.url, e.entries)))
  }

  /** Only what the configuration declares survives, each entry being the previous one for the same
      URL or one fetched from the declared URL now. */
  lemma OnlyDeclaredSurvive(w: World, ds: seq<Declared>, entries: map<Key, Entry>, attempts: map<Key, int>, now: int,
                            next: map<Key, Entry>, k: Key)
    requires IsNext(w, ds, entries, attempts, now, next) && k in next
    ensures exists d | d in ds :: d.Key() == k && KeptOrFetched(w, d, Find(entries, k), now, next[k])
  {
    var d :| d in ds && d.Key() == k;
    assert Find(next, k) == VisitOf(w, d, entries, attempts, now).entry;
  }

  /** A source whose URL moved is fetched in the same run, whatever its interval: the old body never
      outlives the move, not even when the fetch is refused. */
  lemma MovedIsRefetched(w: World, d: Declared, prev: Entry, attempt: Option<int>, now: int)
    requires prev.url != d.source.url
    ensures var v := Visited(w, d, Some(prev), attempt, now);
      && v.changed && (v.refused <==> w.fetch(d.source) == None)
      && (v.entry.Some? <==> w.fetch(d.source).Some?)
      && (v.entry.Some? ==> v.entry.value.entries == w.fetch(d.source).value && v.entry.value.url == d.source.url)
  {
  }

  lemma SecondVisitQuiet(w: World, d: Declared, prev: Option<Entry>, attempt: Option<int>, now: int)
    requires d.source.interval > 0
    ensures var v := Visited(w, d, prev, attempt, now); Visited(w, d, v.entry, v.attempt, now).entry == v.entry
  {
  }

  /** A run is idempotent: repeated at once, with whatever was refused refused again, it commits
      nothing. */
  lemma SecondRunQuiet(w: World, ds: seq<Declared>, entries: map<Key, Entry>, attempts: map<Key, int>, now: int,
                       next: map<Key, Entry>, after: map<Key, int>, again: map<Key, Entry>)
    requires forall d | d in ds :: d.source.interval > 0
    requires IsNext(w, ds, entries, attempts, now, next) && AreAttempts(w, ds, entries, attempts, now, after)
    requires IsNext(w, ds, next, after, now, again)
    ensures again == next && !AnyChanged(w, ds, next, after, now)
  {
    forall d | d in ds ensures Find(again, d.Key()) == Find(next, d.Key()) {
      SecondVisitQuiet(w, d, Find(entries, d.Key()), Find(attempts, d.Key()), now);
    }
    forall k ensures Find(again, k) == Find(next, k) {
      if Names(ds, k) { var d :| d in ds && d.Key() == k; }
    }
    assert forall k :: k in again <==> k in next by {
      forall k ensures k in again <==> k in next { assert Find(again, k) == Find(next, k); }
    }
    assert forall k | k in next :: Find(again, k) == Find(next, k);
    ChangedIffDifferent(w, ds, next, after, now, again);
  }

  /** The attempt is recorded before the ledger is saved, so when the save fails the fetched set is
      lost and the source is not fetched again until a whole interval has passed, unless its URL
      moved: the ledger then still holds the old URL and the next run starts over. */
  lemma FailedSaveWaits(w: World, d: Declared, prev: Option<Entry>, attempt: Option<int>, now: int, later: int)
    requires var v := Visited(w, d, prev, attempt, now); v.changed && v.entry.Some?
    requires now <= later < now + d.source.interval
    requires prev.Some? && prev.value.fetchedAt.Some? ==> prev.value.fetchedAt.value <= now
    ensures var again := Visited(w, d, prev, Visited(w, d, prev, attempt, now).attempt, later);
      if prev.Some? && prev.value.url != d.source.url then again.changed
      else !again.changed && !again.refused && again.entry == prev
  {
  }
}
