/** Runs of flushes: which hours end up in the store, and when. */
module Flushing {
  import opened Collector
  import opened Traffic

  /** The mark and the store before the first flush and after each; between flushes neither moves. The
      clock does not go back, and the mark lies behind it: nothing was flushed yet, or a start has put
      it at the hour before the one it found. */
  ghost predicate Run(ticks: seq<Tick>, marks: seq<int>, stores: seq<map<int, seq<Row>>>) {
    && |marks| == |stores| == |ticks| + 1
    && (forall i | 0 <= i < |ticks| :: ticks[i].nowHour > 1 && marks[0] < ticks[i].nowHour)
    && (forall i, j | 0 <= i < j < |ticks| :: ticks[i].nowHour <= ticks[j].nowHour)
    && (forall i | 0 <= i < |ticks| :: Flushes(ticks[i], marks[i], stores[i], marks[i + 1], stores[i + 1]))
  }

  /** The first flush that is not forced, or k before there is any. */
  function FirstRegular(ticks: seq<Tick>, i: nat, k: nat): (j: nat)
    requires i <= k < |ticks|
    ensures i <= j <= k && (forall n | i <= n < j :: ticks[n].force) && (j < k ==> !ticks[j].force)
    decreases k - i
  {
    if i < k && ticks[i].force then FirstRegular(ticks, i + 1, k) else i
  }

  /** The first hour a run is answerable for: the one behind the mark it starts with, or the hour before its
      first flush. */
  function Origin(ticks: seq<Tick>, mark: int, k: nat): int
    requires k < |ticks|
  {
    if mark != 0 then mark + 1 else ticks[FirstRegular(ticks, 0, k)].nowHour - 1
  }

  /** Flush k is the first since the hour ended; a forced one takes the running hour along. */
  predicate FirstSinceItEnded(ticks: seq<Tick>, k: nat, h: int)
    requires k < |ticks|
  {
    && (h < ticks[k].nowHour || (ticks[k].force && h == ticks[k].nowHour))
    && forall i | 0 <= i < k && !ticks[i].force :: ticks[i].nowHour <= h
  }

  /** Flush i is the last regular one before flush k. */
  predicate LastRegular(ticks: seq<Tick>, i: nat, k: nat)
    requires k <= |ticks|
  {
    i < k && !ticks[i].force && forall j | i < j < k :: ticks[j].force
  }

  /** The mark is where the last regular flush put it. */
  lemma {:induction false} MarkAt(ticks: seq<Tick>, marks: seq<int>, stores: seq<map<int, seq<Row>>>, k: nat)
    requires Run(ticks, marks, stores) && k <= |ticks|
    ensures (forall i | 0 <= i < k :: ticks[i].force) ==> marks[k] == marks[0]
    ensures (exists i | 0 <= i < k :: !ticks[i].force) ==>
              exists i | 0 <= i < k :: LastRegular(ticks, i, k) && marks[k] == ticks[i].nowHour - 1
  {
    if k > 0 {
      MarkAt(ticks, marks, stores, k - 1);
      assert Flushes(ticks[k - 1], marks[k - 1], stores[k - 1], marks[k], stores[k]);
      if !ticks[k - 1].force {
        assert LastRegular(ticks, k - 1, k);
      } else if i :| 0 <= i < k - 1 && LastRegular(ticks, i, k - 1) && marks[k - 1] == ticks[i].nowHour - 1 {
        assert LastRegular(ticks, i, k);
      }
    }
  }

  /** The hours behind the mark are those no regular flush has seen ended. */
  lemma BehindMark(ticks: seq<Tick>, marks: seq<int>, stores: seq<map<int, seq<Row>>>, k: nat, h: int)
    requires Run(ticks, marks, stores) && k < |ticks|
    ensures var t := ticks[k];
      (if marks[k] == 0 then h == t.nowHour - 1 else marks[k] < h < t.nowHour) || (t.force && h == t.nowHour)
      <==> Origin(ticks, marks[0], k) <= h && FirstSinceItEnded(ticks, k, h)
  {
    MarkAt(ticks, marks, stores, k);
    if i :| 0 <= i < k && LastRegular(ticks, i, k) && marks[k] == ticks[i].nowHour - 1 {
      var j := FirstRegular(ticks, 0, k);
      assert j <= i;
      assert ticks[j].nowHour <= ticks[i].nowHour;
      assert forall n | 0 <= n < k && !ticks[n].force :: n <= i;
    }
  }

  /** At each flush exactly the accepted hours it is the first to see ended are written, with what the
      slots hold at that moment, and every other hour is left as pruning leaves it. */
  lemma WrittenAtIff(ticks: seq<Tick>, marks: seq<int>, stores: seq<map<int, seq<Row>>>, k: nat, h: int)
    requires Run(ticks, marks, stores) && k < |ticks|
    ensures var t := ticks[k];
      if t.accepts(h) && Origin(ticks, marks[0], k) <= h && FirstSinceItEnded(ticks, k, h)
      then t.Shaped() && WrittenHour(t.minutes, t.hours, h, t.partial(h), t.Left(HourRows(stores[k], h), h),
                                     HourRows(stores[k + 1], h))
      else HourRows(stores[k + 1], h) == t.Left(HourRows(stores[k], h), h)
  {
    BehindMark(ticks, marks, stores, k, h);
    assert Flushes(ticks[k], marks[k], stores[k], marks[k + 1], stores[k + 1]);
  }

  /** No flush of the stretch prunes the hour. */
  predicate Kept(ticks: seq<Tick>, lo: nat, hi: nat, h: int)
    requires lo <= hi <= |ticks|
  {
    forall i | lo <= i < hi && ticks[i].enabled :: ticks[i].nowHour - 24 * ticks[i].retentionDays <= h
  }

  /** A flush after the one that passed the hour leaves it alone. */
  lemma NotAgain(ticks: seq<Tick>, marks: seq<int>, stores: seq<map<int, seq<Row>>>, i: nat, k: nat, h: int)
    requires Run(ticks, marks, stores) && i < k < |ticks| && !ticks[i].force && h < ticks[i].nowHour
    ensures HourRows(stores[k + 1], h) == ticks[k].Left(HourRows(stores[k], h), h)
  {
    WrittenAtIff(ticks, marks, stores, k, h);
    assert !FirstSinceItEnded(ticks, k, h);
  }

  /** Flush k only prunes the hour. */
  predicate LeftAlone(ticks: seq<Tick>, stores: seq<map<int, seq<Row>>>, k: nat, h: int)
    requires k < |ticks| && |stores| == |ticks| + 1
  {
    HourRows(stores[k + 1], h) == ticks[k].Left(HourRows(stores[k], h), h)
  }

  lemma {:induction false} LeftAloneThroughout(ticks: seq<Tick>, stores: seq<map<int, seq<Row>>>, lo: nat, m: nat,
                                               h: int)
    requires |stores| == |ticks| + 1 && lo <= m <= |ticks| && Kept(ticks, lo, m, h)
    requires forall k | lo <= k < m :: LeftAlone(ticks, stores, k, h)
    ensures HourRows(stores[m], h) == HourRows(stores[lo], h)
    decreases m
  {
    if m > lo {
      LeftAloneThroughout(ticks, stores, lo, m - 1, h);
      assert LeftAlone(ticks, stores, m - 1, h);
    }
  }

  /** Once a regular flush has passed an hour, it stays as it is until it is pruned. */
  lemma StaysWritten(ticks: seq<Tick>, marks: seq<int>, stores: seq<map<int, seq<Row>>>, i: nat, m: nat, h: int)
    requires Run(ticks, marks, stores) && i < m <= |ticks|
    requires !ticks[i].force && h < ticks[i].nowHour && Kept(ticks, i + 1, m, h)
    ensures HourRows(stores[m], h) == HourRows(stores[i + 1], h)
  {
    forall k | i + 1 <= k < m ensures LeftAlone(ticks, stores, k, h) {
      NotAgain(ticks, marks, stores, i, k, h);
    }
    LeftAloneThroughout(ticks, stores, i + 1, m, h);
  }

  /** Over any run, every hour it is answerable for is in the store after the first regular flush that finds
      it over, if that is accepted, as the slots held it at that flush, and until it is pruned. */
  lemma EveryHourWritten(ticks: seq<Tick>, marks: seq<int>, stores: seq<map<int, seq<Row>>>, i: nat, m: nat, h: int)
    requires Run(ticks, marks, stores) && i < m <= |ticks|
    requires Origin(ticks, marks[0], i) <= h < ticks[i].nowHour && !ticks[i].force && ticks[i].accepts(h)
    requires forall j | 0 <= j < i && !ticks[j].force :: ticks[j].nowHour <= h
    requires Kept(ticks, i + 1, m, h)
    ensures ticks[i].Shaped()
      && WrittenHour(ticks[i].minutes, ticks[i].hours, h, ticks[i].partial(h), ticks[i].Left(HourRows(stores[i], h), h),
                     HourRows(stores[m], h))
  {
    WrittenAtIff(ticks, marks, stores, i, h);
    StaysWritten(ticks, marks, stores, i, m, h);
  }

  /** Such a flush there is for every hour from the origin to the one before the last regular flush. */
  lemma SomeFlushPasses(ticks: seq<Tick>, last: nat, h: int) returns (i: nat)
    requires last < |ticks| && !ticks[last].force && h < ticks[last].nowHour
    ensures i <= last && !ticks[i].force && h < ticks[i].nowHour
    ensures forall j | 0 <= j < i && !ticks[j].force :: ticks[j].nowHour <= h
  {
    i := 0;
    while ticks[i].force || ticks[i].nowHour <= h
      invariant i <= last && forall j | 0 <= j < i && !ticks[j].force :: ticks[j].nowHour <= h
      decreases last - i
    {
      i := i + 1;
    }
  }
}
