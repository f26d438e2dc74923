/** Finite sums: over a set, over a range of integers, over a sequence. */
module Sums {
  ghost function Over<T(!new)>(s: set<T>, g: T -> int): int {
    if s == {} then 0
    else
      var x :| x in s;
      g(x) + Over(s - {x}, g)
  }

  lemma {:induction false} OverTake<T(!new)>(s: set<T>, g: T -> int, x: T)
    requires x in s
    ensures Over(s, g) == g(x) + Over(s - {x}, g)
  {
    var y :| y in s && Over(s, g) == g(y) + Over(s - {y}, g);
    if y != x {
      OverTake(s - {y}, g, x);
      OverTake(s - {x}, g, y);
      assert s - {y} - {x} == s - {x} - {y};
    }
  }

  lemma {:induction false} OverAdd<T(!new)>(s: set<T>, g: T -> int, h: T -> int, k: T -> int)
    requires forall x | x in s :: k(x) == g(x) + h(x)
    ensures Over(s, k) == Over(s, g) + Over(s, h)
  {
    if x :| x in s {
      OverTake(s, g, x);
      OverTake(s, h, x);
      OverTake(s, k, x);
      OverAdd(s - {x}, g, h, k);
    }
  }

  lemma {:induction false} OverSame<T(!new)>(s: set<T>, g: T -> int, h: T -> int)
    requires forall x | x in s :: g(x) == h(x)
    ensures Over(s, g) == Over(s, h)
  {
    if x :| x in s {
      OverTake(s, g, x);
      OverTake(s, h, x);
      OverSame(s - {x}, g, h);
    }
  }

  lemma {:induction false} OverZero<T(!new)>(s: set<T>, g: T -> int)
    requires forall x | x in s :: g(x) == 0
    ensures Over(s, g) == 0
  {
    if x :| x in s {
      OverTake(s, g, x);
      OverZero(s - {x}, g);
    }
  }

  /** A sum of larger terms is larger, and strictly so unless every term is equal. */
  lemma {:induction false} OverLeq<T(!new)>(s: set<T>, g: T -> int, h: T -> int)
    requires forall x | x in s :: g(x) <= h(x)
    ensures Over(s, g) <= Over(s, h)
    ensures Over(s, g) == Over(s, h) <==> forall x | x in s :: g(x) == h(x)
  {
    if x :| x in s {
      OverTake(s, g, x);
      OverTake(s, h, x);
      OverLeq(s - {x}, g, h);
      assert forall y | y in s :: y == x || y in s - {x};
    }
  }

  /** Elements that add nothing may be left out. */
  lemma {:induction false} OverSupport<T(!new)>(s: set<T>, t: set<T>, g: T -> int)
    requires s <= t && forall x | x in t - s :: g(x) == 0
    ensures Over(s, g) == Over(t, g)
  {
    if x :| x in t - s {
      OverTake(t, g, x);
      OverSupport(s, t - {x}, g);
    } else {
      assert t == s + (t - s) && t - s == {};
      assert s + {} == s;
    }
  }

  /** Changing one element's value. */
  lemma OverUpdate<T(!new)>(s: set<T>, g: T -> int, h: T -> int, x: T)
    requires forall y | y in s && y != x :: g(y) == h(y)
    requires x !in s ==> g(x) == 0
    ensures Over(s + {x}, h) == Over(s, g) - g(x) + h(x)
  {
    OverTake(s + {x}, h, x);
    OverSame((s + {x}) - {x}, g, h);
    if x in s {
      OverTake(s, g, x);
      assert (s + {x}) - {x} == s - {x};
    } else {
      assert (s + {x}) - {x} == s;
    }
  }

  function Range(lo: int, hi: int, g: int -> int): int
    decreases hi - lo
  {
    if lo >= hi then 0 else Range(lo, hi - 1, g) + g(hi - 1)
  }

  lemma {:induction false} RangeSame(lo: int, hi: int, g: int -> int, h: int -> int)
    requires forall i | lo <= i < hi :: g(i) == h(i)
    ensures Range(lo, hi, g) == Range(lo, hi, h)
    decreases hi - lo
  {
    if lo < hi { RangeSame(lo, hi - 1, g, h); }
  }

  lemma {:induction false} RangeAdd(lo: int, hi: int, g: int -> int, h: int -> int, k: int -> int)
    requires forall i | lo <= i < hi :: k(i) == g(i) + h(i)
    ensures Range(lo, hi, k) == Range(lo, hi, g) + Range(lo, hi, h)
    decreases hi - lo
  {
    if lo < hi { RangeAdd(lo, hi - 1, g, h, k); }
  }

  lemma {:induction false} RangeLeq(lo: int, hi: int, g: int -> int, h: int -> int)
    requires forall i | lo <= i < hi :: g(i) <= h(i)
    ensures Range(lo, hi, g) <= Range(lo, hi, h)
    ensures Range(lo, hi, g) == Range(lo, hi, h) <==> forall i | lo <= i < hi :: g(i) == h(i)
    decreases hi - lo
  {
    if lo < hi { RangeLeq(lo, hi - 1, g, h); }
  }

  lemma {:induction false} RangeZero(lo: int, hi: int, g: int -> int)
    requires forall i | lo <= i < hi :: g(i) == 0
    ensures Range(lo, hi, g) == 0
    decreases hi - lo
  {
    if lo < hi { RangeZero(lo, hi - 1, g); }
  }

  /** A sum with one non-zero term. */
  lemma {:induction false} RangeOnly(lo: int, hi: int, g: int -> int, one: int)
    requires forall i | lo <= i < hi && i != one :: g(i) == 0
    ensures Range(lo, hi, g) == if lo <= one < hi then g(one) else 0
    decreases hi - lo
  {
    if lo < hi { RangeOnly(lo, hi - 1, g, one); }
  }

  lemma {:induction false} RangeSplit(lo: int, mid: int, hi: int, g: int -> int)
    requires lo <= mid <= hi
    ensures Range(lo, hi, g) == Range(lo, mid, g) + Range(mid, hi, g)
    decreases hi - mid
  {
    if mid < hi { RangeSplit(lo, mid, hi - 1, g); }
  }

  ghost function OverAt<T(!new)>(all: set<T>, term: (int, T) -> int, m: int): int {
    Over(all, x => term(m, x))
  }

  lemma OverAtSame<T(!new)>(all: set<T>, f: T -> int, term: (int, T) -> int, m: int)
    requires forall x :: f(x) == term(m, x)
    ensures Over(all, f) == OverAt(all, term, m)
  {
    OverSame(all, f, x => term(m, x));
  }

  function RangeAt<T>(lo: int, hi: int, term: (int, T) -> int, x: T): int {
    Range(lo, hi, m => term(m, x))
  }

  /** Sums may be exchanged. */
  lemma {:induction false} RangeOver<T(!new)>(lo: int, hi: int, all: set<T>, slot: int -> int, term: (int, T) -> int)
    requires forall m | lo <= m < hi :: slot(m) == OverAt(all, term, m)
    ensures Range(lo, hi, slot) == Over(all, x => RangeAt(lo, hi, term, x))
    decreases hi - lo
  {
    if lo >= hi {
      OverZero(all, (x: T) => RangeAt(lo, hi, term, x));
    } else {
      RangeOver(lo, hi - 1, all, slot, term);
      forall x ensures RangeAt(lo, hi, term, x) == RangeAt(lo, hi - 1, term, x) + term(hi - 1, x) {
        RangeStep(lo, hi, m => term(m, x));
      }
      OverAdd(all, x => RangeAt(lo, hi - 1, term, x), x => term(hi - 1, x), x => RangeAt(lo, hi, term, x));
    }
  }

  lemma RangeStep(lo: int, hi: int, g: int -> int)
    requires lo < hi
    ensures Range(lo, hi, g) == Range(lo, hi - 1, g) + g(hi - 1)
  {
  }

  function Each<T>(xs: seq<T>, g: T -> int): int {
    if xs == [] then 0 else Each(xs[..|xs| - 1], g) + g(xs[|xs| - 1])
  }

  lemma EachMore<T>(xs: seq<T>, x: T, g: T -> int)
    ensures Each(xs + [x], g) == Each(xs, g) + g(x)
  {
    assert (xs + [x])[..|xs|] == xs;
  }

  lemma {:induction false} EachSame<T>(xs: seq<T>, g: T -> int, h: T -> int)
    requires forall x | x in xs :: g(x) == h(x)
    ensures Each(xs, g) == Each(xs, h)
  {
    if xs != [] { EachSame(xs[..|xs| - 1], g, h); }
  }

  ghost predicate Distinct<T>(xs: seq<T>) {
    forall i, j | 0 <= i < j < |xs| :: xs[i] != xs[j]
  }

  /** A sum with at most one non-zero term. */
  lemma {:induction false} EachOnly<T>(xs: seq<T>, g: T -> int, one: T)
    requires Distinct(xs) && forall x | x in xs && x != one :: g(x) == 0
    ensures Each(xs, g) == if one in xs then g(one) else 0
  {
    if xs != [] {
      var front, last := xs[..|xs| - 1], xs[|xs| - 1];
      EachOnly(front, g, one);
      assert last !in front;
    }
  }

  lemma {:induction false} EachZero<T>(xs: seq<T>, g: T -> int)
    requires forall x | x in xs :: g(x) == 0
    ensures Each(xs, g) == 0
  {
    if xs != [] { EachZero(xs[..|xs| - 1], g); }
  }
}
