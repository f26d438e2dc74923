/** The recency list behind the rate limiter's buckets and the verdict cache: front = least recently
    touched, back = most recently. */
module Lru {
  type Key = string

  ghost predicate Distinct(order: seq<Key>) {
    forall i, j | 0 <= i < j < |order| :: order[i] != order[j]
  }

  /** The list without the key's element. */
  function Without(order: seq<Key>, key: Key): seq<Key> {
    if order == [] then []
    else if order[0] == key then order[1..]
    else [order[0]] + Without(order[1..], key)
  }

  /** The list with the key moved, or pushed, to the back. */
  function Touched(order: seq<Key>, key: Key): seq<Key> {
    Without(order, key) + [key]
  }

  /** The list and the map hold the same keys, each once, within the cap. */
  ghost predicate Consistent<V>(order: seq<Key>, entries: map<Key, V>, cap: nat) {
    && Distinct(order) && |order| <= cap
    && (forall k :: k in order <==> k in entries)
  }

  lemma {:induction false} WithoutKeys(order: seq<Key>, key: Key)
    requires Distinct(order)
    ensures Distinct(Without(order, key))
    ensures forall k :: k in Without(order, key) <==> k in order && k != key
    ensures |Without(order, key)| == |order| - if key in order then 1 else 0
  {
    if order != [] {
      assert order[0] !in order[1..];
      if order[0] != key {
        WithoutKeys(order[1..], key);
        assert order[0] !in Without(order[1..], key);
      }
    }
  }

  lemma TouchedKeys(order: seq<Key>, key: Key)
    requires Distinct(order)
    ensures Distinct(Touched(order, key))
    ensures forall k :: k in Touched(order, key) <==> k in order || k == key
    ensures |Touched(order, key)| == |order| + if key in order then 0 else 1
  {
    WithoutKeys(order, key);
  }

  /** When the key was last touched; -1 when it never was. */
  function LastTouch(touches: seq<Key>, key: Key): int {
    if touches == [] then -1
    else if touches[|touches| - 1] == key then |touches| - 1
    else LastTouch(touches[..|touches| - 1], key)
  }

  lemma {:induction false} TouchedBefore(touches: seq<Key>, key: Key)
    ensures LastTouch(touches, key) < |touches|
  {
    if touches != [] { TouchedBefore(touches[..|touches| - 1], key); }
  }

  /** The list is sorted by last touch. */
  ghost predicate ByRecency(order: seq<Key>, touches: seq<Key>) {
    forall i, j | 0 <= i < j < |order| :: LastTouch(touches, order[i]) < LastTouch(touches, order[j])
  }

  lemma {:induction false} WithoutByRecency(order: seq<Key>, touches: seq<Key>, key: Key)
    requires Distinct(order) && ByRecency(order, touches)
    ensures ByRecency(Without(order, key), touches)
  {
    if order != [] && order[0] != key {
      WithoutByRecency(order[1..], touches, key);
      WithoutKeys(order[1..], key);
      var rest := Without(order[1..], key);
      forall j | 0 <= j < |rest| ensures LastTouch(touches, order[0]) < LastTouch(touches, rest[j]) {
        assert rest[j] in rest;
        var i :| 0 <= i < |order[1..]| && order[1..][i] == rest[j];
        assert order[i + 1] == rest[j];
      }
    }
  }

  lemma TouchedByRecency(order: seq<Key>, touches: seq<Key>, key: Key)
    requires Distinct(order) && ByRecency(order, touches)
    ensures ByRecency(Touched(order, key), touches + [key])
  {
    WithoutByRecency(order, touches, key);
    WithoutKeys(order, key);
    var o := Touched(order, key);
    assert (touches + [key])[..|touches|] == touches;
    forall i, j | 0 <= i < j < |o| ensures LastTouch(touches + [key], o[i]) < LastTouch(touches + [key], o[j]) {
      assert o[i] in Without(order, key);
      if j < |o| - 1 { assert o[j] in Without(order, key); }
      TouchedBefore(touches, o[i]);
    }
  }
}
