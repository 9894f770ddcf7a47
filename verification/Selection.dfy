/**
 * Selecting the elements of a list that satisfy a condition.
 *
 * `Filter` is what a comprehension with a condition computes. `Places` says where
 * the selected elements stand, in order, so that a claim about a selection can be
 * read as one about places in the list: one element is selected exactly when the
 * condition holds in one place, the last one selected stands in the last such
 * place, and two selected elements keep their order. Where the list is an
 * execution trace, a place is a moment.
 */
module Selection {

  function Filter<T>(f: T -> bool, xs: seq<T>): (r: seq<T>)
    ensures |r| <= |xs|
    decreases |xs|
  {
    if xs == [] then [] else (if f(xs[0]) then [xs[0]] else []) + Filter(f, xs[1..])
  }

  predicate At<T>(f: T -> bool, xs: seq<T>, i: int) {
    0 <= i < |xs| && f(xs[i])
  }

  /** The condition holds in one place. */
  ghost predicate Only<T>(f: T -> bool, xs: seq<T>, i: int) {
    At(f, xs, i) && forall j :: At(f, xs, j) ==> j == i
  }

  /** The places where the condition holds, in order. */
  function Places<T>(f: T -> bool, xs: seq<T>): (r: seq<nat>)
    ensures forall k :: 0 <= k < |r| ==> At(f, xs, r[k])
    ensures forall i :: At(f, xs, i) ==> i in r
    decreases |xs|
  {
    if xs == [] then []
    else
      var n := |xs| - 1;
      var before := Places(f, xs[..n]);
      assert forall k :: 0 <= k < |before| ==> At(f, xs[..n], before[k]);
      assert forall i :: At(f, xs, i) && i < n ==> At(f, xs[..n], i);
      if f(xs[n]) then before + [n] else before
  }

  lemma {:induction false} PlacesIncrease<T>(f: T -> bool, xs: seq<T>, j: nat, k: nat)
    requires j < k < |Places(f, xs)|
    ensures Places(f, xs)[j] < Places(f, xs)[k] < |xs|
    decreases |xs|
  {
    var n := |xs| - 1;
    var before := Places(f, xs[..n]);
    assert At(f, xs[..n], before[j]);
    if k < |before| {
      PlacesIncrease(f, xs[..n], j, k);
    }
  }

  lemma Associates<T>(a: seq<T>, b: seq<T>, c: seq<T>)
    ensures a + (b + c) == a + b + c
  {
  }

  lemma {:induction false} FilterConcat<T>(f: T -> bool, a: seq<T>, b: seq<T>)
    ensures Filter(f, a + b) == Filter(f, a) + Filter(f, b)
    decreases |a|
  {
    if a == [] {
      assert a + b == b;
    } else {
      FilterConcat(f, a[1..], b);
      assert (a + b)[0] == a[0] && (a + b)[1..] == a[1..] + b;
      Associates(if f(a[0]) then [a[0]] else [], Filter(f, a[1..]), Filter(f, b));
    }
  }

  /** A selection is the list of what stands in its places. */
  lemma {:induction false} FilterAt<T>(f: T -> bool, xs: seq<T>)
    ensures |Filter(f, xs)| == |Places(f, xs)|
    ensures forall k :: 0 <= k < |Filter(f, xs)| ==> Filter(f, xs)[k] == xs[Places(f, xs)[k]]
    decreases |xs|
  {
    if xs != [] {
      var n := |xs| - 1;
      FilterAt(f, xs[..n]);
      FilterConcat(f, xs[..n], [xs[n]]);
      assert xs == xs[..n] + [xs[n]];
      assert Filter(f, [xs[n]]) == if f(xs[n]) then [xs[n]] else [];
    }
  }

  /** One element is selected exactly when the condition holds in one place. */
  lemma SelectsOne<T>(f: T -> bool, xs: seq<T>)
    ensures |Filter(f, xs)| == 1 <==> exists i :: Only(f, xs, i)
    ensures |Filter(f, xs)| == 1 ==> Only(f, xs, Places(f, xs)[0]) && Filter(f, xs) == [xs[Places(f, xs)[0]]]
  {
    FilterAt(f, xs);
    var places := Places(f, xs);
    if |places| > 1 {
      PlacesIncrease(f, xs, 0, 1);
    }
    if |places| == 1 {
      assert Only(f, xs, places[0]);
    }
    if i :| Only(f, xs, i) {
      assert i in places;
      forall k | 0 <= k < |places| ensures places[k] == i {
        assert At(f, xs, places[k]);
      }
      assert |places| == 1;
    }
  }

  /** Two elements are selected when the condition holds in two places. */
  lemma TwoSelected<T>(f: T -> bool, xs: seq<T>, i: nat, j: nat)
    requires i < j && At(f, xs, i) && At(f, xs, j) && forall k :: At(f, xs, k) ==> k == i || k == j
    ensures Filter(f, xs) == [xs[i], xs[j]]
  {
    FilterAt(f, xs);
    var places := Places(f, xs);
    assert forall k :: 0 <= k < |places| ==> At(f, xs, places[k]);
    if |places| > 1 {
      PlacesIncrease(f, xs, 0, 1);
    }
    if |places| > 2 {
      PlacesIncrease(f, xs, 1, 2);
    }
    assert i in places && j in places;
  }

  lemma FilterNone<T>(f: T -> bool, xs: seq<T>)
    ensures Filter(f, xs) == [] <==> forall i :: !At(f, xs, i)
  {
    FilterAt(f, xs);
    if Places(f, xs) != [] {
      assert At(f, xs, Places(f, xs)[0]);
    }
  }

  lemma FilterMembers<T>(f: T -> bool, xs: seq<T>, x: T)
    ensures x in Filter(f, xs) <==> x in xs && f(x)
  {
    FilterAt(f, xs);
    var places := Places(f, xs);
    if x in xs && f(x) {
      var i :| 0 <= i < |xs| && xs[i] == x;
      assert At(f, xs, i);
      var k :| 0 <= k < |places| && places[k] == i;
      assert Filter(f, xs)[k] == x;
    }
    if x in Filter(f, xs) {
      var k :| 0 <= k < |Filter(f, xs)| && Filter(f, xs)[k] == x;
      assert At(f, xs, places[k]);
    }
  }

  lemma FilterElements<T(!new)>(f: T -> bool, xs: seq<T>)
    ensures forall x :: x in Filter(f, xs) <==> x in xs && f(x)
  {
    forall x ensures x in Filter(f, xs) <==> x in xs && f(x) {
      FilterMembers(f, xs, x);
    }
  }

  /** The last element selected, and where it stands. */
  lemma LastSelected<T>(f: T -> bool, xs: seq<T>) returns (i: nat)
    requires Filter(f, xs) != []
    ensures At(f, xs, i) && Filter(f, xs)[|Filter(f, xs)| - 1] == xs[i]
    ensures forall j :: At(f, xs, j) ==> j <= i
  {
    FilterAt(f, xs);
    var places := Places(f, xs);
    i := places[|places| - 1];
    forall j | At(f, xs, j) ensures j <= i {
      var k :| 0 <= k < |places| && places[k] == j;
      if k < |places| - 1 {
        PlacesIncrease(f, xs, k, |places| - 1);
      }
    }
  }
}
