/**
 * Stable sorting by a comparison, as the library sorts of both languages do it,
 * and the fact that makes a sorted list independent of the order sorted.
 *
 * A comparison is a total preorder on the elements at hand. Sorting keeps the
 * elements and the order of those that tie; where ties are equal, a sorted list
 * is determined by its elements, whatever order they came in. What is expanded
 * element by element keeps its elements when the list is rearranged.
 */
module Sorting {

  import opened Basics

  /** An order on texts, in place of a locale's. */
  type TextOrder = (string, string) -> bool

  ghost predicate TotalOrder<T(!new)>(le: (T, T) -> bool) {
    (forall a, b {:trigger le(a, b)} :: le(a, b) || le(b, a))
    && (forall a, b, c {:trigger le(a, b), le(b, c)} :: le(a, b) && le(b, c) ==> le(a, c))
    && (forall a, b {:trigger le(a, b), le(b, a)} :: le(a, b) && le(b, a) ==> a == b)
  }

  /** A total preorder on the elements of `s`. */
  ghost predicate Comparable<T>(le: (T, T) -> bool, s: set<T>) {
    (forall a, b {:trigger le(a, b)} :: a in s && b in s ==> le(a, b) || le(b, a))
    && (forall a, b, c {:trigger le(a, b), le(b, c)} :: a in s && b in s && c in s && le(a, b) && le(b, c) ==> le(a, c))
  }

  ghost predicate Sorted<T>(le: (T, T) -> bool, xs: seq<T>) {
    xs == [] || (Leads(le, xs[0], xs[1..]) && Sorted(le, xs[1..]))
  }

  ghost predicate Leads<T>(le: (T, T) -> bool, x: T, ys: seq<T>) {
    forall y :: y in ys ==> le(x, y)
  }

  /** `x` goes before the first element it does not have to follow. */
  function Insert<T>(le: (T, T) -> bool, x: T, xs: seq<T>): (r: seq<T>)
    ensures multiset(r) == multiset{x} + multiset(xs)
  {
    if xs == [] then [x]
    else if le(x, xs[0]) then [x] + xs
    else
      assert xs == [xs[0]] + xs[1..];
      [xs[0]] + Insert(le, x, xs[1..])
  }

  function Sort<T>(le: (T, T) -> bool, xs: seq<T>): (r: seq<T>)
    ensures multiset(r) == multiset(xs)
  {
    if xs == [] then []
    else
      assert xs == [xs[0]] + xs[1..];
      Insert(le, xs[0], Sort(le, xs[1..]))
  }

  lemma {:induction false} InsertElements<T>(le: (T, T) -> bool, x: T, xs: seq<T>)
    ensures Elements(Insert(le, x, xs)) == {x} + Elements(xs)
  {
    SameElements(Insert(le, x, xs), [x] + xs);
  }

  lemma SameElements<T>(xs: seq<T>, ys: seq<T>)
    requires multiset(xs) == multiset(ys)
    ensures Elements(xs) == Elements(ys) && |xs| == |ys|
  {
    forall x ensures x in xs <==> x in ys {
      assert x in xs <==> x in multiset(xs);
      assert x in ys <==> x in multiset(ys);
    }
    assert |multiset(xs)| == |xs| && |multiset(ys)| == |ys|;
  }

  lemma {:induction false} InsertSorted<T>(le: (T, T) -> bool, x: T, xs: seq<T>)
    requires Sorted(le, xs) && Comparable(le, {x} + Elements(xs))
    ensures Sorted(le, Insert(le, x, xs))
  {
    if xs != [] {
      var y := xs[0];
      assert y in Elements(xs);
      if le(x, y) {
        forall z | z in xs ensures le(x, z) {
          assert z in Elements(xs);
          if z != y {
            assert z in xs[1..];
            assert le(y, z);
          } else {
            assert le(x, z);
          }
        }
        assert ([x] + xs)[1..] == xs;
      } else {
        assert Elements(xs[1..]) <= Elements(xs);
        InsertSorted(le, x, xs[1..]);
        InsertElements(le, x, xs[1..]);
        var rest := Insert(le, x, xs[1..]);
        forall z | z in rest ensures le(y, z) {
          assert z in Elements(rest);
          if z == x {
            assert le(x, y) || le(y, x);
          } else {
            assert z in xs[1..];
          }
        }
        assert ([y] + rest)[1..] == rest;
      }
    }
  }

  lemma {:induction false} SortSorted<T>(le: (T, T) -> bool, xs: seq<T>)
    requires Comparable(le, Elements(xs))
    ensures Sorted(le, Sort(le, xs))
  {
    if xs != [] {
      assert Elements(xs[1..]) <= Elements(xs);
      SortSorted(le, xs[1..]);
      SameElements(Sort(le, xs[1..]), xs[1..]);
      assert xs[0] in Elements(xs);
      assert {xs[0]} + Elements(xs[1..]) <= Elements(xs);
      InsertSorted(le, xs[0], Sort(le, xs[1..]));
    }
  }

  ghost predicate NoTies<T>(le: (T, T) -> bool, s: set<T>) {
    forall a, b {:trigger le(a, b), le(b, a)} :: a in s && b in s && le(a, b) && le(b, a) ==> a == b
  }

  lemma {:induction false} SortedPair<T>(le: (T, T) -> bool, xs: seq<T>, i: nat, j: nat)
    requires Sorted(le, xs) && i < j < |xs|
    ensures le(xs[i], xs[j])
    decreases i
  {
    if i == 0 {
      assert xs[j] == xs[1..][j - 1];
    } else {
      SortedPair(le, xs[1..], i - 1, j - 1);
    }
  }

  lemma HeadLeast<T>(le: (T, T) -> bool, xs: seq<T>, y: T)
    requires Sorted(le, xs) && y in xs
    ensures y == xs[0] || le(xs[0], y)
  {
    assert y == xs[0] || y in xs[1..];
  }

  lemma SameHead<T>(le: (T, T) -> bool, xs: seq<T>, ys: seq<T>)
    requires xs != [] && multiset(xs) == multiset(ys) && Sorted(le, xs) && Sorted(le, ys) && NoTies(le, Elements(xs))
    ensures ys != [] && xs[0] == ys[0]
  {
    SameElements(xs, ys);
    assert ys[0] in Elements(ys) && xs[0] in Elements(xs);
    HeadLeast(le, xs, ys[0]);
    HeadLeast(le, ys, xs[0]);
  }

  lemma SameTail<T>(xs: seq<T>, ys: seq<T>)
    requires xs != [] && ys != [] && xs[0] == ys[0] && multiset(xs) == multiset(ys)
    ensures multiset(xs[1..]) == multiset(ys[1..])
  {
    assert xs == [xs[0]] + xs[1..] && ys == [ys[0]] + ys[1..];
    assert multiset(xs[1..]) == multiset(xs) - multiset{xs[0]};
    assert multiset(ys[1..]) == multiset(ys) - multiset{ys[0]};
  }

  /** Where ties are equal, a sorted list is determined by its elements. */
  lemma {:induction false} SortedUnique<T>(le: (T, T) -> bool, xs: seq<T>, ys: seq<T>)
    requires multiset(xs) == multiset(ys) && Sorted(le, xs) && Sorted(le, ys) && NoTies(le, Elements(xs))
    ensures xs == ys
    decreases |xs|
  {
    SameElements(xs, ys);
    if xs != [] {
      SameHead(le, xs, ys);
      SameTail(xs, ys);
      assert Elements(xs[1..]) <= Elements(xs);
      SortedUnique(le, xs[1..], ys[1..]);
      assert xs == [xs[0]] + xs[1..] && ys == [ys[0]] + ys[1..];
    }
  }

  /** Every element occurs once. */
  ghost predicate Once<T>(xs: seq<T>) {
    forall x :: x in xs ==> multiset(xs)[x] == 1
  }

  lemma {:induction false} DistinctOnce<T>(xs: seq<T>)
    requires forall i, j :: 0 <= i < j < |xs| ==> xs[i] != xs[j]
    ensures Once(xs)
  {
    if xs != [] {
      DistinctOnce(xs[1..]);
      assert xs == [xs[0]] + xs[1..];
      assert xs[0] !in xs[1..];
      assert multiset(xs[1..])[xs[0]] == 0;
    }
  }

  /* ---- stability ---- */

  predicate Tied<T>(le: (T, T) -> bool, x: T, y: T) {
    le(x, y) && le(y, x)
  }

  /** The elements that tie with `x`, in their order. */
  function Ties<T>(le: (T, T) -> bool, x: T, xs: seq<T>): seq<T> {
    if xs == [] then [] else (if Tied(le, x, xs[0]) then [xs[0]] else []) + Ties(le, x, xs[1..])
  }

  lemma TiesCons<T>(le: (T, T) -> bool, x: T, y: T, ys: seq<T>)
    ensures Ties(le, x, [y] + ys) == (if Tied(le, x, y) then [y] + Ties(le, x, ys) else Ties(le, x, ys))
  {
    assert ([y] + ys)[1..] == ys;
  }

  lemma {:induction false} InsertTies<T>(le: (T, T) -> bool, x: T, y: T, ys: seq<T>)
    requires Tied(le, x, y) ==> forall w :: w in ys && Tied(le, x, w) ==> le(y, w)
    ensures Ties(le, x, Insert(le, y, ys)) == if Tied(le, x, y) then [y] + Ties(le, x, ys) else Ties(le, x, ys)
  {
    if ys == [] || le(y, ys[0]) {
      assert [y] + ys == Insert(le, y, ys);
      TiesCons(le, x, y, ys);
    } else {
      var z, tail := ys[0], ys[1..];
      assert forall w :: w in tail ==> w in ys;
      InsertTies(le, x, y, tail);
      InsertPast(le, x, y, z, tail, Insert(le, y, tail));
      assert ys == [z] + tail;
    }
  }

  /** Moving past an element that does not tie, or past which nothing that ties moves. */
  lemma InsertPast<T>(le: (T, T) -> bool, x: T, y: T, z: T, tail: seq<T>, rest: seq<T>)
    requires !(Tied(le, x, y) && Tied(le, x, z))
    requires Ties(le, x, rest) == if Tied(le, x, y) then [y] + Ties(le, x, tail) else Ties(le, x, tail)
    ensures Ties(le, x, [z] + rest) == if Tied(le, x, y) then [y] + Ties(le, x, [z] + tail) else Ties(le, x, [z] + tail)
  {
    TiesCons(le, x, z, rest);
    TiesCons(le, x, z, tail);
  }

  /** Sorting keeps the order of elements that tie. */
  lemma {:induction false} SortStable<T>(le: (T, T) -> bool, x: T, xs: seq<T>)
    requires Comparable(le, {x} + Elements(xs))
    ensures Ties(le, x, Sort(le, xs)) == Ties(le, x, xs)
  {
    if xs != [] {
      var y, sorted := xs[0], Sort(le, xs[1..]);
      assert y in Elements(xs);
      assert {x} + Elements(xs[1..]) <= {x} + Elements(xs);
      SortStable(le, x, xs[1..]);
      SameElements(sorted, xs[1..]);
      assert forall w :: w in sorted <==> w in Elements(sorted);
      InsertTies(le, x, y, sorted);
      assert xs == [y] + xs[1..];
      TiesCons(le, x, y, xs[1..]);
    }
  }

  /* ---- rearranging ---- */

  lemma Without<T>(xs: seq<T>, i: nat)
    requires i < |xs|
    ensures multiset(xs[..i] + xs[i + 1..]) == multiset(xs) - multiset{xs[i]}
  {
    assert xs == xs[..i] + [xs[i]] + xs[i + 1..];
  }

  lemma BagOfParts<B>(a: seq<B>, x: seq<B>, b: seq<B>)
    ensures multiset((a + x) + b) == multiset(x) + multiset(a + b)
  {
  }

  lemma FlatMapWithout<A, B>(f: A -> seq<B>, xs: seq<A>, i: nat)
    requires i < |xs|
    ensures multiset(FlatMap(f, xs)) == multiset(f(xs[i])) + multiset(FlatMap(f, xs[..i] + xs[i + 1..]))
  {
    var before, after := xs[..i], xs[i + 1..];
    FlatMapConcat(f, before, after);
    FlatMapStep(f, xs, i);
    FlatMapConcat(f, xs[..i + 1], after);
    assert xs[..i + 1] + after == xs;
    BagOfParts(FlatMap(f, before), f(xs[i]), FlatMap(f, after));
  }

  /** Rearranging what is expanded rearranges the expansion. */
  lemma {:induction false} FlatMapPermuted<A, B>(f: A -> seq<B>, a: seq<A>, b: seq<A>)
    requires multiset(a) == multiset(b)
    ensures multiset(FlatMap(f, a)) == multiset(FlatMap(f, b))
    decreases |a|
  {
    SameElements(a, b);
    if a != [] {
      assert a[0] in Elements(a);
      var i :| 0 <= i < |b| && b[i] == a[0];
      Without(a, 0);
      Without(b, i);
      assert a[..0] + a[1..] == a[1..];
      FlatMapPermuted(f, a[1..], b[..i] + b[i + 1..]);
      FlatMapWithout(f, a, 0);
      FlatMapWithout(f, b, i);
    }
  }
}
