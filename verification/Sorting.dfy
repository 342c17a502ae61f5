/**
 The stable sort the source calls through `sort_by`, `sort_by_key` and
 `sort_unstable`. The ordering is a parameter; what a sorted sequence is, and
 that it is determined by its elements, is proved for every total preorder.
 */
module Sorting {

  ghost predicate TotalPreorder<T(!new)>(le: (T, T) -> bool) {
    && (forall x, y :: le(x, y) || le(y, x))
    && (forall x, y, z :: le(x, y) && le(y, z) ==> le(x, z))
  }

  /** `le` separates the elements of `xs`: two that are mutually below each other are equal. */
  ghost predicate Separates<T(!new)>(le: (T, T) -> bool, xs: multiset<T>) {
    forall x, y :: x in xs && y in xs && le(x, y) && le(y, x) ==> x == y
  }

  ghost predicate Sorted<T>(le: (T, T) -> bool, xs: seq<T>) {
    forall i, j :: 0 <= i < j < |xs| ==> le(xs[i], xs[j])
  }

  function Insert<T>(le: (T, T) -> bool, x: T, xs: seq<T>): (r: seq<T>)
    ensures multiset(r) == multiset{x} + multiset(xs)
    ensures |r| == |xs| + 1
  {
    if xs == [] then [x]
    else if le(x, xs[0]) then [x] + xs
    else
      assert xs == [xs[0]] + xs[1..];
      [xs[0]] + Insert(le, x, xs[1..])
  }

  function Sort<T>(le: (T, T) -> bool, xs: seq<T>): (r: seq<T>)
    ensures multiset(r) == multiset(xs)
    ensures |r| == |xs|
  {
    if xs == [] then [] else
      assert xs == [xs[0]] + xs[1..];
      Insert(le, xs[0], Sort(le, xs[1..]))
  }

  lemma {:induction false} InsertSorted<T(!new)>(le: (T, T) -> bool, x: T, xs: seq<T>)
    requires TotalPreorder(le) && Sorted(le, xs)
    ensures Sorted(le, Insert(le, x, xs))
  {
    if xs == [] {
    } else if le(x, xs[0]) {
      assert forall j :: 0 <= j < |xs| ==> le(x, xs[j]);
    } else {
      InsertSorted(le, x, xs[1..]);
      var r := Insert(le, x, xs[1..]);
      forall y | y in r ensures le(xs[0], y) {
        assert y in multiset(r);
        assert y == x || y in multiset(xs[1..]);
        assert y in multiset(xs[1..]) ==> y in xs[1..];
      }
      assert forall j :: 0 <= j < |r| ==> r[j] in r;
    }
  }

  lemma {:induction false} SortSorted<T(!new)>(le: (T, T) -> bool, xs: seq<T>)
    requires TotalPreorder(le)
    ensures Sorted(le, Sort(le, xs))
  {
    if xs != [] {
      SortSorted(le, xs[1..]);
      InsertSorted(le, xs[0], Sort(le, xs[1..]));
    }
  }

  /** A sorted sequence is determined by its elements when the order separates them. */
  lemma {:induction false} SortedUnique<T(!new)>(le: (T, T) -> bool, xs: seq<T>, ys: seq<T>)
    requires Sorted(le, xs) && Sorted(le, ys)
    requires multiset(xs) == multiset(ys) && Separates(le, multiset(xs))
    ensures xs == ys
  {
    SameLength(xs, ys);
    if xs != [] {
      SameTails(le, xs, ys);
      SortedUnique(le, xs[1..], ys[1..]);
      assert xs == [xs[0]] + xs[1..] && ys == [ys[0]] + ys[1..];
    }
  }

  lemma SameLength<T>(xs: seq<T>, ys: seq<T>)
    requires multiset(xs) == multiset(ys)
    ensures |xs| == |ys|
  {
    assert |xs| == |multiset(xs)| && |ys| == |multiset(ys)|;
  }

  lemma SameTails<T(!new)>(le: (T, T) -> bool, xs: seq<T>, ys: seq<T>)
    requires xs != [] && ys != [] && Sorted(le, xs) && Sorted(le, ys)
    requires multiset(xs) == multiset(ys) && Separates(le, multiset(xs))
    ensures xs[0] == ys[0] && multiset(xs[1..]) == multiset(ys[1..])
    ensures Sorted(le, xs[1..]) && Sorted(le, ys[1..]) && Separates(le, multiset(xs[1..]))
  {
    SameHead(le, xs, ys);
    DropHead(le, xs);
    DropHead(le, ys);
  }

  lemma SameHead<T(!new)>(le: (T, T) -> bool, xs: seq<T>, ys: seq<T>)
    requires xs != [] && ys != [] && Sorted(le, xs) && Sorted(le, ys)
    requires multiset(xs) == multiset(ys) && Separates(le, multiset(xs))
    ensures xs[0] == ys[0]
  {
    assert ys[0] in multiset(xs) && xs[0] in multiset(ys);
    var i :| 0 <= i < |xs| && xs[i] == ys[0];
    var j :| 0 <= j < |ys| && ys[j] == xs[0];
  }

  lemma DropHead<T(!new)>(le: (T, T) -> bool, xs: seq<T>)
    requires xs != [] && Sorted(le, xs) && Separates(le, multiset(xs))
    ensures multiset(xs[1..]) == multiset(xs) - multiset{xs[0]}
    ensures Sorted(le, xs[1..]) && Separates(le, multiset(xs[1..]))
  {
    assert xs == [xs[0]] + xs[1..];
  }

  /** Sorting forgets the order of its input. */
  lemma SortPermutation<T(!new)>(le: (T, T) -> bool, xs: seq<T>, ys: seq<T>)
    requires TotalPreorder(le) && multiset(xs) == multiset(ys) && Separates(le, multiset(xs))
    ensures Sort(le, xs) == Sort(le, ys)
  {
    SortSorted(le, xs);
    SortSorted(le, ys);
    SortedUnique(le, Sort(le, xs), Sort(le, ys));
  }

  /** Sorting leaves a sorted input alone. */
  lemma SortOfSorted<T(!new)>(le: (T, T) -> bool, xs: seq<T>)
    requires TotalPreorder(le) && Sorted(le, xs) && Separates(le, multiset(xs))
    ensures Sort(le, xs) == xs
  {
    SortSorted(le, xs);
    SortedUnique(le, Sort(le, xs), xs);
  }

  /** No two elements have the same key. */
  predicate DistinctBy<T, K(==)>(key: T -> K, xs: seq<T>) {
    forall i, j :: 0 <= i < j < |xs| ==> key(xs[i]) != key(xs[j])
  }

  lemma {:induction false} FoundTwice<T>(xs: seq<T>, x: T) returns (i: nat, j: nat)
    requires multiset(xs)[x] >= 2
    ensures i < j < |xs| && xs[i] == xs[j] == x
  {
    assert xs == [xs[0]] + xs[1..];
    if xs[0] == x {
      assert x in multiset(xs[1..]);
      var k :| 0 <= k < |xs[1..]| && xs[1..][k] == x;
      i, j := 0, k + 1;
    } else {
      i, j := FoundTwice(xs[1..], x);
      i, j := i + 1, j + 1;
    }
  }

  lemma CountedTwice<T>(xs: seq<T>, i: nat, j: nat)
    requires i < j < |xs| && xs[i] == xs[j]
    ensures multiset(xs)[xs[i]] >= 2
  {
    assert xs == xs[..j] + xs[j..];
    assert xs[..j][i] == xs[i] && xs[j..][0] == xs[j];
    assert xs[i] in multiset(xs[..j]) && xs[i] in multiset(xs[j..]);
  }

  /** Distinct keys do not depend on the order. */
  lemma PermutedDistinctBy<T, K>(key: T -> K, xs: seq<T>, ys: seq<T>)
    requires DistinctBy(key, xs) && multiset(xs) == multiset(ys)
    ensures DistinctBy(key, ys)
  {
    forall i, j | 0 <= i < j < |ys| ensures key(ys[i]) != key(ys[j]) {
      if ys[i] == ys[j] {
        CountedTwice(ys, i, j);
        var m, n := FoundTwice(xs, ys[i]);
        assert false;
      } else {
        assert ys[i] in multiset(xs) && ys[j] in multiset(xs);
        var m :| 0 <= m < |xs| && xs[m] == ys[i];
        var n :| 0 <= n < |xs| && xs[n] == ys[j];
      }
    }
  }
}
