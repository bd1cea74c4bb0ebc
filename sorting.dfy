/**
 * Ruby's `Array#sort!` with a comparison block, as used to order the levels
 * by index and the commands by name. The model is an insertion sort; it
 * assumes of the comparison only what a `<=>` block provides on the
 * elements being sorted: any two are comparable, and the order is transitive.
 */
module Sorting {

  ghost predicate SortedBy<T>(le: (T, T) -> bool, s: seq<T>) {
    forall i, j :: 0 <= i < j < |s| ==> le(s[i], s[j])
  }

  /** `le` is a total preorder on the elements of `s`. */
  ghost predicate PreorderOn<T>(le: (T, T) -> bool, s: seq<T>) {
    && (forall x, y :: x in s && y in s ==> le(x, y) || le(y, x))
    && (forall x, y, z :: x in s && y in s && z in s && le(x, y) && le(y, z) ==> le(x, z))
  }

  /** Putting `x` in front of a sorted `s` keeps it sorted when `x` is below its head. */
  lemma SortedCons<T>(x: T, s: seq<T>, le: (T, T) -> bool, u: seq<T>)
    requires PreorderOn(le, u)
    requires x in u && forall y :: y in s ==> y in u
    requires SortedBy(le, s)
    requires s != [] ==> le(x, s[0])
    ensures SortedBy(le, [x] + s)
  {
    var r := [x] + s;
    forall i, j | 0 <= i < j < |r| ensures le(r[i], r[j]) {
      if i == 0 && j > 1 {
        assert r[j] == s[j - 1] && s[0] in u && s[j - 1] in u;
        assert le(s[0], s[j - 1]);
      }
    }
  }

  /** Inserts `x` into the sorted `s` after every element it is not smaller than. */
  function Insert<T>(s: seq<T>, x: T, le: (T, T) -> bool, ghost u: seq<T>): (r: seq<T>)
    requires PreorderOn(le, u)
    requires x in u && forall y :: y in s ==> y in u
    requires SortedBy(le, s)
    ensures SortedBy(le, r)
    ensures multiset(r) == multiset(s) + multiset{x}
  {
    if s == [] then [x]
    else if !le(s[0], x) then
      assert s[0] in u;
      SortedCons(x, s, le, u);
      [x] + s
    else
      assert s == [s[0]] + s[1..];
      SortedTail(le, s);
      var t := Insert(s[1..], x, le, u);
      InsertHeadBelow(s, x, le, t);
      SortedCons(s[0], t, le, u);
      [s[0]] + t
  }

  lemma InsertHeadBelow<T>(s: seq<T>, x: T, le: (T, T) -> bool, t: seq<T>)
    requires s != [] && SortedBy(le, s) && le(s[0], x)
    requires multiset(t) == multiset(s[1..]) + multiset{x}
    ensures forall y :: y in t ==> y in s || y == x
    ensures t != [] ==> le(s[0], t[0])
  {
    forall y | y in t ensures y in s[1..] || y == x {
      assert y in multiset(t);
    }
    if t != [] && t[0] != x {
      assert t[0] in t;
      assert t[0] in s[1..];
      var k :| 0 <= k < |s[1..]| && s[1..][k] == t[0];
      assert le(s[0], s[k + 1]);
    }
  }

  /** Sorts `s` with `le`, keeping elements that compare equal in their original order. */
  method InsertionSort<T>(s: seq<T>, le: (T, T) -> bool) returns (r: seq<T>)
    requires PreorderOn(le, s)
    ensures SortedBy(le, r)
    ensures multiset(r) == multiset(s)
  {
    r := [];
    var i := 0;
    while i < |s|
      invariant 0 <= i <= |s|
      invariant SortedBy(le, r)
      invariant multiset(r) == multiset(s[..i])
    {
      forall y | y in r ensures y in s {
        assert y in multiset(s[..i]);
      }
      r := Insert(r, s[i], le, s);
      assert s[..i + 1] == s[..i] + [s[i]];
      i := i + 1;
    }
    assert s[..|s|] == s;
  }

  /** A sequence with no element twice. */
  ghost predicate Distinct<T>(s: seq<T>) {
    forall i, j :: 0 <= i < j < |s| ==> s[i] != s[j]
  }

  /** A sequence in which no element occurs twice, stated through its multiset, has no repeated element. */
  lemma CountsDistinct<T>(s: seq<T>)
    requires forall x :: multiset(s)[x] <= 1
    ensures Distinct(s)
  {
    forall i, j | 0 <= i < j < |s| ensures s[i] != s[j] {
      assert s == s[..j] + [s[j]] + s[j + 1..];
      assert multiset(s) == multiset(s[..j]) + multiset{s[j]} + multiset(s[j + 1..]);
      assert multiset(s[..j])[s[i]] >= 1 by { assert s[i] in s[..j]; }
      assert multiset(s)[s[j]] <= 1;
    }
  }

  /** `s.map(&f)`. */
  function MapSeq<T, K>(f: T -> K, s: seq<T>): (r: seq<K>)
    ensures |r| == |s| && forall k :: 0 <= k < |s| ==> r[k] == f(s[k])
  {
    if s == [] then [] else [f(s[0])] + MapSeq(f, s[1..])
  }
  lemma MapAppend<T, K>(f: T -> K, x: seq<T>, y: seq<T>)
    ensures MapSeq(f, x + y) == MapSeq(f, x) + MapSeq(f, y)
  {
  }
  /** The image of one more element is the image so far and then that element's. */
  lemma MapSnoc<T, K>(f: T -> K, s: seq<T>, i: nat)
    requires i < |s|
    ensures MapSeq(f, s[..i + 1]) == MapSeq(f, s[..i]) + [f(s[i])]
  {
    assert s[..i + 1] == s[..i] + [s[i]];
    MapAppend(f, s[..i], [s[i]]);
  }

  lemma Locate<T>(x: T, b: seq<T>) returns (j: nat)
    requires x in multiset(b)
    ensures j < |b| && b[j] == x
  {
    assert x in b;
    j :| 0 <= j < |b| && b[j] == x;
  }
  lemma MapRemoveAt<T, K>(f: T -> K, b: seq<T>, j: nat)
    requires j < |b|
    ensures multiset(MapSeq(f, b)) == multiset{f(b[j])} + multiset(MapSeq(f, b[..j] + b[j + 1..]))
  {
    var x, y := b[..j], b[j + 1..];
    assert b == x + ([b[j]] + y);
    MapAppend(f, x, [b[j]] + y);
    MapAppend(f, [b[j]], y);
    MapAppend(f, x, y);
    var mx, my := MapSeq(f, x), MapSeq(f, y);
    assert MapSeq(f, b) == mx + ([f(b[j])] + my);
    assert MapSeq(f, x + y) == mx + my;
  }
  /** Permuting a sequence permutes its image under `f` the same way. */
  lemma {:induction false} MapPermutation<T, K>(f: T -> K, a: seq<T>, b: seq<T>)
    requires multiset(a) == multiset(b)
    ensures multiset(MapSeq(f, a)) == multiset(MapSeq(f, b))
    decreases |a|
  {
    if a != [] {
      var j := Locate(a[0], b);
      var tb := b[..j] + b[j + 1..];
      PermutationTails(a, b, j);
      MapPermutation(f, a[1..], tb);
      MapRemoveHead(f, a);
      MapRemoveAt(f, b, j);
    }
  }

  lemma PermutationTails<T>(a: seq<T>, b: seq<T>, j: nat)
    requires a != [] && j < |b| && b[j] == a[0] && multiset(a) == multiset(b)
    ensures multiset(a[1..]) == multiset(b[..j] + b[j + 1..])
  {
    var x, y := b[..j], b[j + 1..];
    assert a == [a[0]] + a[1..];
    assert multiset(a) == multiset{a[0]} + multiset(a[1..]);
    assert b == x + [b[j]] + y;
    assert multiset(b) == multiset(x) + multiset{b[j]} + multiset(y);
    assert multiset(x + y) == multiset(x) + multiset(y);
    assert multiset(a[1..]) == multiset(a) - multiset{a[0]};
    assert multiset(x + y) == multiset(b) - multiset{b[j]};
  }

  lemma MapRemoveHead<T, K>(f: T -> K, a: seq<T>)
    requires a != []
    ensures multiset(MapSeq(f, a)) == multiset{f(a[0])} + multiset(MapSeq(f, a[1..]))
  {
    assert a == [a[0]] + a[1..];
    MapAppend(f, [a[0]], a[1..]);
  }

  /** `le` relates two elements of `s` both ways only when they are the same element. */
  ghost predicate AntisymmetricOn<T>(le: (T, T) -> bool, s: seq<T>) {
    forall x, y :: x in s && y in s && le(x, y) && le(y, x) ==> x == y
  }

  /**
   * Under an order with no ties, a sequence has one sorted arrangement: two
   * sorted permutations of each other are equal.
   */
  lemma {:induction false} SortedUnique<T>(le: (T, T) -> bool, a: seq<T>, b: seq<T>)
    requires PreorderOn(le, a) && AntisymmetricOn(le, a)
    requires SortedBy(le, a) && SortedBy(le, b) && multiset(a) == multiset(b)
    ensures a == b
    decreases |a|
  {
    if a == [] {
      assert |b| == |multiset(b)| == 0;
    } else {
      assert b != [] by { assert a[0] in multiset(b); }
      SortedHeads(le, a, b);
      var ta, tb := a[1..], b[1..];
      TailPermutation(a, b);
      OrderOnTail(le, a);
      SortedTail(le, b);
      SortedUnique(le, ta, tb);
      assert a == [a[0]] + ta && b == [b[0]] + tb;
    }
  }

  lemma TailPermutation<T>(a: seq<T>, b: seq<T>)
    requires a != [] && b != [] && a[0] == b[0] && multiset(a) == multiset(b)
    ensures multiset(a[1..]) == multiset(b[1..])
  {
    assert a == [a[0]] + a[1..] && b == [b[0]] + b[1..];
    assert multiset(a[1..]) == multiset(a) - multiset{a[0]};
    assert multiset(b[1..]) == multiset(b) - multiset{b[0]};
  }

  /** Two sorted permutations of each other start with the same element. */
  lemma SortedHeads<T>(le: (T, T) -> bool, a: seq<T>, b: seq<T>)
    requires PreorderOn(le, a) && AntisymmetricOn(le, a)
    requires SortedBy(le, a) && SortedBy(le, b) && multiset(a) == multiset(b)
    requires a != [] && b != []
    ensures a[0] == b[0]
  {
    var i := Locate(a[0], b);
    var j := Locate(b[0], a);
    assert le(a[0], b[0]) by {
      if j > 0 { assert le(a[0], a[j]); } else { assert a[0] in a; }
    }
    assert le(b[0], a[0]) by {
      if i > 0 { assert le(b[0], b[i]); } else { assert b[0] in b; assert b[0] in a; }
    }
    assert a[0] in a && b[0] in a;
  }

  lemma OrderOnTail<T>(le: (T, T) -> bool, a: seq<T>)
    requires a != [] && PreorderOn(le, a) && AntisymmetricOn(le, a) && SortedBy(le, a)
    ensures PreorderOn(le, a[1..]) && AntisymmetricOn(le, a[1..])
    ensures SortedBy(le, a[1..])
  {
    assert forall x :: x in a[1..] ==> x in a;
    SortedTail(le, a);
  }

  lemma SortedTail<T>(le: (T, T) -> bool, a: seq<T>)
    requires a != [] && SortedBy(le, a)
    ensures SortedBy(le, a[1..])
  {
    forall i, j | 0 <= i < j < |a| - 1 ensures le(a[1..][i], a[1..][j]) {
      assert le(a[i + 1], a[j + 1]);
    }
  }
}
