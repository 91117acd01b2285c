/** `$sort` with every field descending: documents are compared by a tuple of numeric
    sort fields, lexicographically, larger first. */
module Ranking {

  /** `a` ranks at or before `b` under a descending multi-field sort; booleans enter as 0/1. */
  predicate LexGe(a: seq<int>, b: seq<int>)
  {
    b == [] || (a != [] && (a[0] > b[0] || (a[0] == b[0] && LexGe(a[1..], b[1..]))))
  }

  function B(b: bool): int { if b then 1 else 0 }

  lemma {:induction false} LexGeTotal(a: seq<int>, b: seq<int>)
    ensures LexGe(a, b) || LexGe(b, a)
  {
    if a != [] && b != [] && a[0] == b[0] {
      LexGeTotal(a[1..], b[1..]);
    }
  }

  lemma {:induction false} LexGeTrans(a: seq<int>, b: seq<int>, c: seq<int>)
    requires LexGe(a, b) && LexGe(b, c)
    ensures LexGe(a, c)
  {
    if c != [] && a[0] == c[0] {
      LexGeTrans(a[1..], b[1..], c[1..]);
    }
  }

  /** The first sort field decides first: a key at or before another has a first field at least as large. */
  lemma LexGeHead(a: seq<int>, b: seq<int>)
    requires LexGe(a, b) && b != []
    ensures a != [] && a[0] >= b[0]
    ensures a[0] == b[0] ==> LexGe(a[1..], b[1..])
  {
  }

  /** One comparison step: the heads decide unless they tie. */
  lemma LexGeCons(x: int, y: int, a: seq<int>, b: seq<int>)
    ensures LexGe([x] + a, [y] + b) <==> x > y || (x == y && LexGe(a, b))
  {
    assert ([x] + a)[1..] == a && ([y] + b)[1..] == b;
  }

  /** Every earlier element ranks at or before every later one. */
  predicate SortedBy<T>(s: seq<T>, key: T -> seq<int>)
  {
    forall i, j :: 0 <= i < j < |s| ==> LexGe(key(s[i]), key(s[j]))
  }

  /** Places `x` before the first element it ranks at or before. */
  function Insert<T>(x: T, s: seq<T>, key: T -> seq<int>): (r: seq<T>)
    requires SortedBy(s, key)
    ensures multiset(r) == multiset(s) + multiset{x}
    ensures SortedBy(r, key)
  {
    if s == [] then [x]
    else if LexGe(key(x), key(s[0])) then
      InsertFront(x, s, key);
      [x] + s
    else
      LexGeTotal(key(x), key(s[0]));
      var rest := Insert(x, s[1..], key);
      assert s == [s[0]] + s[1..];
      InsertBehind(s[0], x, s[1..], rest, key);
      [s[0]] + rest
  }

  lemma InsertFront<T>(x: T, s: seq<T>, key: T -> seq<int>)
    requires SortedBy(s, key) && s != [] && LexGe(key(x), key(s[0]))
    ensures SortedBy([x] + s, key)
  {
    var r := [x] + s;
    forall i, j | 0 <= i < j < |r| ensures LexGe(key(r[i]), key(r[j])) {
      if i == 0 && j > 1 {
        LexGeTrans(key(x), key(s[0]), key(s[j - 1]));
      }
    }
  }

  lemma InsertBehind<T>(h: T, x: T, tail: seq<T>, rest: seq<T>, key: T -> seq<int>)
    requires SortedBy([h] + tail, key) && LexGe(key(h), key(x))
    requires SortedBy(rest, key) && multiset(rest) == multiset(tail) + multiset{x}
    ensures SortedBy([h] + rest, key)
  {
    var r := [h] + rest;
    forall i, j | 0 <= i < j < |r| ensures LexGe(key(r[i]), key(r[j])) {
      if i == 0 {
        var y := rest[j - 1];
        assert y in multiset(rest);
        if y != x {
          assert y in multiset(tail);
          var k :| 0 <= k < |tail| && tail[k] == y;
          assert ([h] + tail)[0] == h && ([h] + tail)[k + 1] == y;
        }
      } else {
        assert r[i] == rest[i - 1] && r[j] == rest[j - 1];
      }
    }
  }

  /** Insertion sort: a permutation of `xs` in descending key order. */
  function SortDesc<T>(xs: seq<T>, key: T -> seq<int>): (r: seq<T>)
    ensures multiset(r) == multiset(xs)
    ensures |r| == |xs|
    ensures SortedBy(r, key)
  {
    if xs == [] then []
    else
      assert xs == [xs[0]] + xs[1..];
      Insert(xs[0], SortDesc(xs[1..], key), key)
  }
}
