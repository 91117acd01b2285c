/** Generic sequence helpers: counting, `$match`-style filtering, dropping by key,
    `findOne`-style search and key distinctness. */
module Seqs {
  import opened Wrappers

  /** Number of elements of `xs` that satisfy `p`. */
  function Count<T>(xs: seq<T>, p: T -> bool): nat
  {
    if xs == [] then 0 else (if p(xs[0]) then 1 else 0) + Count(xs[1..], p)
  }

  lemma {:induction false} CountConcat<T>(xs: seq<T>, ys: seq<T>, p: T -> bool)
    ensures Count(xs + ys, p) == Count(xs, p) + Count(ys, p)
  {
    if xs == [] {
      assert xs + ys == ys;
    } else {
      assert (xs + ys)[0] == xs[0];
      assert (xs + ys)[1..] == xs[1..] + ys;
      CountConcat(xs[1..], ys, p);
    }
  }

  /** The elements of `xs` that satisfy `p`, in their original order. */
  function Filter<T>(xs: seq<T>, p: T -> bool): (r: seq<T>)
    ensures |r| == Count(xs, p)
    ensures forall x | x in r :: x in xs && p(x)
    ensures forall x | x in xs && p(x) :: x in r
  {
    if xs == [] then []
    else if p(xs[0]) then [xs[0]] + Filter(xs[1..], p)
    else Filter(xs[1..], p)
  }

  /** The elements of `xs` whose key is not in `gone`, in their original order. */
  function Keep<T, K(==)>(xs: seq<T>, key: T -> K, gone: set<K>): (r: seq<T>)
    ensures |r| <= |xs|
    ensures forall x | x in r :: x in xs && key(x) !in gone
    ensures forall x | x in xs && key(x) !in gone :: x in r
  {
    if xs == [] then []
    else if key(xs[0]) in gone then Keep(xs[1..], key, gone)
    else [xs[0]] + Keep(xs[1..], key, gone)
  }

  /** Dropping by `a` and then by `b` is dropping by both at once. */
  lemma {:induction false} KeepTwice<T, K>(xs: seq<T>, key: T -> K, a: set<K>, b: set<K>)
    ensures Keep(Keep(xs, key, a), key, b) == Keep(xs, key, a + b)
  {
    if xs != [] {
      KeepTwice(xs[1..], key, a, b);
      if key(xs[0]) !in a {
        var rest := Keep(xs[1..], key, a);
        assert Keep(xs, key, a) == [xs[0]] + rest;
        assert ([xs[0]] + rest)[1..] == rest;
      }
    }
  }

  /** Dropping keys that no element has changes nothing. */
  lemma {:induction false} KeepNothing<T, K>(xs: seq<T>, key: T -> K, gone: set<K>)
    requires forall x | x in xs :: key(x) !in gone
    ensures Keep(xs, key, gone) == xs
  {
    if xs != [] {
      assert xs[0] in xs;
      assert forall x | x in xs[1..] :: x in xs;
      KeepNothing(xs[1..], key, gone);
      assert xs == [xs[0]] + xs[1..];
    }
  }

  /** Two drop sets that agree on every key occurring in `xs` drop the same elements. */
  lemma {:induction false} KeepAgree<T, K>(xs: seq<T>, key: T -> K, a: set<K>, b: set<K>)
    requires forall x :: x in xs ==> (key(x) in a <==> key(x) in b)
    ensures Keep(xs, key, a) == Keep(xs, key, b)
  {
    if xs != [] {
      assert xs[0] in xs;
      forall x | x in xs[1..] ensures key(x) in a <==> key(x) in b {
        assert x in xs;
      }
      KeepAgree(xs[1..], key, a, b);
    }
  }

  /** No two elements of `xs` share a key. */
  predicate Distinct<T, K(==)>(xs: seq<T>, key: T -> K)
  {
    forall i, j :: 0 <= i < j < |xs| ==> key(xs[i]) != key(xs[j])
  }

  /** With distinct keys, the element at `i` is the only one carrying its key. */
  lemma DistinctOnly<T, K>(xs: seq<T>, key: T -> K, i: nat)
    requires i < |xs|
    ensures Distinct(xs, key) ==> forall x | x in xs && key(x) == key(xs[i]) :: x == xs[i]
  {
    forall x | Distinct(xs, key) && x in xs && key(x) == key(xs[i]) ensures x == xs[i] {
      var j :| 0 <= j < |xs| && xs[j] == x;
    }
  }

  lemma DistinctHead<T, K>(xs: seq<T>, key: T -> K)
    requires xs != [] && Distinct(xs, key)
    ensures Distinct(xs[1..], key)
    ensures forall y :: y in xs[1..] ==> key(y) != key(xs[0])
  {
    forall y | y in xs[1..] ensures key(y) != key(xs[0]) {
      var j :| 0 <= j < |xs[1..]| && xs[1..][j] == y;
      assert xs[j + 1] == y;
    }
  }

  lemma DistinctCons<T, K>(x: T, xs: seq<T>, key: T -> K)
    requires Distinct(xs, key)
    requires forall y :: y in xs ==> key(y) != key(x)
    ensures Distinct([x] + xs, key)
  {
    var s := [x] + xs;
    forall i, j | 0 <= i < j < |s| ensures key(s[i]) != key(s[j]) {
      assert s[j] == xs[j - 1];
      if i > 0 {
        assert s[i] == xs[i - 1];
      } else {
        assert xs[j - 1] in xs;
      }
    }
  }

  /** Dropping elements never makes two keys collide. */
  lemma {:induction false} KeepDistinct<T, K, G>(xs: seq<T>, key: T -> K, drop: T -> G, gone: set<G>)
    requires Distinct(xs, key)
    ensures Distinct(Keep(xs, drop, gone), key)
  {
    if xs != [] {
      DistinctHead(xs, key);
      KeepDistinct(xs[1..], key, drop, gone);
      if drop(xs[0]) !in gone {
        DistinctCons(xs[0], Keep(xs[1..], drop, gone), key);
      }
    }
  }

  /** Appending an element with a new key keeps the keys distinct. */
  lemma DistinctAppend<T, K>(xs: seq<T>, x: T, key: T -> K)
    requires Distinct(xs, key)
    requires forall y :: y in xs ==> key(y) != key(x)
    ensures Distinct(xs + [x], key)
  {
    var s := xs + [x];
    forall i, j | 0 <= i < j < |s| ensures key(s[i]) != key(s[j]) {
      assert s[i] == xs[i];
      if j == |xs| {
        assert xs[i] in xs;
      } else {
        assert s[j] == xs[j];
      }
    }
  }

  /** Removing the element at `i` keeps the keys distinct. */
  lemma DistinctRemove<T, K>(xs: seq<T>, i: nat, key: T -> K)
    requires i < |xs| && Distinct(xs, key)
    ensures Distinct(xs[..i] + xs[i + 1..], key)
  {
    var s := xs[..i] + xs[i + 1..];
    forall a, b | 0 <= a < b < |s| ensures key(s[a]) != key(s[b]) {
      var a' := if a < i then a else a + 1;
      var b' := if b < i then b else b + 1;
      assert s[a] == xs[a'] && s[b] == xs[b'];
    }
  }

  /** Replacing an element by one with the same key keeps the keys distinct. */
  lemma DistinctUpdate<T, K>(xs: seq<T>, i: nat, y: T, key: T -> K)
    requires i < |xs| && Distinct(xs, key) && key(y) == key(xs[i])
    ensures Distinct(xs[i := y], key)
  {
  }

  /** With distinct keys, two elements with the same key are the same element. */
  lemma DistinctSame<T, K>(xs: seq<T>, key: T -> K, x: T, y: T)
    requires Distinct(xs, key) && x in xs && y in xs && key(x) == key(y)
    ensures x == y
  {
    var i :| 0 <= i < |xs| && xs[i] == x;
    var j :| 0 <= j < |xs| && xs[j] == y;
    assert i == j;
  }

  /** Index of the first element whose key is `k` (`findOne` / `findById`). */
  function Find<T, K(==)>(xs: seq<T>, key: T -> K, k: K): (r: Option<nat>)
    ensures r.Some? ==> r.value < |xs| && key(xs[r.value]) == k
    ensures r.Some? ==> forall j :: 0 <= j < r.value ==> key(xs[j]) != k
    ensures r.None? <==> forall j :: 0 <= j < |xs| ==> key(xs[j]) != k
  {
    if xs == [] then None
    else if key(xs[0]) == k then Some(0)
    else match Find(xs[1..], key, k)
      case None => None
      case Some(j) => Some(j + 1)
  }

  /** With distinct keys, `Find` returns the position of the one element with key `k`. */
  lemma FindDistinct<T, K>(xs: seq<T>, key: T -> K, i: nat)
    requires i < |xs| && Distinct(xs, key)
    ensures Find(xs, key, key(xs[i])) == Some(i)
  {
  }

  /** Replacing an element by one with the same key does not move any `Find` result. */
  lemma {:induction false} FindSameKeys<T, K>(xs: seq<T>, i: nat, y: T, key: T -> K, k: K)
    requires i < |xs| && key(y) == key(xs[i])
    ensures Find(xs[i := y], key, k) == Find(xs, key, k)
  {
    if i > 0 {
      assert xs[i := y][1..] == xs[1..][i - 1 := y];
      FindSameKeys(xs[1..], i - 1, y, key, k);
    }
  }

  /** Cutting out position `i` loses no element other than the one there. */
  lemma RemoveAtKeeps<T>(xs: seq<T>, i: nat)
    requires i < |xs|
    ensures forall x | x != xs[i] :: x in xs[..i] + xs[i + 1..] <==> x in xs
  {
    forall x | x != xs[i] ensures x in xs[..i] + xs[i + 1..] <==> x in xs {
      if x in xs {
        var j :| 0 <= j < |xs| && xs[j] == x;
        if j < i { assert (xs[..i] + xs[i + 1..])[j] == x; }
        else { assert (xs[..i] + xs[i + 1..])[j - 1] == x; }
      }
      if x in xs[..i] + xs[i + 1..] {
        var j :| 0 <= j < |xs| - 1 && (xs[..i] + xs[i + 1..])[j] == x;
        if j < i { assert xs[j] == x; } else { assert xs[j + 1] == x; }
      }
    }
  }

  /** Overwriting position `i` with `y` adds or loses no element other than those two. */
  lemma UpdateAtKeeps<T>(xs: seq<T>, i: nat, y: T)
    requires i < |xs|
    ensures forall x | x != xs[i] && x != y :: x in xs[i := y] <==> x in xs
  {
    forall x | x != xs[i] && x != y ensures x in xs[i := y] <==> x in xs {
      if x in xs {
        var j :| 0 <= j < |xs| && xs[j] == x;
        assert xs[i := y][j] == x;
      }
      if x in xs[i := y] {
        var j :| 0 <= j < |xs| && xs[i := y][j] == x;
        assert xs[j] == x;
      }
    }
  }

  /** The first `n` elements (a `$limit` stage). */
  function Take<T>(xs: seq<T>, n: nat): (r: seq<T>)
    ensures |r| <= n && |r| <= |xs|
    ensures forall k :: 0 <= k < |r| ==> r[k] == xs[k]
  {
    if |xs| <= n then xs else xs[..n]
  }

  /** All but the first `n` elements (a `$skip` stage). */
  function Drop<T>(xs: seq<T>, n: nat): (r: seq<T>)
    ensures |r| == if n <= |xs| then |xs| - n else 0
    ensures forall k :: 0 <= k < |r| ==> r[k] == xs[n + k]
  {
    if |xs| <= n then [] else xs[n..]
  }
}
