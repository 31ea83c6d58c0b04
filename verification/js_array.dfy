/** The `Array.prototype` operations the store is built from: `filter`,
    `slice(0, n)`, `includes` and the stable `sort` with a numeric comparator
    (stable since ECMAScript 2019). */
module JsArray {

  /** `a` can be obtained from `b` by deleting elements: `b`'s order is kept. */
  predicate IsSubsequence<T(==)>(a: seq<T>, b: seq<T>)
    decreases |b|
  {
    if a == [] then true
    else if b == [] then false
    else (a[0] == b[0] && IsSubsequence(a[1..], b[1..])) || IsSubsequence(a, b[1..])
  }

  /** No two elements share a key. */
  predicate DistinctBy<T, U(==)>(xs: seq<T>, key: T -> U)
  {
    forall i, j :: 0 <= i < j < |xs| ==> key(xs[i]) != key(xs[j])
  }

  function Identity<T>(x: T): T { x }

  /** No element occurs twice: `DistinctBy` with the element as its own key. */
  predicate Distinct<T(==)>(xs: seq<T>)
  {
    DistinctBy(xs, Identity)
  }

  /** `xs.filter(p)`. */
  function Filter<T(!new)>(xs: seq<T>, p: T -> bool): (r: seq<T>)
    ensures |r| <= |xs|
    ensures forall x :: x in r <==> x in xs && p(x)
    ensures IsSubsequence(r, xs)
  {
    if xs == [] then []
    else if p(xs[0]) then [xs[0]] + Filter(xs[1..], p)
    else Filter(xs[1..], p)
  }

  /** `xs.slice(0, n)`. */
  function Take<T>(xs: seq<T>, n: nat): (r: seq<T>)
    ensures |r| == if |xs| <= n then |xs| else n
    ensures r <= xs
  {
    if |xs| <= n then xs else xs[..n]
  }

  lemma {:induction false} SubsequenceLength<T>(a: seq<T>, b: seq<T>)
    requires IsSubsequence(a, b)
    ensures |a| <= |b|
    ensures forall x :: x in a ==> x in b
    decreases |b|
  {
    if a != [] {
      if a[0] == b[0] && IsSubsequence(a[1..], b[1..]) {
        SubsequenceLength(a[1..], b[1..]);
        assert a == [a[0]] + a[1..];
        assert b == [b[0]] + b[1..];
      } else {
        SubsequenceLength(a, b[1..]);
      }
    }
  }

  lemma {:induction false} SubsequenceTransitive<T>(a: seq<T>, b: seq<T>, c: seq<T>)
    requires IsSubsequence(a, b) && IsSubsequence(b, c)
    ensures IsSubsequence(a, c)
    decreases |c|
  {
    if a != [] {
      assert b != [] && c != [];
      if IsSubsequence(b, c[1..]) {
        SubsequenceTransitive(a, b, c[1..]);
      } else if a[0] == b[0] && IsSubsequence(a[1..], b[1..]) {
        SubsequenceTransitive(a[1..], b[1..], c[1..]);
      } else {
        SubsequenceTransitive(a, b[1..], c[1..]);
      }
    }
  }

  lemma {:induction false} PrefixIsSubsequence<T>(a: seq<T>, b: seq<T>)
    requires a <= b
    ensures IsSubsequence(a, b)
    decreases |b|
  {
    if a != [] {
      assert a[0] == b[0] && a[1..] <= b[1..];
      PrefixIsSubsequence(a[1..], b[1..]);
    }
  }

  /** Deleting elements cannot make two keys collide. */
  lemma {:induction false} SubsequenceDistinctBy<T, U>(a: seq<T>, b: seq<T>, key: T -> U)
    requires IsSubsequence(a, b) && DistinctBy(b, key)
    ensures DistinctBy(a, key)
    decreases |b|
  {
    if a != [] {
      assert DistinctBy(b[1..], key) by {
        forall i, j | 0 <= i < j < |b[1..]| ensures key(b[1..][i]) != key(b[1..][j]) {
          assert b[1..][i] == b[i + 1] && b[1..][j] == b[j + 1];
        }
      }
      if a[0] == b[0] && IsSubsequence(a[1..], b[1..]) {
        SubsequenceDistinctBy(a[1..], b[1..], key);
        SubsequenceLength(a[1..], b[1..]);
        forall i, j | 0 <= i < j < |a| ensures key(a[i]) != key(a[j]) {
          if i == 0 {
            assert a[j] == a[1..][j - 1];
            assert a[j] in b[1..];
            var k :| 0 <= k < |b[1..]| && b[1..][k] == a[j];
            assert b[k + 1] == a[j];
          } else {
            assert a[i] == a[1..][i - 1] && a[j] == a[1..][j - 1];
          }
        }
      } else {
        SubsequenceDistinctBy(a, b[1..], key);
      }
    }
  }

  lemma {:induction false} FilterAppend<T(!new)>(a: seq<T>, b: seq<T>, p: T -> bool)
    ensures Filter(a + b, p) == Filter(a, p) + Filter(b, p)
    decreases |a|
  {
    if a == [] {
      assert a + b == b;
    } else {
      assert (a + b)[0] == a[0] && (a + b)[1..] == a[1..] + b;
      FilterAppend(a[1..], b, p);
    }
  }

  lemma {:induction false} FilterKeepsAll<T(!new)>(xs: seq<T>, p: T -> bool)
    requires forall x :: x in xs ==> p(x)
    ensures Filter(xs, p) == xs
    decreases |xs|
  {
    if xs != [] {
      assert forall x :: x in xs[1..] ==> x in xs;
      FilterKeepsAll(xs[1..], p);
    }
  }

  lemma {:induction false} FilterDropsAll<T(!new)>(xs: seq<T>, p: T -> bool)
    requires forall x :: x in xs ==> !p(x)
    ensures Filter(xs, p) == []
    decreases |xs|
  {
    if xs != [] {
      assert forall x :: x in xs[1..] ==> x in xs;
      FilterDropsAll(xs[1..], p);
    }
  }

  // ---------------------------------------------------------------------
  // Stable sort. `xs.sort((a, b) => key(a) - key(b))` orders by ascending
  // key and keeps elements of equal key in their original order.

  predicate SortedBy<T>(xs: seq<T>, key: T -> int)
  {
    forall i, j :: 0 <= i < j < |xs| ==> key(xs[i]) <= key(xs[j])
  }

  /** The elements of `xs` whose key is `k`, in their original order. */
  function WithKey<T>(xs: seq<T>, key: T -> int, k: int): (r: seq<T>)
    ensures |r| <= |xs|
  {
    if xs == [] then []
    else if key(xs[0]) == k then [xs[0]] + WithKey(xs[1..], key, k)
    else WithKey(xs[1..], key, k)
  }

  /** `WithKey` keeps exactly the elements of key `k`, in order. */
  lemma {:induction false} WithKeyMembers<T(!new)>(xs: seq<T>, key: T -> int, k: int)
    ensures forall x :: x in WithKey(xs, key, k) <==> x in xs && key(x) == k
    ensures IsSubsequence(WithKey(xs, key, k), xs)
  {
    if xs != [] {
      WithKeyMembers(xs[1..], key, k);
      var r := WithKey(xs, key, k);
      if key(xs[0]) == k {
        assert r[1..] == WithKey(xs[1..], key, k);
      }
    }
  }

  /** Puts `x` in front of the first element whose key is not smaller. */
  function Insert<T(!new)>(x: T, ys: seq<T>, key: T -> int): (r: seq<T>)
    ensures |r| == |ys| + 1
    ensures multiset(r) == multiset(ys) + multiset{x}
    ensures forall z :: z in r <==> z == x || z in ys
  {
    if ys == [] || key(x) <= key(ys[0]) then [x] + ys
    else
      assert ys == [ys[0]] + ys[1..];
      [ys[0]] + Insert(x, ys[1..], key)
  }

  /** Inserting into a sorted sequence keeps it sorted. */
  lemma {:induction false} InsertSorted<T(!new)>(x: T, ys: seq<T>, key: T -> int)
    requires SortedBy(ys, key)
    ensures SortedBy(Insert(x, ys, key), key)
  {
    var r := Insert(x, ys, key);
    if ys == [] || key(x) <= key(ys[0]) {
      forall i, j | 0 <= i < j < |r| ensures key(r[i]) <= key(r[j]) {
        assert r[j] == ys[j - 1];
        if i > 0 {
          assert r[i] == ys[i - 1];
        }
      }
    } else {
      var rest := Insert(x, ys[1..], key);
      InsertSorted(x, ys[1..], key);
      assert r == [ys[0]] + rest;
      forall i, j | 0 <= i < j < |r| ensures key(r[i]) <= key(r[j]) {
        assert r[j] == rest[j - 1] && r[j] in rest;
        if i > 0 {
          assert r[i] == rest[i - 1];
        } else if r[j] != x {
          var m :| 0 <= m < |ys[1..]| && ys[1..][m] == r[j];
          assert ys[m + 1] == r[j];
        }
      }
    }
  }

  /** Inserting `x` puts it among the elements of its key exactly where
      putting it in front would: after none of them. */
  lemma {:induction false} InsertStable<T(!new)>(x: T, ys: seq<T>, key: T -> int)
    ensures forall k :: WithKey(Insert(x, ys, key), key, k) == WithKey([x] + ys, key, k)
  {
    if ys != [] && key(x) > key(ys[0]) {
      var y, tail := ys[0], ys[1..];
      var rest := Insert(x, tail, key);
      InsertStable(x, tail, key);
      assert Insert(x, ys, key) == [y] + rest;
      assert ([y] + rest)[1..] == rest;
      assert ([x] + ys)[1..] == ys;
      assert ([x] + tail)[1..] == tail;
      forall k ensures WithKey([y] + rest, key, k) == WithKey([x] + ys, key, k) {
        assert WithKey(rest, key, k) == WithKey([x] + tail, key, k);
      }
    }
  }

  /** A stable sort by ascending key: sorted, a permutation, and for every
      key the elements with that key are in their original order. */
  function SortBy<T(!new)>(xs: seq<T>, key: T -> int): (r: seq<T>)
    ensures |r| == |xs|
    ensures multiset(r) == multiset(xs)
    ensures forall z :: z in r <==> z in xs
    ensures SortedBy(r, key)
    ensures forall k :: WithKey(r, key, k) == WithKey(xs, key, k)
  {
    if xs == [] then []
    else
      assert xs == [xs[0]] + xs[1..];
      var sorted := SortBy(xs[1..], key);
      InsertSorted(xs[0], sorted, key);
      InsertStable(xs[0], sorted, key);
      assert forall k :: WithKey([xs[0]] + sorted, key, k) == WithKey(xs, key, k) by {
        assert ([xs[0]] + sorted)[1..] == sorted;
      }
      Insert(xs[0], sorted, key)
  }

  /** Index of the first element of least key: an independent description
      of the head of the stable sort. */
  function FirstMinIndex<T>(xs: seq<T>, key: T -> int): (i: nat)
    requires xs != []
    ensures i < |xs|
    ensures forall j :: 0 <= j < |xs| ==> key(xs[i]) <= key(xs[j])
    ensures forall j :: 0 <= j < i ==> key(xs[i]) < key(xs[j])
  {
    if |xs| == 1 then 0
    else
      var m := 1 + FirstMinIndex(xs[1..], key);
      assert xs[m] == xs[1..][m - 1];
      assert forall j :: 1 <= j < |xs| ==> xs[j] == xs[1..][j - 1];
      if key(xs[0]) <= key(xs[m]) then 0 else m
  }

  /** The stable sort puts the first element of least key in front. */
  lemma {:induction false} SortHeadIsFirstMin<T(!new)>(xs: seq<T>, key: T -> int)
    requires xs != []
    ensures SortBy(xs, key)[0] == xs[FirstMinIndex(xs, key)]
    decreases |xs|
  {
    if |xs| > 1 {
      SortHeadIsFirstMin(xs[1..], key);
      var m := 1 + FirstMinIndex(xs[1..], key);
      assert xs[m] == xs[1..][m - 1];
    }
  }

  /** Sorting keeps keys distinct. */
  lemma {:induction false} SortKeepsDistinctBy<T(!new), U>(xs: seq<T>, key: T -> int, id: T -> U)
    requires DistinctBy(xs, id)
    ensures DistinctBy(SortBy(xs, key), id)
    decreases |xs|
  {
    if xs != [] {
      assert DistinctBy(xs[1..], id) by {
        forall i, j | 0 <= i < j < |xs[1..]| ensures id(xs[1..][i]) != id(xs[1..][j]) {
          assert xs[1..][i] == xs[i + 1] && xs[1..][j] == xs[j + 1];
        }
      }
      SortKeepsDistinctBy(xs[1..], key, id);
      forall z | z in SortBy(xs[1..], key) ensures id(z) != id(xs[0]) {
        assert z in xs[1..];
        var k :| 0 <= k < |xs[1..]| && xs[1..][k] == z;
        assert xs[k + 1] == z;
      }
      InsertKeepsDistinctBy(xs[0], SortBy(xs[1..], key), key, id);
    }
  }

  lemma {:induction false} InsertKeepsDistinctBy<T(!new), U>(x: T, ys: seq<T>, key: T -> int, id: T -> U)
    requires DistinctBy(ys, id)
    requires forall z :: z in ys ==> id(z) != id(x)
    ensures DistinctBy(Insert(x, ys, key), id)
    decreases |ys|
  {
    if ys != [] && key(ys[0]) < key(x) {
      assert DistinctBy(ys[1..], id) by {
        forall i, j | 0 <= i < j < |ys[1..]| ensures id(ys[1..][i]) != id(ys[1..][j]) {
          assert ys[1..][i] == ys[i + 1] && ys[1..][j] == ys[j + 1];
        }
      }
      InsertKeepsDistinctBy(x, ys[1..], key, id);
      var rest := Insert(x, ys[1..], key);
      var r := [ys[0]] + rest;
      forall i, j | 0 <= i < j < |r| ensures id(r[i]) != id(r[j]) {
        if i == 0 {
          assert r[j] == rest[j - 1] && r[j] in rest;
          if r[j] != x {
            assert r[j] in ys[1..];
            var k :| 0 <= k < |ys[1..]| && ys[1..][k] == r[j];
            assert ys[k + 1] == r[j];
          }
        } else {
          assert r[i] == rest[i - 1] && r[j] == rest[j - 1];
        }
      }
    } else if ys != [] {
      var r := [x] + ys;
      forall i, j | 0 <= i < j < |r| ensures id(r[i]) != id(r[j]) {
        if i == 0 {
          assert r[j] == ys[j - 1] && r[j] in ys;
        } else {
          assert r[i] == ys[i - 1] && r[j] == ys[j - 1];
        }
      }
    }
  }

  /** Among the elements of one key, a prefix of the list keeps a prefix. */
  lemma {:induction false} WithKeyOfPrefix<T>(xs: seq<T>, n: nat, key: T -> int, k: int)
    requires n <= |xs|
    ensures WithKey(xs[..n], key, k) <= WithKey(xs, key, k)
    decreases n
  {
    if n > 0 {
      assert xs[..n][0] == xs[0] && xs[..n][1..] == xs[1..][..n - 1];
      WithKeyOfPrefix(xs[1..], n - 1, key, k);
    }
  }
}
