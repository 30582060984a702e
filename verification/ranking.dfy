/** Descending, stable ranking of records by an integer key pair: the model of
    JavaScript's `Array.prototype.sort` (stable) under a comparator that orders
    by a primary key, then a secondary key, both descending. */
module Ranking {

  /** A sort key: `major` decides first, `minor` breaks ties. */
  datatype Key = Key(major: int, minor: int)

  /** `a` ranks strictly above `b`. */
  predicate Above(a: Key, b: Key) {
    a.major > b.major || (a.major == b.major && a.minor > b.minor)
  }

  /** Non-increasing by key: no element is strictly above an earlier one. */
  predicate Sorted<T>(s: seq<T>, key: T -> Key) {
    forall i, j :: 0 <= i < j < |s| ==> !Above(key(s[j]), key(s[i]))
  }

  /** Inserts `x` into `s` before the first element that does not rank
      strictly above it. */
  function Insert<T>(x: T, s: seq<T>, key: T -> Key): (r: seq<T>)
  {
    if s == [] then [x]
    else if Above(key(s[0]), key(x)) then [s[0]] + Insert(x, s[1..], key)
    else [x] + s
  }

  /** Stable insertion sort, highest key first. */
  function SortDesc<T>(s: seq<T>, key: T -> Key): (r: seq<T>)
    ensures Sorted(r, key)
    ensures multiset(r) == multiset(s)
    ensures |r| == |s|
  {
    if s == [] then []
    else
      var rest := SortDesc(s[1..], key);
      InsertSorted(s[0], rest, key);
      InsertPermutes(s[0], rest, key);
      assert s == [s[0]] + s[1..];
      Insert(s[0], rest, key)
  }

  lemma {:induction false} InsertPermutes<T>(x: T, s: seq<T>, key: T -> Key)
    ensures multiset(Insert(x, s, key)) == multiset(s) + multiset{x}
    ensures |Insert(x, s, key)| == |s| + 1
  {
    if s != [] && Above(key(s[0]), key(x)) {
      InsertPermutes(x, s[1..], key);
      assert s == [s[0]] + s[1..];
    }
  }

  lemma {:induction false} InsertSorted<T>(x: T, s: seq<T>, key: T -> Key)
    requires Sorted(s, key)
    ensures Sorted(Insert(x, s, key), key)
  {
    if s != [] && Above(key(s[0]), key(x)) {
      var tail := s[1..];
      assert Sorted(tail, key) by {
        forall i, j | 0 <= i < j < |tail| ensures !Above(key(tail[j]), key(tail[i])) {
          assert tail[i] == s[i + 1] && tail[j] == s[j + 1];
        }
      }
      InsertSorted(x, tail, key);
      InsertPermutes(x, tail, key);
      var r := Insert(x, s, key);
      var rt := Insert(x, tail, key);
      assert r == [s[0]] + rt;
      forall k | 0 <= k < |rt| ensures !Above(key(rt[k]), key(s[0])) {
        assert rt[k] in multiset(rt);
        assert rt[k] in multiset(tail) + multiset{x};
        if rt[k] != x {
          assert rt[k] in multiset(tail);
          var m :| 0 <= m < |tail| && tail[m] == rt[k];
          assert tail[m] == s[m + 1];
        }
      }
    }
  }

  /** The elements of `s` whose key is exactly `k`, in their order in `s`. */
  function WithKey<T>(s: seq<T>, key: T -> Key, k: Key): (r: seq<T>)
    ensures |r| <= |s|
  {
    if s == [] then []
    else (if key(s[0]) == k then [s[0]] else []) + WithKey(s[1..], key, k)
  }

  lemma {:induction false} InsertStable<T>(x: T, s: seq<T>, key: T -> Key, k: Key)
    ensures WithKey(Insert(x, s, key), key, k)
         == (if key(x) == k then [x] else []) + WithKey(s, key, k)
  {
    if s != [] && Above(key(s[0]), key(x)) {
      InsertStable(x, s[1..], key, k);
      assert ([s[0]] + Insert(x, s[1..], key))[1..] == Insert(x, s[1..], key);
      if key(x) == k {
        assert key(s[0]) != k;
      }
    } else if s != [] {
      assert ([x] + s)[1..] == s;
    }
  }

  /** Stability: among records with equal keys, the ranking keeps their input
      order, so ties are listed in the order the records were first built. */
  lemma {:induction false} SortDescStable<T>(s: seq<T>, key: T -> Key, k: Key)
    ensures WithKey(SortDesc(s, key), key, k) == WithKey(s, key, k)
  {
    if s != [] {
      SortDescStable(s[1..], key, k);
      InsertStable(s[0], SortDesc(s[1..], key), key, k);
    }
  }

  /** No two elements share an identifier. */
  predicate DistinctBy<T, U(==)>(s: seq<T>, id: T -> U) {
    forall i, j :: 0 <= i < j < |s| ==> id(s[i]) != id(s[j])
  }

  lemma {:induction false} AtMostOnce<T, U>(s: seq<T>, id: T -> U, x: T)
    requires DistinctBy(s, id)
    ensures multiset(s)[x] <= 1
  {
    if s != [] {
      var n := |s| - 1;
      assert s == s[..n] + [s[n]];
      assert DistinctBy(s[..n], id) by {
        forall i, j | 0 <= i < j < n ensures id(s[..n][i]) != id(s[..n][j]) {
          assert s[..n][i] == s[i] && s[..n][j] == s[j];
        }
      }
      AtMostOnce(s[..n], id, x);
      if x == s[n] {
        forall i | 0 <= i < n ensures s[..n][i] != x {
          assert s[..n][i] == s[i] && id(s[i]) != id(s[n]);
        }
        assert x !in s[..n];
      }
    }
  }

  /** A permutation of a sequence with distinct identifiers has distinct
      identifiers. */
  lemma PermutationKeepsDistinct<T, U>(s: seq<T>, t: seq<T>, id: T -> U)
    requires DistinctBy(s, id)
    requires multiset(s) == multiset(t)
    ensures DistinctBy(t, id)
  {
    forall i, j | 0 <= i < j < |t| ensures id(t[i]) != id(t[j]) {
      if id(t[i]) == id(t[j]) {
        assert t[i] in multiset(s) && t[j] in multiset(s);
        var a :| 0 <= a < |s| && s[a] == t[i];
        var b :| 0 <= b < |s| && s[b] == t[j];
        assert a == b;
        assert t == t[..j] + [t[j]] + t[j + 1..];
        assert t[..j][i] == t[i];
        assert multiset(t[..j])[t[i]] >= 1;
        assert multiset(t)[t[i]] >= 2;
        AtMostOnce(s, id, t[i]);
        assert false;
      }
    }
  }

  lemma SortKeepsDistinct<T, U>(s: seq<T>, key: T -> Key, id: T -> U)
    requires DistinctBy(s, id)
    ensures DistinctBy(SortDesc(s, key), id)
  {
    PermutationKeepsDistinct(s, SortDesc(s, key), id);
  }

  /** The first `n` elements, or all of them when there are fewer
      (`slice(0, n)`). */
  function Take<T>(s: seq<T>, n: nat): (r: seq<T>)
    ensures |r| == if |s| < n then |s| else n
    ensures forall i :: 0 <= i < |r| ==> r[i] == s[i]
  {
    if |s| <= n then s else s[..n]
  }
}
