/** A stable sort by an integer key, and why there is only one. */
module Sorting {
  predicate SortedBy<T>(key: T -> int, s: seq<T>) {
    forall i, j :: 0 <= i < j < |s| ==> key(s[i]) <= key(s[j])
  }

  /** The elements with key `k`, in order. */
  function WithKey<T>(key: T -> int, s: seq<T>, k: int): seq<T> {
    if s == [] then []
    else
      var n := |s| - 1;
      WithKey(key, s[..n], k) + if key(s[n]) == k then [s[n]] else []
  }

  /** Places `x` after every element whose key is not larger. */
  function Insert<T>(key: T -> int, s: seq<T>, x: T): seq<T> {
    if s == [] || key(s[|s| - 1]) <= key(x) then s + [x]
    else Insert(key, s[..|s| - 1], x) + [s[|s| - 1]]
  }

  function StableSort<T>(key: T -> int, s: seq<T>): (t: seq<T>)
    ensures |t| == |s|
  {
    if s == [] then []
    else
      InsertLength(key, StableSort(key, s[..|s| - 1]), s[|s| - 1]);
      Insert(key, StableSort(key, s[..|s| - 1]), s[|s| - 1])
  }

  lemma {:induction false} InsertLength<T>(key: T -> int, s: seq<T>, x: T)
    ensures |Insert(key, s, x)| == |s| + 1
  {
    if s != [] {
      InsertLength(key, s[..|s| - 1], x);
    }
  }

  lemma {:induction false} InsertIn<T>(key: T -> int, s: seq<T>, x: T, y: T)
    ensures y in Insert(key, s, x) <==> y in s || y == x
  {
    if s != [] && key(s[|s| - 1]) > key(x) {
      InsertIn(key, s[..|s| - 1], x, y);
      assert s == s[..|s| - 1] + [s[|s| - 1]];
    }
  }

  lemma {:induction false} InsertSorted<T>(key: T -> int, s: seq<T>, x: T)
    requires SortedBy(key, s)
    ensures SortedBy(key, Insert(key, s, x))
  {
    if s != [] && key(s[|s| - 1]) > key(x) {
      var n := |s| - 1;
      InsertSorted(key, s[..n], x);
      var t := Insert(key, s[..n], x);
      forall i | 0 <= i < |t| ensures key(t[i]) <= key(s[n]) {
        InsertIn(key, s[..n], x, t[i]);
      }
    }
  }

  lemma {:induction false} InsertStable<T>(key: T -> int, s: seq<T>, x: T, k: int)
    requires SortedBy(key, s)
    ensures WithKey(key, Insert(key, s, x), k) == WithKey(key, s + [x], k)
  {
    hide WithKey;
    if s != [] && key(s[|s| - 1]) > key(x) {
      var n := |s| - 1;
      InsertStable(key, s[..n], x, k);
      WithKeyPush(key, Insert(key, s[..n], x), s[n], k);
      WithKeyPush(key, s[..n], x, k);
      WithKeyPush(key, s[..n], s[n], k);
      WithKeyPush(key, s, x, k);
      assert s[..n] + [s[n]] == s;
    }
  }

  lemma WithKeyPush<T>(key: T -> int, s: seq<T>, x: T, k: int)
    ensures WithKey(key, s + [x], k) == WithKey(key, s, k) + if key(x) == k then [x] else []
  {
    assert (s + [x])[..|s|] == s;
  }

  lemma {:induction false} SortIn<T>(key: T -> int, s: seq<T>, y: T)
    ensures y in StableSort(key, s) <==> y in s
  {
    if s != [] {
      var n := |s| - 1;
      SortIn(key, s[..n], y);
      InsertIn(key, StableSort(key, s[..n]), s[n], y);
      assert s == s[..n] + [s[n]];
    }
  }

  /** The sort's two promises: ascending keys, and equal keys left in their original order. */
  lemma {:induction false} SortIsStable<T>(key: T -> int, s: seq<T>)
    ensures SortedBy(key, StableSort(key, s))
    ensures forall k :: WithKey(key, StableSort(key, s), k) == WithKey(key, s, k)
  {
    if s != [] {
      var n := |s| - 1;
      var t := StableSort(key, s[..n]);
      SortIsStable(key, s[..n]);
      InsertSorted(key, t, s[n]);
      forall k ensures WithKey(key, StableSort(key, s), k) == WithKey(key, s, k) {
        InsertStable(key, t, s[n], k);
        assert (t + [s[n]])[..|t|] == t;
      }
    }
  }

  lemma {:induction false} WithKeyEmpty<T>(key: T -> int, s: seq<T>, k: int)
    requires forall x :: x in s ==> key(x) < k
    ensures WithKey(key, s, k) == []
  {
    if s != [] {
      WithKeyEmpty(key, s[..|s| - 1], k);
    }
  }

  lemma {:induction false} SortedKept<T>(key: T -> int, s: seq<T>)
    requires SortedBy(key, s)
    ensures StableSort(key, s) == s
  {
    if s != [] {
      SortedKept(key, s[..|s| - 1]);
      assert s == s[..|s| - 1] + [s[|s| - 1]];
    }
  }

  /** Those promises determine the result. */
  lemma {:induction false} StableUnique<T>(key: T -> int, s: seq<T>, t: seq<T>)
    requires SortedBy(key, s) && SortedBy(key, t)
    requires forall k :: WithKey(key, s, k) == WithKey(key, t, k)
    ensures s == t
    decreases |s| + |t|
  {
    if s == [] && t == [] {
    } else if s == [] || (t != [] && key(s[|s| - 1]) < key(t[|t| - 1])) {
      LaterKey(key, t, s);
    } else if t == [] || key(t[|t| - 1]) < key(s[|s| - 1]) {
      LaterKey(key, s, t);
    } else {
      var m, n := |s| - 1, |t| - 1;
      var k0 := key(s[m]);
      var a, b := WithKey(key, s, k0), WithKey(key, t, k0);
      assert a == b && a[|a| - 1] == s[m] && b[|b| - 1] == t[n];
      forall k ensures WithKey(key, s[..m], k) == WithKey(key, t[..n], k) {
        var x, y := WithKey(key, s, k), WithKey(key, t, k);
        assert x == y;
        if k == k0 {
          assert WithKey(key, s[..m], k) == x[..|x| - 1] && WithKey(key, t[..n], k) == y[..|y| - 1];
        } else {
          assert WithKey(key, s[..m], k) == x && WithKey(key, t[..n], k) == y;
        }
      }
      StableUnique(key, s[..m], t[..n]);
      assert s == s[..m] + [s[m]] && t == t[..n] + [t[n]];
    }
  }

  lemma LaterKey<T>(key: T -> int, s: seq<T>, t: seq<T>)
    requires s != [] && SortedBy(key, t) && (t == [] || key(t[|t| - 1]) < key(s[|s| - 1]))
    ensures exists k :: WithKey(key, s, k) != WithKey(key, t, k)
  {
    var k := key(s[|s| - 1]);
    forall x | x in t ensures key(x) < k {
      var i :| 0 <= i < |t| && t[i] == x;
    }
    WithKeyEmpty(key, t, k);
    assert WithKey(key, s, k) != [];
  }
}
