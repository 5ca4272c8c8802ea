/** The stable sort behind `Array.prototype.sort` with a comparator of the
    form `key(a) - key(b)`: the result is ordered by key, is a permutation of
    the input and keeps the input order among elements of equal key. */
module Sorting {

  /** Inserts `x` before the first element whose key is not smaller. */
  function Insert<T>(x: T, s: seq<T>, key: T -> int): (r: seq<T>)
    ensures |r| == |s| + 1
  {
    if |s| == 0 || key(x) <= key(s[0]) then [x] + s else [s[0]] + Insert(x, s[1..], key)
  }

  /** Insertion sort by ascending key. */
  function SortBy<T>(s: seq<T>, key: T -> int): (r: seq<T>)
    ensures |r| == |s|
  {
    if |s| == 0 then [] else Insert(s[0], SortBy(s[1..], key), key)
  }

  predicate SortedBy<T>(s: seq<T>, key: T -> int)
  {
    forall i, j :: 0 <= i < j < |s| ==> key(s[i]) <= key(s[j])
  }

  /** The elements whose key is `v`, in their order. */
  function WithKey<T>(s: seq<T>, key: T -> int, v: int): seq<T>
  {
    if |s| == 0 then []
    else (if key(s[0]) == v then [s[0]] else []) + WithKey(s[1..], key, v)
  }

  lemma {:induction false} InsertSorted<T>(x: T, s: seq<T>, key: T -> int)
    requires SortedBy(s, key)
    ensures SortedBy(Insert(x, s, key), key)
    decreases |s|
  {
    if |s| == 0 || key(x) <= key(s[0]) {
    } else {
      InsertSorted(x, s[1..], key);
      var tail := Insert(x, s[1..], key);
      assert forall k :: 0 <= k < |tail| ==> key(s[0]) <= key(tail[k]) by {
        InsertKeys(x, s[1..], key);
      }
    }
  }

  /** Every element of an insertion is `x` or an element of `s`. */
  lemma {:induction false} InsertKeys<T>(x: T, s: seq<T>, key: T -> int)
    ensures forall k :: 0 <= k < |Insert(x, s, key)| ==>
              Insert(x, s, key)[k] == x || exists j :: 0 <= j < |s| && Insert(x, s, key)[k] == s[j]
    decreases |s|
  {
    if |s| == 0 || key(x) <= key(s[0]) {
      var r := [x] + s;
      assert forall k :: 1 <= k < |r| ==> r[k] == s[k - 1];
    } else {
      InsertKeys(x, s[1..], key);
      var r := [s[0]] + Insert(x, s[1..], key);
      forall k | 0 <= k < |r|
        ensures r[k] == x || exists j :: 0 <= j < |s| && r[k] == s[j]
      {
        if k == 0 {
          assert r[0] == s[0];
        } else {
          assert r[k] == Insert(x, s[1..], key)[k - 1];
          if r[k] != x {
            var j :| 0 <= j < |s[1..]| && r[k] == s[1..][j];
            assert r[k] == s[j + 1];
          }
        }
      }
    }
  }

  /** The sort orders by key. */
  lemma {:induction false} SortBySorted<T>(s: seq<T>, key: T -> int)
    ensures SortedBy(SortBy(s, key), key)
    decreases |s|
  {
    if |s| > 0 {
      SortBySorted(s[1..], key);
      InsertSorted(s[0], SortBy(s[1..], key), key);
    }
  }

  lemma {:induction false} InsertPermutation<T>(x: T, s: seq<T>, key: T -> int)
    ensures multiset(Insert(x, s, key)) == multiset(s) + multiset{x}
    decreases |s|
  {
    if |s| == 0 || key(x) <= key(s[0]) {
    } else {
      InsertPermutation(x, s[1..], key);
      assert s == [s[0]] + s[1..];
    }
  }

  /** The sort is a permutation. */
  lemma {:induction false} SortByPermutation<T>(s: seq<T>, key: T -> int)
    ensures multiset(SortBy(s, key)) == multiset(s)
    decreases |s|
  {
    if |s| > 0 {
      SortByPermutation(s[1..], key);
      InsertPermutation(s[0], SortBy(s[1..], key), key);
      assert s == [s[0]] + s[1..];
    }
  }

  lemma {:induction false} InsertWithKey<T>(x: T, s: seq<T>, key: T -> int, v: int)
    ensures WithKey(Insert(x, s, key), key, v) ==
            (if key(x) == v then [x] else []) + WithKey(s, key, v)
    decreases |s|
  {
    if |s| == 0 || key(x) <= key(s[0]) {
      assert ([x] + s)[1..] == s;
    } else {
      InsertWithKey(x, s[1..], key, v);
      var t := Insert(x, s[1..], key);
      var r := [s[0]] + t;
      assert r[0] == s[0] && r[1..] == t;
      var head := if key(s[0]) == v then [s[0]] else [];
      assert WithKey(r, key, v) == head + WithKey(t, key, v);
      assert WithKey(s, key, v) == head + WithKey(s[1..], key, v);
      if key(x) == v {
        assert head == [];
      } else {
        assert WithKey(t, key, v) == WithKey(s[1..], key, v);
      }
    }
  }

  /** The sort is stable: the elements of each key keep their input order. */
  lemma {:induction false} SortByStable<T>(s: seq<T>, key: T -> int, v: int)
    ensures WithKey(SortBy(s, key), key, v) == WithKey(s, key, v)
    decreases |s|
  {
    if |s| > 0 {
      SortByStable(s[1..], key, v);
      InsertWithKey(s[0], SortBy(s[1..], key), key, v);
    }
  }

  /** The sort keeps exactly the elements of its input. */
  lemma SortByMembers<T>(s: seq<T>, key: T -> int)
    ensures forall x :: x in SortBy(s, key) ==> x in s
    ensures forall x :: x in s ==> x in SortBy(s, key)
  {
    var r := SortBy(s, key);
    SortByPermutation(s, key);
    forall x | x in r
      ensures x in s
    {
      assert x in multiset(r);
    }
    forall x | x in s
      ensures x in r
    {
      assert x in multiset(s);
    }
  }

  /** `p` holds between every two entries at different positions. */
  predicate Pairwise<T>(s: seq<T>, p: (T, T) -> bool)
  {
    forall i, j :: 0 <= i < |s| && 0 <= j < |s| && i != j ==> p(s[i], s[j])
  }

  lemma {:induction false} InsertPairwise<T>(x: T, s: seq<T>, key: T -> int, p: (T, T) -> bool)
    requires Pairwise(s, p)
    requires forall k :: 0 <= k < |s| ==> p(x, s[k]) && p(s[k], x)
    ensures Pairwise(Insert(x, s, key), p)
    decreases |s|
  {
    if |s| == 0 || key(x) <= key(s[0]) {
      var r := [x] + s;
      assert forall k :: 1 <= k < |r| ==> r[k] == s[k - 1];
    } else {
      var t := Insert(x, s[1..], key);
      InsertPairwise(x, s[1..], key, p);
      InsertKeys(x, s[1..], key);
      var r := [s[0]] + t;
      forall i, j | 0 <= i < |r| && 0 <= j < |r| && i != j
        ensures p(r[i], r[j])
      {
        if i == 0 || j == 0 {
          var k := if i == 0 then j else i;
          assert r[k] == t[k - 1];
          if t[k - 1] != x {
            var m :| 0 <= m < |s[1..]| && t[k - 1] == s[1..][m];
            assert t[k - 1] == s[m + 1];
          }
        } else {
          assert r[i] == t[i - 1] && r[j] == t[j - 1];
        }
      }
    }
  }

  /** A relation between every two entries survives the sort. */
  lemma {:induction false} SortByPairwise<T>(s: seq<T>, key: T -> int, p: (T, T) -> bool)
    requires Pairwise(s, p)
    ensures Pairwise(SortBy(s, key), p)
    decreases |s|
  {
    if |s| > 0 {
      var rest := SortBy(s[1..], key);
      assert Pairwise(s[1..], p) by {
        forall i, j | 0 <= i < |s[1..]| && 0 <= j < |s[1..]| && i != j
          ensures p(s[1..][i], s[1..][j])
        {
          assert s[1..][i] == s[i + 1] && s[1..][j] == s[j + 1];
        }
      }
      SortByPairwise(s[1..], key, p);
      SortByMembers(s[1..], key);
      forall k | 0 <= k < |rest|
        ensures p(s[0], rest[k]) && p(rest[k], s[0])
      {
        assert rest[k] in rest;
        assert rest[k] in s[1..];
        var m :| 0 <= m < |s[1..]| && s[1..][m] == rest[k];
        assert s[1..][m] == s[m + 1];
      }
      InsertPairwise(s[0], rest, key, p);
    }
  }

  /** `s.filter(p)`: the entries satisfying `p`, in their order. */
  function Filter<T>(s: seq<T>, p: T -> bool): (r: seq<T>)
    ensures |r| <= |s|
  {
    if |s| == 0 then []
    else (if p(s[0]) then [s[0]] else []) + Filter(s[1..], p)
  }

  /** The filter keeps exactly the entries satisfying `p`. */
  lemma {:induction false} FilterMembers<T>(s: seq<T>, p: T -> bool)
    ensures forall x :: x in Filter(s, p) ==> x in s && p(x)
    ensures forall x :: x in s && p(x) ==> x in Filter(s, p)
    decreases |s|
  {
    if |s| > 0 {
      FilterMembers(s[1..], p);
      forall x | x in s && p(x)
        ensures x in Filter(s, p)
      {
        if x != s[0] {
          var k :| 0 <= k < |s| && s[k] == x;
          assert s[1..][k - 1] == x;
        }
      }
    }
  }

  /** The filter keeps everything when every entry satisfies `p`. */
  lemma {:induction false} FilterAll<T>(s: seq<T>, p: T -> bool)
    requires forall k :: 0 <= k < |s| ==> p(s[k])
    ensures Filter(s, p) == s
    decreases |s|
  {
    if |s| > 0 {
      FilterAll(s[1..], p);
      assert [s[0]] + s[1..] == s;
    }
  }

  /** A relation between every two entries survives the filter. */
  lemma {:induction false} FilterPairwise<T>(s: seq<T>, p: T -> bool, q: (T, T) -> bool)
    requires Pairwise(s, q)
    ensures Pairwise(Filter(s, p), q)
    decreases |s|
  {
    if |s| > 0 {
      var rest := Filter(s[1..], p);
      assert Pairwise(s[1..], q) by {
        forall i, j | 0 <= i < |s[1..]| && 0 <= j < |s[1..]| && i != j
          ensures q(s[1..][i], s[1..][j])
        {
          assert s[1..][i] == s[i + 1] && s[1..][j] == s[j + 1];
        }
      }
      FilterPairwise(s[1..], p, q);
      if p(s[0]) {
        FilterMembers(s[1..], p);
        var r := [s[0]] + rest;
        forall i, j | 0 <= i < |r| && 0 <= j < |r| && i != j
          ensures q(r[i], r[j])
        {
          if i == 0 || j == 0 {
            var k := if i == 0 then j else i;
            assert r[k] == rest[k - 1] && rest[k - 1] in rest;
            var m :| 0 <= m < |s[1..]| && s[1..][m] == rest[k - 1];
            assert s[1..][m] == s[m + 1];
          } else {
            assert r[i] == rest[i - 1] && r[j] == rest[j - 1];
          }
        }
      }
    }
  }

  /** Filtering a list extended by one entry extends the filtered list by
      that entry exactly when it satisfies `p`. */
  lemma {:induction false} FilterSnoc<T>(s: seq<T>, x: T, p: T -> bool)
    ensures Filter(s + [x], p) == Filter(s, p) + (if p(x) then [x] else [])
    decreases |s|
  {
    var tail := if p(x) then [x] else [];
    if |s| == 0 {
      assert s + [x] == [x];
      assert [x][1..] == [];
    } else {
      var head := if p(s[0]) then [s[0]] else [];
      var t := s + [x];
      assert t[0] == s[0] && t[1..] == s[1..] + [x];
      FilterSnoc(s[1..], x, p);
      assert Filter(t, p) == head + Filter(t[1..], p);
      assert Filter(t[1..], p) == Filter(s[1..], p) + tail;
      assert Filter(s, p) == head + Filter(s[1..], p);
      assert head + (Filter(s[1..], p) + tail) == (head + Filter(s[1..], p)) + tail;
    }
  }
}
