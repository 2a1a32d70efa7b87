/**
 * Python's `sorted(xs, key=k, reverse=True)` and `list.sort(key=k, reverse=True)`
 * as a stable insertion sort, and slicing `xs[:n]`.
 */
module Sorting {

  /** `s[:n]` for `n >= 0`. */
  function Take<T>(s: seq<T>, n: nat): (r: seq<T>)
    ensures |r| == if n < |s| then n else |s|
    ensures forall i :: 0 <= i < |r| ==> r[i] == s[i]
  {
    if n < |s| then s[..n] else s
  }

  ghost predicate SortedDesc<T>(s: seq<T>, key: T -> real)
  {
    forall i, j :: 0 <= i < j < |s| ==> key(s[i]) >= key(s[j])
  }

  /**
   * Descending order passes to the tail of a sequence, and back to its head
   * followed by any descending selection from that tail.
   */
  lemma SortedStep<T>(s: seq<T>, t: seq<T>, key: T -> real)
    requires s != [] && forall y :: y in t ==> y in s[1..]
    ensures SortedDesc(s, key) ==> SortedDesc(s[1..], key)
    ensures SortedDesc(s, key) && SortedDesc(t, key) ==> SortedDesc([s[0]] + t, key)
  {
    if SortedDesc(s, key) && SortedDesc(t, key) {
      var u := [s[0]] + t;
      forall i, j | 0 <= i < j < |u| ensures key(u[i]) >= key(u[j]) {
        assert u[j] == t[j - 1] && u[j] in s[1..];
        if i == 0 {
          var m :| 0 <= m < |s[1..]| && s[1..][m] == u[j];
          assert s[m + 1] == u[j];
        } else {
          assert u[i] == t[i - 1];
        }
      }
    }
  }

  /** Inserts `x` after every element whose key is at least `x`'s. */
  function InsertDesc<T>(x: T, s: seq<T>, key: T -> real): seq<T>
  {
    if s == [] then [x]
    else if key(s[0]) >= key(x) then [s[0]] + InsertDesc(x, s[1..], key)
    else [x] + s
  }

  /** Stable descending sort: elements with equal keys keep their input order. */
  function SortDesc<T>(s: seq<T>, key: T -> real): seq<T>
  {
    if s == [] then [] else InsertDesc(s[|s| - 1], SortDesc(s[..|s| - 1], key), key)
  }

  /** The subsequence of `s` whose key is `v`, in the order of `s`. */
  function WithKey<T>(s: seq<T>, key: T -> real, v: real): seq<T>
  {
    if s == [] then []
    else (if key(s[0]) == v then [s[0]] else []) + WithKey(s[1..], key, v)
  }

  lemma {:induction false} WithKeyAppend<T>(a: seq<T>, b: seq<T>, key: T -> real, v: real)
    ensures WithKey(a + b, key, v) == WithKey(a, key, v) + WithKey(b, key, v)
  {
    if a == [] {
      assert a + b == b;
    } else {
      assert (a + b)[0] == a[0];
      assert (a + b)[1..] == a[1..] + b;
      WithKeyAppend(a[1..], b, key, v);
      calc {
        WithKey(a + b, key, v);
        (if key(a[0]) == v then [a[0]] else []) + WithKey(a[1..] + b, key, v);
        (if key(a[0]) == v then [a[0]] else []) + (WithKey(a[1..], key, v) + WithKey(b, key, v));
      }
    }
  }

  /** Selecting by key from a prefix gives a prefix of the selection from the whole. */
  lemma WithKeyTake<T>(s: seq<T>, n: nat, key: T -> real, v: real)
    ensures var t := WithKey(Take(s, n), key, v);
            |t| <= |WithKey(s, key, v)| && t == WithKey(s, key, v)[..|t|]
  {
    var p := Take(s, n);
    assert s == p + s[|p|..];
    WithKeyAppend(p, s[|p|..], key, v);
  }

  lemma {:induction false} InsertDescKeeps<T>(x: T, s: seq<T>, key: T -> real)
    ensures multiset(InsertDesc(x, s, key)) == multiset(s) + multiset{x}
    ensures |InsertDesc(x, s, key)| == |s| + 1
  {
    if s != [] && key(s[0]) >= key(x) {
      InsertDescKeeps(x, s[1..], key);
      assert s == [s[0]] + s[1..];
    }
  }

  lemma {:induction false} InsertDescSorted<T>(x: T, s: seq<T>, key: T -> real)
    requires SortedDesc(s, key)
    ensures SortedDesc(InsertDesc(x, s, key), key)
  {
    if s != [] && key(s[0]) >= key(x) {
      InsertDescSorted(x, s[1..], key);
      InsertDescKeeps(x, s[1..], key);
      var t := InsertDesc(x, s[1..], key);
      var r := [s[0]] + t;
      forall j | 1 <= j < |r| ensures key(r[0]) >= key(r[j]) {
        var y := t[j - 1];
        assert y in multiset(t);
        if y != x {
          assert y in multiset(s[1..]);
          var m :| 0 <= m < |s[1..]| && s[1..][m] == y;
          assert s[m + 1] == y;
        }
      }
    }
  }

  lemma InsertDescFacts<T>(x: T, s: seq<T>, key: T -> real)
    requires SortedDesc(s, key)
    ensures SortedDesc(InsertDesc(x, s, key), key)
    ensures multiset(InsertDesc(x, s, key)) == multiset(s) + multiset{x}
    ensures |InsertDesc(x, s, key)| == |s| + 1
  {
    InsertDescKeeps(x, s, key);
    InsertDescSorted(x, s, key);
  }

  lemma WithKeyCons<T>(y: T, t: seq<T>, key: T -> real, v: real)
    ensures WithKey([y] + t, key, v) == (if key(y) == v then [y] else []) + WithKey(t, key, v)
  {
    assert ([y] + t)[1..] == t;
  }

  lemma {:induction false} WithKeyNone<T>(s: seq<T>, key: T -> real, v: real)
    requires forall i :: 0 <= i < |s| ==> key(s[i]) != v
    ensures WithKey(s, key, v) == []
  {
    if s != [] {
      WithKeyNone(s[1..], key, v);
    }
  }

  /** No element of a descending sequence headed below `v` has key `v`. */
  lemma WithKeyBelow<T>(s: seq<T>, key: T -> real, v: real)
    requires SortedDesc(s, key) && s != [] && key(s[0]) < v
    ensures WithKey(s, key, v) == []
  {
    assert forall i :: 0 <= i < |s| ==> key(s[i]) <= key(s[0]);
    WithKeyNone(s, key, v);
  }

  lemma {:induction false} InsertDescWithKey<T>(x: T, s: seq<T>, key: T -> real, v: real)
    requires SortedDesc(s, key)
    ensures WithKey(InsertDesc(x, s, key), key, v)
         == WithKey(s, key, v) + (if key(x) == v then [x] else [])
  {
    var tail := if key(x) == v then [x] else [];
    if s == [] {
      WithKeyCons(x, [], key, v);
    } else if key(s[0]) >= key(x) {
      var head := if key(s[0]) == v then [s[0]] else [];
      var rest := InsertDesc(x, s[1..], key);
      assert SortedDesc(s[1..], key);
      assert InsertDesc(x, s, key) == [s[0]] + rest;
      calc {
        WithKey([s[0]] + rest, key, v);
        { WithKeyCons(s[0], rest, key, v); }
        head + WithKey(rest, key, v);
        { InsertDescWithKey(x, s[1..], key, v); }
        head + (WithKey(s[1..], key, v) + tail);
        (head + WithKey(s[1..], key, v)) + tail;
        { WithKeyCons(s[0], s[1..], key, v); assert s == [s[0]] + s[1..]; }
        WithKey(s, key, v) + tail;
      }
    } else {
      WithKeyCons(x, s, key, v);
      if key(x) == v {
        WithKeyBelow(s, key, v);
      }
    }
  }

  /** `SortDesc` puts its result in non-increasing key order and keeps every element. */
  lemma {:induction false} SortDescPermutes<T>(s: seq<T>, key: T -> real)
    ensures SortedDesc(SortDesc(s, key), key)
    ensures multiset(SortDesc(s, key)) == multiset(s)
    ensures |SortDesc(s, key)| == |s|
  {
    if s != [] {
      var init := s[..|s| - 1];
      SortDescPermutes(init, key);
      InsertDescFacts(s[|s| - 1], SortDesc(init, key), key);
      assert s == init + [s[|s| - 1]];
    }
  }

  /** `SortDesc` is stable: among elements with the same key, input order survives. */
  lemma {:induction false} SortDescStable<T>(s: seq<T>, key: T -> real, v: real)
    ensures WithKey(SortDesc(s, key), key, v) == WithKey(s, key, v)
  {
    if s != [] {
      var init, last := s[..|s| - 1], s[|s| - 1];
      SortDescPermutes(init, key);
      SortDescStable(init, key, v);
      InsertDescWithKey(last, SortDesc(init, key), key, v);
      assert s == init + [last];
      WithKeyAppend(init, [last], key, v);
    }
  }
}
