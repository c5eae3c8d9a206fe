/** `items.sort((a, b) => new Date(b.date || 0) - new Date(a.date || 0))`:
    a stable sort (as ECMAScript requires since 2019) that puts larger time
    values first. `key` gives an item's time value, `None` for `NaN`; a
    comparison involving `NaN` counts as "equal". `SortStable` states the
    stability. */
module Sorting {
  import opened Wrappers

  /** The comparator `(a, b)` is positive: `a` belongs after `b`. */
  predicate After<T>(key: T -> Option<int>, a: T, b: T) {
    key(a).Some? && key(b).Some? && key(a).value < key(b).value
  }

  /** Insert `x` in front of the first element that belongs after it, so that
      earlier elements with an equal key stay in front of it. */
  function Insert<T>(key: T -> Option<int>, x: T, ys: seq<T>): (r: seq<T>)
    ensures multiset(r) == multiset(ys) + multiset{x}
  {
    if ys == [] then [x]
    else if After(key, ys[0], x) then [x] + ys
    else
      var r := [ys[0]] + Insert(key, x, ys[1..]);
      assert ys == [ys[0]] + ys[1..];
      r
  }

  /** Insertion sort taking the elements left to right. */
  function SortNewestFirst<T>(key: T -> Option<int>, s: seq<T>): (r: seq<T>)
    decreases |s|
  {
    if s == [] then [] else Insert(key, s[|s| - 1], SortNewestFirst(key, s[..|s| - 1]))
  }

  ghost predicate AllKeyed<T>(key: T -> Option<int>, s: seq<T>) {
    forall i :: 0 <= i < |s| ==> key(s[i]).Some?
  }

  /** Larger time values come first. */
  ghost predicate NewestFirst<T>(key: T -> Option<int>, s: seq<T>) {
    forall i, j :: 0 <= i < j < |s| && key(s[i]).Some? && key(s[j]).Some? ==> key(s[i]).value >= key(s[j]).value
  }

  /** Inserting any item keeps the dated items newest first. */
  lemma {:induction false} InsertOrdered<T>(key: T -> Option<int>, x: T, ys: seq<T>)
    requires NewestFirst(key, ys)
    ensures NewestFirst(key, Insert(key, x, ys))
  {
    if ys != [] && After(key, ys[0], x) {
      var r := [x] + ys;
      forall j | 1 <= j < |r| && key(r[j]).Some?
        ensures key(x).value >= key(r[j]).value
      {
        assert r[j] == ys[j - 1];
        if j > 1 {
          assert key(ys[0]).value >= key(ys[j - 1]).value;
        }
      }
    } else if ys != [] {
      var tail := ys[1..];
      assert NewestFirst(key, tail) by {
        assert forall i :: 0 <= i < |tail| ==> tail[i] == ys[i + 1];
      }
      InsertOrdered(key, x, tail);
      if key(ys[0]).Some? {
        HeadBound(key, x, ys);
      }
      ConsOrdered(key, ys[0], Insert(key, x, tail));
      assert Insert(key, x, ys) == [ys[0]] + Insert(key, x, tail);
    }
  }

  /** A newest-first list stays newest first behind an item at least as
      new as each of its dated items. */
  lemma ConsOrdered<T>(key: T -> Option<int>, y: T, t: seq<T>)
    requires key(y).Some? ==> forall z :: z in t && key(z).Some? ==> key(z).value <= key(y).value
    requires NewestFirst(key, t)
    ensures NewestFirst(key, [y] + t)
  {
    var r := [y] + t;
    forall i, j | 0 <= i < j < |r| && key(r[i]).Some? && key(r[j]).Some?
      ensures key(r[i]).value >= key(r[j]).value
    {
      assert r[j] == t[j - 1];
      if i > 0 {
        assert r[i] == t[i - 1];
      } else {
        assert t[j - 1] in t;
      }
    }
  }

  /** A dated head of `ys` that `x` goes past is at least as new as every
      dated item of the rest after `x` is inserted there. */
  lemma HeadBound<T>(key: T -> Option<int>, x: T, ys: seq<T>)
    requires ys != [] && !After(key, ys[0], x) && key(ys[0]).Some?
    requires NewestFirst(key, ys)
    ensures forall z :: z in Insert(key, x, ys[1..]) && key(z).Some? ==>
      key(z).value <= key(ys[0]).value
  {
    var tail := ys[1..];
    forall z | z in Insert(key, x, tail) && key(z).Some?
      ensures key(z).value <= key(ys[0]).value
    {
      assert z in multiset(Insert(key, x, tail));
      if z != x {
        assert z in multiset(tail);
        var k :| 0 <= k < |tail| && tail[k] == z;
        assert tail[k] == ys[k + 1];
      }
    }
  }

  /** The sort returns a rearrangement of its input. */
  lemma {:induction false} SortPermutes<T>(key: T -> Option<int>, s: seq<T>)
    ensures multiset(SortNewestFirst(key, s)) == multiset(s)
    decreases |s|
  {
    if s != [] {
      SortPermutes(key, s[..|s| - 1]);
      assert s == s[..|s| - 1] + [s[|s| - 1]];
    }
  }

  /** The sort keeps exactly the items of its input, and so every item has a
      time value after the sort exactly when every item had one before. */
  lemma SortMembers<T>(key: T -> Option<int>, s: seq<T>)
    ensures forall x :: x in SortNewestFirst(key, s) <==> x in s
    ensures AllKeyed(key, SortNewestFirst(key, s)) <==> AllKeyed(key, s)
  {
    var r := SortNewestFirst(key, s);
    SortPermutes(key, s);
    forall x ensures x in r <==> x in s {
      assert x in r <==> x in multiset(r);
      assert x in s <==> x in multiset(s);
    }
    if AllKeyed(key, r) {
      forall i | 0 <= i < |s| ensures key(s[i]).Some? {
        assert s[i] in r;
      }
    }
    if AllKeyed(key, s) {
      forall i | 0 <= i < |r| ensures key(r[i]).Some? {
        assert r[i] in s;
      }
    }
  }

  /** The dated items of the result are newest first, whatever the input;
      when every item has a time value, so does every item of the result. */
  lemma {:induction false} SortOrders<T>(key: T -> Option<int>, s: seq<T>)
    ensures NewestFirst(key, SortNewestFirst(key, s))
    ensures AllKeyed(key, s) ==> AllKeyed(key, SortNewestFirst(key, s))
    decreases |s|
  {
    if s != [] {
      SortOrders(key, s[..|s| - 1]);
      InsertOrdered(key, s[|s| - 1], SortNewestFirst(key, s[..|s| - 1]));
      SortMembers(key, s);
    }
  }

  /** The items whose time value is `k`, in their order. */
  function WithKey<T>(key: T -> Option<int>, s: seq<T>, k: Option<int>): (r: seq<T>)
    ensures |r| <= |s|
    ensures forall i :: 0 <= i < |r| ==> key(r[i]) == k
  {
    if s == [] then []
    else (if key(s[0]) == k then [s[0]] else []) + WithKey(key, s[1..], k)
  }

  lemma {:induction false} WithKeyAppend<T>(key: T -> Option<int>, a: seq<T>, b: seq<T>, k: Option<int>)
    ensures WithKey(key, a + b, k) == WithKey(key, a, k) + WithKey(key, b, k)
  {
    if a != [] {
      var h := if key(a[0]) == k then [a[0]] else [];
      assert (a + b)[0] == a[0] && (a + b)[1..] == a[1..] + b;
      assert WithKey(key, a + b, k) == h + WithKey(key, a[1..] + b, k);
      WithKeyAppend(key, a[1..], b, k);
      AppendAssoc(h, WithKey(key, a[1..], k), WithKey(key, b, k));
    } else {
      assert a + b == b;
    }
  }

  /** No item of `s` has time value `k`. */
  lemma {:induction false} WithKeyAbsent<T>(key: T -> Option<int>, s: seq<T>, k: Option<int>)
    requires forall i :: 0 <= i < |s| ==> key(s[i]) != k
    ensures WithKey(key, s, k) == []
  {
    if s != [] {
      assert forall i :: 0 <= i < |s[1..]| ==> s[1..][i] == s[i + 1];
      WithKeyAbsent(key, s[1..], k);
    }
  }

  /** Insertion puts `x` behind every item that already has its time value. */
  lemma {:induction false} InsertWithKey<T>(key: T -> Option<int>, x: T, ys: seq<T>, k: Option<int>)
    requires NewestFirst(key, ys)
    ensures WithKey(key, Insert(key, x, ys), k) ==
      WithKey(key, ys, k) + (if key(x) == k then [x] else [])
  {
    if ys == [] {
      assert Insert(key, x, ys) == [x] && [x][1..] == [];
    } else if After(key, ys[0], x) {
      var r := [x] + ys;
      assert Insert(key, x, ys) == r;
      assert r[0] == x && r[1..] == ys;
      assert WithKey(key, r, k) == (if key(x) == k then [x] else []) + WithKey(key, ys, k);
      if key(x) == k {
        forall i | 0 <= i < |ys| ensures key(ys[i]) != k {
          if i > 0 && key(ys[i]).Some? {
            assert key(ys[0]).value >= key(ys[i]).value;
          }
        }
        WithKeyAbsent(key, ys, k);
      }
    } else {
      var tail := ys[1..];
      assert NewestFirst(key, tail) by {
        assert forall i :: 0 <= i < |tail| ==> tail[i] == ys[i + 1];
      }
      InsertWithKey(key, x, tail, k);
      InsertBehind(key, x, ys, k);
    }
  }

  /** One step of `InsertWithKey`: `x` goes past the head of `ys`. */
  lemma InsertBehind<T>(key: T -> Option<int>, x: T, ys: seq<T>, k: Option<int>)
    requires ys != [] && !After(key, ys[0], x)
    requires WithKey(key, Insert(key, x, ys[1..]), k) ==
      WithKey(key, ys[1..], k) + (if key(x) == k then [x] else [])
    ensures WithKey(key, Insert(key, x, ys), k) ==
      WithKey(key, ys, k) + (if key(x) == k then [x] else [])
  {
    var t := Insert(key, x, ys[1..]);
    var r := [ys[0]] + t;
    assert Insert(key, x, ys) == r;
    assert r[0] == ys[0] && r[1..] == t;
    var h := if key(ys[0]) == k then [ys[0]] else [];
    var w, xk := WithKey(key, ys[1..], k), if key(x) == k then [x] else [];
    assert WithKey(key, r, k) == h + WithKey(key, t, k);
    assert WithKey(key, ys, k) == h + w;
    AppendAssoc(h, w, xk);
  }

  lemma AppendAssoc<T>(a: seq<T>, b: seq<T>, c: seq<T>)
    ensures a + (b + c) == (a + b) + c
  {
  }

  /** The sort is stable: the items sharing a time value, and the unreadable
      items (`k == None`), keep their input order. */
  lemma {:induction false} SortStable<T>(key: T -> Option<int>, s: seq<T>, k: Option<int>)
    ensures WithKey(key, SortNewestFirst(key, s), k) == WithKey(key, s, k)
    decreases |s|
  {
    if s != [] {
      var front, x := s[..|s| - 1], s[|s| - 1];
      assert s == front + [x];
      assert [x][1..] == [];
      assert WithKey(key, [x], k) == (if key(x) == k then [x] else []) + [];
      WithKeyAppend(key, front, [x], k);
      SortStable(key, front, k);
      assert NewestFirst(key, SortNewestFirst(key, front)) by {
        SortOrders(key, front);
      }
      InsertWithKey(key, x, SortNewestFirst(key, front), k);
    }
  }
}
