/**
  Python's sorted(xs, key=f) for string keys: a stable sort in ascending
  string order, written as an insertion sort.
*/
module Sorting {
  import opened PyText

  /** a <= b on Python strings. */
  predicate LexLe(a: string, b: string)
  {
    !LexLess(b, a)
  }

  lemma LexLeTransitive(a: string, b: string, c: string)
    requires LexLe(a, b) && LexLe(b, c)
    ensures LexLe(a, c)
  {
    if LexLess(c, a) {
      LexLessTotal(b, c);
      if LexLess(b, c) {
        LexLessTransitive(b, c, a);
      }
    }
  }

  lemma LexLeFlip(a: string, b: string)
    requires !LexLe(a, b)
    ensures LexLe(b, a) && a != b
  {
    LexLessAsymmetric(b, a);
    if a == b {
      LexLessIrreflexive(a);
    }
  }

  predicate SortedBy<T>(s: seq<T>, key: T -> string)
  {
    forall i, j :: 0 <= i < j < |s| ==> LexLe(key(s[i]), key(s[j]))
  }

  /** Places x before the first element whose key is not below x's. */
  function Insert<T>(x: T, s: seq<T>, key: T -> string): seq<T>
  {
    if |s| == 0 then [x]
    else if LexLe(key(x), key(s[0])) then [x] + s
    else [s[0]] + Insert(x, s[1..], key)
  }

  /** sorted(s, key=key) */
  function SortBy<T>(s: seq<T>, key: T -> string): seq<T>
  {
    if |s| == 0 then [] else Insert(s[0], SortBy(s[1..], key), key)
  }

  /** The elements of s whose key is k, in order. */
  function WithKey<T>(s: seq<T>, key: T -> string, k: string): seq<T>
  {
    if |s| == 0 then [] else (if key(s[0]) == k then [s[0]] else []) + WithKey(s[1..], key, k)
  }

  lemma SortedCons<T>(x: T, t: seq<T>, key: T -> string)
    requires SortedBy(t, key)
    requires forall j :: 0 <= j < |t| ==> LexLe(key(x), key(t[j]))
    ensures SortedBy([x] + t, key)
  {
    var r := [x] + t;
    forall i, j | 0 <= i < j < |r| ensures LexLe(key(r[i]), key(r[j])) {
      if i > 0 {
        assert r[i] == t[i - 1] && r[j] == t[j - 1];
      } else {
        assert r[j] == t[j - 1];
      }
    }
  }

  lemma {:induction false} InsertPerm<T>(x: T, s: seq<T>, key: T -> string)
    ensures multiset(Insert(x, s, key)) == multiset(s) + multiset{x}
    ensures |Insert(x, s, key)| == |s| + 1
  {
    if |s| > 0 && !LexLe(key(x), key(s[0])) {
      InsertPerm(x, s[1..], key);
      assert s == [s[0]] + s[1..];
    }
  }

  lemma TailSorted<T>(s: seq<T>, key: T -> string)
    requires |s| > 0 && SortedBy(s, key)
    ensures SortedBy(s[1..], key)
  {
    var s1 := s[1..];
    forall i, j | 0 <= i < j < |s1| ensures LexLe(key(s1[i]), key(s1[j])) {
      assert s1[i] == s[i + 1] && s1[j] == s[j + 1];
    }
  }

  /** Every element of t is x or an element of s. */
  lemma BoundAfterInsert<T>(x: T, s: seq<T>, t: seq<T>, lo: string, key: T -> string)
    requires multiset(t) == multiset(s) + multiset{x}
    requires LexLe(lo, key(x))
    requires forall i :: 0 <= i < |s| ==> LexLe(lo, key(s[i]))
    ensures forall j :: 0 <= j < |t| ==> LexLe(lo, key(t[j]))
  {
    forall j | 0 <= j < |t| ensures LexLe(lo, key(t[j])) {
      assert t[j] in multiset(t);
      if t[j] != x {
        assert t[j] in multiset(s);
        var i :| 0 <= i < |s| && s[i] == t[j];
      }
    }
  }

  lemma {:induction false} InsertSorted<T>(x: T, s: seq<T>, key: T -> string)
    requires SortedBy(s, key)
    ensures SortedBy(Insert(x, s, key), key)
  {
    if |s| == 0 {
    } else if LexLe(key(x), key(s[0])) {
      forall j | 0 <= j < |s| ensures LexLe(key(x), key(s[j])) {
        if j > 0 {
          LexLeTransitive(key(x), key(s[0]), key(s[j]));
        }
      }
      SortedCons(x, s, key);
    } else {
      var s1 := s[1..];
      TailSorted(s, key);
      InsertSorted(x, s1, key);
      InsertPerm(x, s1, key);
      var t := Insert(x, s1, key);
      LexLeFlip(key(x), key(s[0]));
      assert forall i :: 0 <= i < |s1| ==> LexLe(key(s[0]), key(s1[i])) by {
        forall i | 0 <= i < |s1| ensures LexLe(key(s[0]), key(s1[i])) {
          assert s1[i] == s[i + 1];
        }
      }
      BoundAfterInsert(x, s1, t, key(s[0]), key);
      SortedCons(s[0], t, key);
    }
  }

  /** The result of sorted() is in ascending key order and holds the same elements. */
  lemma {:induction false} SortBySorted<T>(s: seq<T>, key: T -> string)
    ensures SortedBy(SortBy(s, key), key)
    ensures multiset(SortBy(s, key)) == multiset(s)
    ensures |SortBy(s, key)| == |s|
  {
    if |s| > 0 {
      SortBySorted(s[1..], key);
      InsertSorted(s[0], SortBy(s[1..], key), key);
      InsertPerm(s[0], SortBy(s[1..], key), key);
      assert s == [s[0]] + s[1..];
    }
  }

  lemma {:induction false} InsertWithKey<T>(x: T, s: seq<T>, key: T -> string, k: string)
    ensures WithKey(Insert(x, s, key), key, k) == (if key(x) == k then [x] else []) + WithKey(s, key, k)
  {
    if |s| == 0 {
    } else if LexLe(key(x), key(s[0])) {
      WithKeyCons(x, s, key, k);
    } else {
      InsertWithKey(x, s[1..], key, k);
      InsertWithKeyLater(x, s, key, k);
    }
  }

  /** When x goes after the head, its key differs from the head's key, so the
      two contributions to WithKey commute. */
  lemma InsertWithKeyLater<T>(x: T, s: seq<T>, key: T -> string, k: string)
    requires |s| > 0 && !LexLe(key(x), key(s[0]))
    requires WithKey(Insert(x, s[1..], key), key, k) == (if key(x) == k then [x] else []) + WithKey(s[1..], key, k)
    ensures WithKey(Insert(x, s, key), key, k) == (if key(x) == k then [x] else []) + WithKey(s, key, k)
  {
    var ex := if key(x) == k then [x] else [];
    var e0 := if key(s[0]) == k then [s[0]] else [];
    var w := WithKey(s[1..], key, k);
    LexLeFlip(key(x), key(s[0]));
    WithKeyCons(s[0], Insert(x, s[1..], key), key, k);
    assert WithKey(Insert(x, s, key), key, k) == e0 + (ex + w);
    assert e0 + (ex + w) == ex + (e0 + w);
  }

  lemma WithKeyCons<T>(y: T, t: seq<T>, key: T -> string, k: string)
    ensures WithKey([y] + t, key, k) == (if key(y) == k then [y] else []) + WithKey(t, key, k)
  {
    assert ([y] + t)[1..] == t;
  }

  /** sorted() is stable: elements with equal keys keep their relative order. */
  lemma {:induction false} SortByStable<T>(s: seq<T>, key: T -> string, k: string)
    ensures WithKey(SortBy(s, key), key, k) == WithKey(s, key, k)
  {
    if |s| > 0 {
      SortByStable(s[1..], key, k);
      InsertWithKey(s[0], SortBy(s[1..], key), key, k);
    }
  }

  function Itself(s: string): string { s }

  /** With distinct elements and the identity key, the sorted list is strictly increasing. */
  lemma StrictlySorted(s: seq<string>)
    requires SortedBy(s, Itself)
    requires forall i, j :: 0 <= i < j < |s| ==> s[i] != s[j]
    ensures forall i, j :: 0 <= i < j < |s| ==> LexLess(s[i], s[j])
  {
    forall i, j | 0 <= i < j < |s| ensures LexLess(s[i], s[j]) {
      LexLessTotal(s[i], s[j]);
    }
  }
}
