/** Stable sorting by a real-valued key, as Python's `list.sort` and `sorted` do it.
    The sort is insertion sort from the left: each element goes behind every element
    already placed whose key is not greater than its own, so elements with equal keys
    keep their original order. A descending sort (`reverse=True`) is the ascending sort
    by the negated key, which keeps ties in their original order as Python does. */
module Sorting {

  /** `s` is in non-decreasing order of `key`. */
  predicate Ascending<T>(s: seq<T>, key: T -> real) {
    forall i, j :: 0 <= i < j < |s| ==> key(s[i]) <= key(s[j])
  }

  /** How many leading elements of `s` have a key at most `k`. */
  function PrefixAtMost<T>(s: seq<T>, k: real, key: T -> real): (n: nat)
    ensures n <= |s|
  {
    if |s| == 0 || key(s[0]) > k then 0 else 1 + PrefixAtMost(s[1..], k, key)
  }

  /** Inserts `x` right behind the leading elements of `s` whose key is at most `key(x)`. */
  function InsertAsc<T>(s: seq<T>, x: T, key: T -> real): (r: seq<T>)
    ensures |r| == |s| + 1
    ensures multiset(r) == multiset(s) + multiset{x}
  {
    var p := PrefixAtMost(s, key(x), key);
    assert s == s[..p] + s[p..];
    s[..p] + [x] + s[p..]
  }

  lemma {:induction false} PrefixAtMostBound<T>(s: seq<T>, k: real, key: T -> real, i: int)
    requires 0 <= i < PrefixAtMost(s, k, key)
    ensures key(s[i]) <= k
  {
    if i > 0 {
      PrefixAtMostBound(s[1..], k, key, i - 1);
    }
  }

  lemma {:induction false} PrefixAtMostRest<T>(s: seq<T>, k: real, key: T -> real, i: int)
    requires Ascending(s, key)
    requires PrefixAtMost(s, k, key) <= i < |s|
    ensures k < key(s[i])
  {
    if key(s[0]) <= k {
      assert Ascending(s[1..], key);
      PrefixAtMostRest(s[1..], k, key, i - 1);
    } else if i > 0 {
      assert key(s[0]) <= key(s[i]);
    }
  }

  /** Every element of `s` is either in `t` or is `x`, when multiset(s) == multiset(t) + {x}. */
  lemma ElementOfInsert<T>(s: seq<T>, t: seq<T>, x: T, e: T)
    requires multiset(s) == multiset(t) + multiset{x}
    requires e in s
    ensures e in t || e == x
  {
    assert e in multiset(s);
  }

  lemma InsertAscSorted<T>(s: seq<T>, x: T, key: T -> real)
    requires Ascending(s, key)
    ensures Ascending(InsertAsc(s, x, key), key)
  {
    var p := PrefixAtMost(s, key(x), key);
    var r := InsertAsc(s, x, key);
    forall i, j | 0 <= i < j < |r| ensures key(r[i]) <= key(r[j]) {
      InsertedAt(s, x, key, i);
      InsertedAt(s, x, key, j);
      if i < p && j <= p {
      } else if i < p {
        assert key(s[i]) <= key(s[j - 1]);
      } else if i > p {
        assert key(s[i - 1]) <= key(s[j - 1]);
      }
    }
  }

  /** Where each element of an insertion into a sorted sequence comes from, and how its
      key compares with the inserted one. */
  lemma InsertedAt<T>(s: seq<T>, x: T, key: T -> real, i: int)
    requires Ascending(s, key)
    requires 0 <= i <= |s|
    ensures var p, r := PrefixAtMost(s, key(x), key), InsertAsc(s, x, key);
      && (i < p ==> r[i] == s[i] && key(r[i]) <= key(x))
      && (i == p ==> r[i] == x)
      && (i > p ==> r[i] == s[i - 1] && key(x) < key(r[i]))
  {
    var p := PrefixAtMost(s, key(x), key);
    if i < p {
      PrefixAtMostBound(s, key(x), key, i);
    } else if i > p {
      PrefixAtMostRest(s, key(x), key, i - 1);
    }
  }

  /** The stable ascending sort of `s` by `key`. */
  function SortAsc<T>(s: seq<T>, key: T -> real): (r: seq<T>)
    ensures |r| == |s|
  {
    if |s| == 0 then [] else InsertAsc(SortAsc(s[..|s| - 1], key), s[|s| - 1], key)
  }

  /** The sort orders by the key. */
  lemma {:induction false} SortAscSorted<T>(s: seq<T>, key: T -> real)
    ensures Ascending(SortAsc(s, key), key)
  {
    if |s| > 0 {
      SortAscSorted(s[..|s| - 1], key);
      InsertAscSorted(SortAsc(s[..|s| - 1], key), s[|s| - 1], key);
    }
  }

  /** The sort rearranges its input: the same elements, as often as before. */
  lemma {:induction false} SortAscPermutes<T>(s: seq<T>, key: T -> real)
    ensures multiset(SortAsc(s, key)) == multiset(s)
  {
    if |s| > 0 {
      SortAscPermutes(s[..|s| - 1], key);
      SplitLast(s);
    }
  }

  lemma {:induction false} PrefixAtMostAll<T>(s: seq<T>, k: real, key: T -> real)
    requires forall i :: 0 <= i < |s| ==> key(s[i]) <= k
    ensures PrefixAtMost(s, k, key) == |s|
  {
    if |s| > 0 {
      PrefixAtMostAll(s[1..], k, key);
    }
  }

  /** Inserting an element whose key is at least every key of `s` appends it. */
  lemma InsertAscAtEnd<T>(s: seq<T>, x: T, key: T -> real)
    requires forall i :: 0 <= i < |s| ==> key(s[i]) <= key(x)
    ensures InsertAsc(s, x, key) == s + [x]
  {
    PrefixAtMostAll(s, key(x), key);
    assert s[..|s|] == s;
  }

  /** Sorting a sequence that is already in key order leaves it as it is. */
  lemma {:induction false} SortAscOfSorted<T>(s: seq<T>, key: T -> real)
    requires Ascending(s, key)
    ensures SortAsc(s, key) == s
  {
    if |s| > 0 {
      AscendingInit(s, key);
      SortAscOfSorted(s[..|s| - 1], key);
      SortedLastStays(s[..|s| - 1], s[|s| - 1], key);
      SplitLast(s);
    }
  }

  lemma AscendingInit<T>(s: seq<T>, key: T -> real)
    requires Ascending(s, key) && |s| > 0
    ensures Ascending(s[..|s| - 1], key)
    ensures forall i :: 0 <= i < |s| - 1 ==> key(s[i]) <= key(s[|s| - 1])
  {
    var init := s[..|s| - 1];
    forall i, j | 0 <= i < j < |init| ensures key(init[i]) <= key(init[j]) {
      assert init[i] == s[i] && init[j] == s[j];
    }
  }

  /** An element whose key is at least every key of an already sorted `init` stays last. */
  lemma SortedLastStays<T>(init: seq<T>, x: T, key: T -> real)
    requires SortAsc(init, key) == init
    requires forall i :: 0 <= i < |init| ==> key(init[i]) <= key(x)
    ensures SortAsc(init + [x], key) == init + [x]
  {
    assert (init + [x])[..|init|] == init;
    InsertAscAtEnd(init, x, key);
  }

  lemma SplitLast<T>(s: seq<T>)
    requires |s| > 0
    ensures s == s[..|s| - 1] + [s[|s| - 1]]
  {
  }

  /** Appending one element to a sorted sequence and sorting again is a single insertion. */
  lemma SortAfterAppend<T>(s: seq<T>, x: T, key: T -> real)
    requires Ascending(s, key)
    ensures SortAsc(s + [x], key) == InsertAsc(s, x, key)
  {
    assert (s + [x])[..|s|] == s;
    SortAscOfSorted(s, key);
  }

  /** The elements of `s` whose key is `k`, in their order in `s`. */
  function WithKey<T>(s: seq<T>, k: real, key: T -> real): (r: seq<T>)
    ensures |r| <= |s|
  {
    if |s| == 0 then [] else WithKey(s[..|s| - 1], k, key) + (if key(s[|s| - 1]) == k then [s[|s| - 1]] else [])
  }

  lemma {:induction false} WithKeyAppend<T>(a: seq<T>, b: seq<T>, k: real, key: T -> real)
    ensures WithKey(a + b, k, key) == WithKey(a, k, key) + WithKey(b, k, key)
  {
    if |b| == 0 {
      assert a + b == a;
    } else {
      var init := b[..|b| - 1];
      assert (a + b)[..|a + b| - 1] == a + init;
      WithKeyAppend(a, init, k, key);
    }
  }

  lemma {:induction false} WithKeyNone<T>(s: seq<T>, k: real, key: T -> real)
    requires forall i :: 0 <= i < |s| ==> key(s[i]) != k
    ensures WithKey(s, k, key) == []
  {
    if |s| > 0 {
      WithKeyNone(s[..|s| - 1], k, key);
    }
  }

  /** Inserting `x` into a sorted sequence puts it behind every element with the same key. */
  lemma {:induction false} WithKeyInsert<T>(t: seq<T>, x: T, k: real, key: T -> real)
    requires Ascending(t, key)
    ensures WithKey(InsertAsc(t, x, key), k, key) == WithKey(t, k, key) + (if key(x) == k then [x] else [])
  {
    var p := PrefixAtMost(t, key(x), key);
    InsertAscSplit(t, x, key);
    if key(x) == k {
      NoneBehindInsert(t, x, key);
    }
    WithKeyAround(t[..p], t[p..], x, k, key);
  }

  /** The insertion of `x` splits `s` at the insertion point. */
  lemma InsertAscSplit<T>(s: seq<T>, x: T, key: T -> real)
    ensures var p := PrefixAtMost(s, key(x), key);
      s == s[..p] + s[p..] && InsertAsc(s, x, key) == s[..p] + ([x] + s[p..])
  {
  }

  /** In a sorted sequence, no element behind the insertion point of `x` has the key of `x`. */
  lemma {:induction false} NoneBehindInsert<T>(t: seq<T>, x: T, key: T -> real)
    requires Ascending(t, key)
    ensures WithKey(t[PrefixAtMost(t, key(x), key)..], key(x), key) == []
  {
    var p := PrefixAtMost(t, key(x), key);
    var back := t[p..];
    forall i | 0 <= i < |back| ensures key(back[i]) != key(x) {
      PrefixAtMostRest(t, key(x), key, p + i);
    }
    WithKeyNone(back, key(x), key);
  }

  /** Putting `x` between `front` and `back` adds it to the elements with its key, right
      behind those of `front`, when no element of `back` shares its key. */
  lemma {:induction false} WithKeyAround<T>(front: seq<T>, back: seq<T>, x: T, k: real, key: T -> real)
    requires key(x) == k ==> WithKey(back, k, key) == []
    ensures WithKey(front + ([x] + back), k, key) == WithKey(front + back, k, key) + (if key(x) == k then [x] else [])
  {
    WithKeyAppend(front, [x] + back, k, key);
    WithKeyAppend([x], back, k, key);
    WithKeyAppend(front, back, k, key);
    var f, b := WithKey(front, k, key), WithKey(back, k, key);
    assert WithKey([x], k, key) == (if key(x) == k then [x] else []) by {
      assert [x][..0] == [];
    }
    if key(x) == k {
      assert f + ([x] + b) == f + [x];
      assert f + b == f;
    } else {
      assert f + ([] + b) == f + b;
    }
  }

  /** The sort is stable: the elements with any one key keep their relative order. */
  lemma {:induction false} SortAscStable<T>(s: seq<T>, k: real, key: T -> real)
    ensures WithKey(SortAsc(s, key), k, key) == WithKey(s, k, key)
  {
    if |s| > 0 {
      var init := s[..|s| - 1];
      SortAscStable(init, k, key);
      SortAscSorted(init, key);
      WithKeyInsert(SortAsc(init, key), s[|s| - 1], k, key);
    }
  }

  lemma SortedElement<T>(s: seq<T>, key: T -> real, e: T)
    ensures e in SortAsc(s, key) <==> e in s
  {
    var r := SortAsc(s, key);
    SortAscPermutes(s, key);
    assert e in r <==> e in multiset(r);
    assert e in s <==> e in multiset(s);
  }
}
