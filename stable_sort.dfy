/**
 * `Array.prototype.sort` with a comparator of the form `(a, b) => key(a) - key(b)`:
 * a stable sort by a numeric key, done here as an insertion sort in place.
 */
module StableSort {
  import opened Seqs

  /** Keys never decrease along `s`. */
  ghost predicate ByKey<T>(s: seq<T>, key: T -> real)
  {
    forall j, k :: 0 <= j < k < |s| ==> key(s[j]) <= key(s[k])
  }

  /**
   * Inserts `x` into `s` after every element whose key is not above that of
   * `x`: walking in from the right, it passes only strictly larger keys.
   */
  function Insert<T>(s: seq<T>, x: T, key: T -> real): (r: seq<T>)
    ensures |r| == |s| + 1
    ensures x in r
    decreases |s|
  {
    if s == [] || key(s[|s| - 1]) <= key(x) then s + [x]
    else Insert(s[..|s| - 1], x, key) + [s[|s| - 1]]
  }

  /** The sorted order: each element in turn inserted into the sorted prefix before it. */
  function SortedBy<T>(s: seq<T>, key: T -> real): (r: seq<T>)
    ensures |r| == |s|
    decreases |s|
  {
    if s == [] then [] else Insert(SortedBy(s[..|s| - 1], key), s[|s| - 1], key)
  }

  function KeyIs<T>(key: T -> real, v: real): T -> bool
  {
    (c: T) => key(c) == v
  }

  lemma {:induction false} InsertPermutes<T>(s: seq<T>, x: T, key: T -> real)
    ensures multiset(Insert(s, x, key)) == multiset(s) + multiset{x}
    decreases |s|
  {
    if !(s == [] || key(s[|s| - 1]) <= key(x)) {
      var init := s[..|s| - 1];
      InsertPermutes(init, x, key);
      assert s == init + [s[|s| - 1]];
    }
  }

  lemma {:induction false} InsertSorted<T>(s: seq<T>, x: T, key: T -> real)
    requires ByKey(s, key)
    ensures ByKey(Insert(s, x, key), key)
    ensures |Insert(s, x, key)| == |s| + 1
    ensures Insert(s, x, key)[|s|] == x || Insert(s, x, key)[|s|] == s[|s| - 1]
    decreases |s|
  {
    if !(s == [] || key(s[|s| - 1]) <= key(x)) {
      var init := s[..|s| - 1];
      assert ByKey(init, key);
      InsertSorted(init, x, key);
      var r := Insert(init, x, key);
      if init != [] {
        assert r[|init|] == x || r[|init|] == init[|init| - 1];
      }
    }
  }

  /** Inserting `x` appends it to the elements of its own key and leaves the other keys alone. */
  lemma {:induction false} InsertStable<T>(s: seq<T>, x: T, key: T -> real, v: real)
    ensures Filter(Insert(s, x, key), KeyIs(key, v)) == Filter(s, KeyIs(key, v)) + (if key(x) == v then [x] else [])
    decreases |s|
  {
    var p := KeyIs(key, v);
    var own := if key(x) == v then [x] else [];
    if s == [] || key(s[|s| - 1]) <= key(x) {
      FilterSnoc(s, x, p);
    } else {
      var init, last := s[..|s| - 1], s[|s| - 1];
      var other := if key(last) == v then [last] else [];
      // The key of `last` is strictly above that of `x`, so at most one of them has key `v`.
      assert own == [] || other == [];
      calc {
        Filter(Insert(s, x, key), p);
      == { assert Insert(s, x, key) == Insert(init, x, key) + [last]; }
        Filter(Insert(init, x, key) + [last], p);
      == { FilterSnoc(Insert(init, x, key), last, p); }
        Filter(Insert(init, x, key), p) + other;
      == { InsertStable(init, x, key, v); }
        Filter(init, p) + own + other;
      ==
        Filter(init, p) + other + own;
      == { FilterSnoc(init, last, p); assert s == init + [last]; }
        Filter(s, p) + own;
      }
    }
  }

  /** The sort puts the keys in non-decreasing order. */
  lemma {:induction false} SortIsOrdered<T>(s: seq<T>, key: T -> real)
    ensures ByKey(SortedBy(s, key), key)
    decreases |s|
  {
    if s != [] {
      SortIsOrdered(s[..|s| - 1], key);
      InsertSorted(SortedBy(s[..|s| - 1], key), s[|s| - 1], key);
    }
  }

  /** The sort is a permutation: the same elements, as often each, hence the same length. */
  lemma {:induction false} SortIsPermutation<T>(s: seq<T>, key: T -> real)
    ensures multiset(SortedBy(s, key)) == multiset(s)
    ensures |SortedBy(s, key)| == |s|
    decreases |s|
  {
    if s != [] {
      var init := s[..|s| - 1];
      SortIsPermutation(init, key);
      InsertPermutes(SortedBy(init, key), s[|s| - 1], key);
      assert s == init + [s[|s| - 1]];
      assert |multiset(SortedBy(s, key))| == |multiset(s)|;
    }
  }

  /** The sort is stable: elements with equal keys keep their input order. */
  lemma {:induction false} SortIsStable<T>(s: seq<T>, key: T -> real, v: real)
    ensures Filter(SortedBy(s, key), KeyIs(key, v)) == Filter(s, KeyIs(key, v))
    decreases |s|
  {
    if s != [] {
      var init, last := s[..|s| - 1], s[|s| - 1];
      var p := KeyIs(key, v);
      var sorted := SortedBy(init, key);
      calc {
        Filter(SortedBy(s, key), p);
        Filter(Insert(sorted, last, key), p);
      == { InsertStable(sorted, last, key, v); }
        Filter(sorted, p) + (if key(last) == v then [last] else []);
      == { SortIsStable(init, key, v); }
        Filter(init, p) + (if key(last) == v then [last] else []);
      == { FilterSnoc(init, last, p); assert s == init + [last]; }
        Filter(s, p);
      }
    }
  }

  /**
   * Insertion lands just after the last element whose key is not above that
   * of `x`: everything from position `j` on is larger and moves right.
   */
  lemma {:induction false} InsertSplit<T>(s: seq<T>, x: T, key: T -> real, j: nat)
    requires j <= |s|
    requires j == 0 || key(s[j - 1]) <= key(x)
    requires forall k :: j <= k < |s| ==> key(s[k]) > key(x)
    ensures Insert(s, x, key) == s[..j] + [x] + s[j..]
    decreases |s|
  {
    if j < |s| {
      var init := s[..|s| - 1];
      InsertSplit(init, x, key, j);
      assert init[..j] == s[..j];
      assert s[j..] == init[j..] + [s[|s| - 1]];
    } else {
      assert s[..j] == s;
    }
  }

  /** A sequence that agrees with `s` before `j`, holds `x` at `j` and `s` shifted right after it. */
  lemma Shifted<T>(b: seq<T>, s: seq<T>, x: T, j: nat)
    requires |b| == |s| + 1 && j <= |s|
    requires forall k :: 0 <= k < j ==> b[k] == s[k]
    requires b[j] == x
    requires forall k :: j < k < |b| ==> b[k] == s[k - 1]
    ensures b == s[..j] + [x] + s[j..]
  {
  }

  /**
   * One step of the insertion sort: shift the elements before position `i`
   * whose key exceeds that of `a[i]` one place right, and drop `a[i]` into
   * the gap.
   */
  method InsertAt<T>(a: array<T>, i: nat, key: T -> real)
    requires i < a.Length
    modifies a
    ensures a[..i + 1] == Insert(old(a[..i]), old(a[i]), key)
    ensures a[i + 1..] == old(a[i + 1..])
  {
    ghost var sorted := a[..i];
    var x := a[i];
    var j := i;
    while j > 0 && key(a[j - 1]) > key(x)
      invariant 0 <= j <= i
      invariant forall k :: 0 <= k < j ==> a[k] == sorted[k]
      invariant forall k :: j < k <= i ==> a[k] == sorted[k - 1]
      invariant forall k :: i < k < a.Length ==> a[k] == old(a[k])
      invariant forall k :: j <= k < i ==> key(sorted[k]) > key(x)
    {
      a[j] := a[j - 1];
      j := j - 1;
    }
    a[j] := x;
    InsertSplit(sorted, x, key, j);
    Shifted(a[..i + 1], sorted, x, j);
  }

  /** `a.sort((p, q) => key(p) - key(q))`, in place. */
  method SortByKey<T>(a: array<T>, key: T -> real)
    modifies a
    ensures a[..] == SortedBy(old(a[..]), key)
  {
    ghost var input := a[..];
    var i := 0;
    while i < a.Length
      invariant 0 <= i <= a.Length
      invariant a[..i] == SortedBy(input[..i], key)
      invariant a[i..] == input[i..]
    {
      assert a[i] == input[i] && a[i + 1..] == input[i + 1..] by {
        assert a[i..][0] == a[i];
        assert a[i + 1..] == a[i..][1..] && input[i + 1..] == input[i..][1..];
      }
      InsertAt(a, i, key);
      assert SortedBy(input[..i + 1], key) == Insert(SortedBy(input[..i], key), input[i], key) by {
        assert input[..i + 1][..i] == input[..i];
      }
      i := i + 1;
    }
    assert input[..a.Length] == input;
  }
}
