/** `Array.prototype.sort` with a comparator `(a, b) => key(a) - key(b)` over instants.
    The comparator is NaN, which the sort reads as "equal", whenever either instant is
    invalid. The language requires the sort to be stable; its exact order is fixed only
    when the comparator is consistent, that is, when every key is valid. The model is
    insertion from the right, which for valid keys gives that one stable order. */
module StableSort {

  import opened Types

  /** The comparator is negative: `a` must be placed before `b`. */
  predicate Precedes(a: Instant, b: Instant)
  {
    a.Valid? && b.Valid? && a.ms < b.ms
  }

  /** Inserts `x` into `s` from the right: it moves left past every element it precedes. */
  function Insert<T>(s: seq<T>, x: T, key: T -> Instant): (r: seq<T>)
    ensures |r| == |s| + 1
  {
    if s == [] || !Precedes(key(x), key(s[|s| - 1])) then s + [x]
    else Insert(s[..|s| - 1], x, key) + [s[|s| - 1]]
  }

  function SortBy<T>(s: seq<T>, key: T -> Instant): (r: seq<T>)
    ensures |r| == |s|
  {
    if s == [] then [] else Insert(SortBy(s[..|s| - 1], key), s[|s| - 1], key)
  }

  predicate AllValid<T>(s: seq<T>, key: T -> Instant)
  {
    forall i | 0 <= i < |s| :: key(s[i]).Valid?
  }

  /** Non-decreasing keys. */
  predicate Sorted<T>(s: seq<T>, key: T -> Instant)
    requires AllValid(s, key)
  {
    forall i, j | 0 <= i < j < |s| :: key(s[i]).ms <= key(s[j]).ms
  }

  /** The elements whose key is `k`, in their order. */
  function WithKey<T>(s: seq<T>, key: T -> Instant, k: Instant): seq<T>
  {
    if s == [] then []
    else WithKey(s[..|s| - 1], key, k) + (if key(s[|s| - 1]) == k then [s[|s| - 1]] else [])
  }

  lemma {:induction false} InsertPermutes<T>(s: seq<T>, x: T, key: T -> Instant)
    ensures multiset(Insert(s, x, key)) == multiset(s) + multiset{x}
  {
    if s != [] && Precedes(key(x), key(s[|s| - 1])) {
      InsertPermutes(s[..|s| - 1], x, key);
      assert s == s[..|s| - 1] + [s[|s| - 1]];
    }
  }

  /** Sorting only reorders. */
  lemma {:induction false} SortPermutes<T>(s: seq<T>, key: T -> Instant)
    ensures multiset(SortBy(s, key)) == multiset(s)
  {
    if s != [] {
      SortPermutes(s[..|s| - 1], key);
      InsertPermutes(SortBy(s[..|s| - 1], key), s[|s| - 1], key);
      assert s == s[..|s| - 1] + [s[|s| - 1]];
    }
  }

  lemma InsertKeepsValid<T>(s: seq<T>, x: T, key: T -> Instant)
    requires AllValid(s, key) && key(x).Valid?
    ensures AllValid(Insert(s, x, key), key)
  {
    forall i | 0 <= i < |s| + 1 ensures key(Insert(s, x, key)[i]).Valid? {
      InsertMembers(s, x, key, i);
    }
  }

  lemma {:induction false} InsertKeepsSorted<T>(s: seq<T>, x: T, key: T -> Instant)
    requires AllValid(s, key) && key(x).Valid? && Sorted(s, key)
    ensures AllValid(Insert(s, x, key), key) && Sorted(Insert(s, x, key), key)
  {
    var r := Insert(s, x, key);
    InsertKeepsValid(s, x, key);
    if s == [] || !Precedes(key(x), key(s[|s| - 1])) {
      assert r == s + [x];
      forall i, j | 0 <= i < j < |r| ensures key(r[i]).ms <= key(r[j]).ms {
        assert r[i] == s[i];
        if j == |s| {
          assert r[j] == x;
          assert key(s[i]).ms <= key(s[|s| - 1]).ms;
        } else {
          assert r[j] == s[j];
        }
      }
    } else {
      var init, last := s[..|s| - 1], s[|s| - 1];
      assert AllValid(init, key) && Sorted(init, key) by {
        assert forall i | 0 <= i < |init| :: init[i] == s[i];
      }
      InsertKeepsSorted(init, x, key);
      var r0 := Insert(init, x, key);
      assert r == r0 + [last];
      forall i | 0 <= i < |r0| ensures key(r0[i]).ms <= key(last).ms {
        InsertMembers(init, x, key, i);
        if i > 0 { assert init[i - 1] == s[i - 1]; }
        if i < |init| { assert init[i] == s[i]; }
      }
      forall i, j | 0 <= i < j < |r| ensures key(r[i]).ms <= key(r[j]).ms {
        assert r[i] == r0[i];
        if j < |r0| { assert r[j] == r0[j]; }
      }
    }
  }

  lemma {:induction false} InsertMembers<T>(s: seq<T>, x: T, key: T -> Instant, i: nat)
    requires i < |s| + 1
    ensures Insert(s, x, key)[i] == x || (i > 0 && Insert(s, x, key)[i] == s[i - 1]) || (i < |s| && Insert(s, x, key)[i] == s[i])
  {
    if s != [] && Precedes(key(x), key(s[|s| - 1])) && i < |s| {
      InsertMembers(s[..|s| - 1], x, key, i);
    }
  }

  /** With valid keys the result is sorted. */
  lemma {:induction false} SortSorts<T>(s: seq<T>, key: T -> Instant)
    requires AllValid(s, key)
    ensures AllValid(SortBy(s, key), key) && Sorted(SortBy(s, key), key)
  {
    if s != [] {
      SortSorts(s[..|s| - 1], key);
      InsertKeepsSorted(SortBy(s[..|s| - 1], key), s[|s| - 1], key);
    }
  }

  lemma {:induction false} WithKeyAppend<T>(s: seq<T>, t: seq<T>, key: T -> Instant, k: Instant)
    ensures WithKey(s + t, key, k) == WithKey(s, key, k) + WithKey(t, key, k)
    decreases |t|
  {
    if t != [] {
      WithKeyAppend(s, t[..|t| - 1], key, k);
      assert (s + t)[..|s + t| - 1] == s + t[..|t| - 1];
    } else {
      assert s + t == s;
    }
  }

  lemma {:induction false} InsertStable<T>(s: seq<T>, x: T, key: T -> Instant, k: Instant)
    ensures WithKey(Insert(s, x, key), key, k) == WithKey(s, key, k) + (if key(x) == k then [x] else [])
  {
    var xs := if key(x) == k then [x] else [];
    if s == [] || !Precedes(key(x), key(s[|s| - 1])) {
      WithKeyAppend(s, [x], key, k);
      assert WithKey([x], key, k) == xs by { assert [x][..0] == []; }
    } else {
      var init, last := s[..|s| - 1], s[|s| - 1];
      InsertStable(init, x, key, k);
      var r := Insert(init, x, key);
      assert Insert(s, x, key) == r + [last];
      var ls := if key(last) == k then [last] else [];
      assert (r + [last])[..|r|] == r;
      assert WithKey(r + [last], key, k) == WithKey(r, key, k) + ls;
      assert s[..|s| - 1] == init;
      assert WithKey(s, key, k) == WithKey(init, key, k) + ls;
      // x precedes last, so at most one of them has the key k
      assert xs == [] || ls == [];
      assert xs + ls == ls + xs;
      assert WithKey(init, key, k) + xs + ls == WithKey(init, key, k) + ls + xs;
    }
  }

  /** Sorting is stable: the elements with any one key keep their relative order. */
  lemma {:induction false} SortStable<T>(s: seq<T>, key: T -> Instant, k: Instant)
    ensures WithKey(SortBy(s, key), key, k) == WithKey(s, key, k)
  {
    if s != [] {
      SortStable(s[..|s| - 1], key, k);
      InsertStable(SortBy(s[..|s| - 1], key), s[|s| - 1], key, k);
    }
  }

  /** The sort in place on the array, by insertion with adjacent swaps. */
  method SortInPlace<T>(a: array<T>, key: T -> Instant)
    modifies a
    ensures a[..] == SortBy(old(a[..]), key)
  {
    var i := 0;
    while i < a.Length
      invariant 0 <= i <= a.Length
      invariant a[..i] == SortBy(old(a[..])[..i], key)
      invariant a[i..] == old(a[..])[i..]
    {
      ghost var before := a[..];
      InsertLast(a, i, key);
      assert old(a[..])[..i + 1][..i] == old(a[..])[..i];
      assert before[i] == old(a[..])[i];
      assert a[i + 1..] == before[i + 1..];
      i := i + 1;
    }
    assert a[..] == a[..a.Length];
    assert old(a[..]) == old(a[..])[..a.Length];
  }

  /** One insertion step: moves `a[i]` left into the already sorted `a[..i]`. */
  method InsertLast<T>(a: array<T>, i: nat, key: T -> Instant)
    requires i < a.Length
    modifies a
    ensures a[..i + 1] == Insert(old(a[..i]), old(a[i]), key)
    ensures a[i + 1..] == old(a[i + 1..])
  {
    ghost var done := a[..i];
    var x := a[i];
    var j := i;
    while j > 0 && Precedes(key(x), key(a[j - 1]))
      invariant 0 <= j <= i
      invariant forall k | 0 <= k < j :: a[k] == done[k]
      invariant a[j] == x
      invariant forall k | j < k <= i :: a[k] == done[k - 1]
      invariant forall k | j <= k < i :: Precedes(key(x), key(done[k]))
      invariant forall k | i < k < a.Length :: a[k] == old(a[k])
    {
      a[j - 1], a[j] := a[j], a[j - 1];
      j := j - 1;
    }
    InsertPosition(done, x, key, j);
    assert a[..i + 1] == done[..j] + [x] + done[j..];
  }

  /** Where an insertion puts `x`: after the elements it does not precede, before the
      ones it does. */
  lemma {:induction false} InsertPosition<T>(s: seq<T>, x: T, key: T -> Instant, j: nat)
    requires j <= |s|
    requires j == 0 || !Precedes(key(x), key(s[j - 1]))
    requires forall k | j <= k < |s| :: Precedes(key(x), key(s[k]))
    ensures Insert(s, x, key) == s[..j] + [x] + s[j..]
    decreases |s|
  {
    if j < |s| {
      var init := s[..|s| - 1];
      InsertPosition(init, x, key, j);
      assert init[..j] == s[..j] && init[j..] + [s[|s| - 1]] == s[j..];
    } else {
      assert s[..j] == s;
    }
  }
}
