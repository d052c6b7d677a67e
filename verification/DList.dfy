/** The growing list of dlib: sorting in place, sorted insertion and sorted search. */
module DList {
  import opened Common

  // ----- Orders and rearrangements -----

  /** What a compare function must be: its sign reverses with its arguments, and it is transitive. */
  ghost predicate Ordering<T(!new)>(compare: (T, T) -> int) {
    && (forall x, y :: compare(x, y) < 0 <==> compare(y, x) > 0)
    && (forall x, y, z :: compare(x, y) <= 0 && compare(y, z) <= 0 ==> compare(x, z) <= 0)
  }

  ghost predicate SortedIn<T>(s: seq<T>, lo: int, hi: int, compare: (T, T) -> int)
    requires 0 <= lo <= hi <= |s|
  {
    forall i, j :: lo <= i < j < hi ==> compare(s[i], s[j]) <= 0
  }

  ghost predicate AtMost<T>(s: seq<T>, lo: int, hi: int, v: T, compare: (T, T) -> int)
    requires 0 <= lo <= |s| && hi <= |s|
  {
    forall k :: lo <= k < hi ==> compare(s[k], v) <= 0
  }

  ghost predicate AtLeast<T>(s: seq<T>, lo: int, hi: int, v: T, compare: (T, T) -> int)
    requires 0 <= lo && hi <= |s|
  {
    forall k :: lo <= k < hi ==> compare(v, s[k]) <= 0
  }

  /** s' is s with the elements from lo up to hi in another order. */
  ghost predicate Rearranged<T>(s: seq<T>, s': seq<T>, lo: int, hi: int) {
    && 0 <= lo <= hi <= |s| == |s'| && s[..lo] == s'[..lo] && s[hi..] == s'[hi..]
    && multiset(s[lo..hi]) == multiset(s'[lo..hi])
  }

  lemma RearrangedTwice<T>(a: seq<T>, b: seq<T>, c: seq<T>, lo: int, hi: int)
    requires Rearranged(a, b, lo, hi) && Rearranged(b, c, lo, hi)
    ensures Rearranged(a, c, lo, hi)
  {
  }

  lemma Widen<T>(s: seq<T>, s': seq<T>, l: int, h: int, lo: int, hi: int)
    requires Rearranged(s, s', l, h) && 0 <= lo <= l && h <= hi <= |s|
    ensures Rearranged(s, s', lo, hi)
  {
    assert s[..lo] == s[..l][..lo] && s'[..lo] == s'[..l][..lo];
    assert s[hi..] == s[h..][hi - h..] && s'[hi..] == s'[h..][hi - h..];
    assert s[lo..l] == s[..l][lo..] && s'[lo..l] == s'[..l][lo..];
    assert s[h..hi] == s[h..][..hi - h] && s'[h..hi] == s'[h..][..hi - h];
    assert s[lo..hi] == s[lo..l] + s[l..h] + s[h..hi];
    assert s'[lo..hi] == s'[lo..l] + s'[l..h] + s'[h..hi];
  }

  lemma Swapped<T>(s: seq<T>, s': seq<T>, i: int, j: int)
    requires 0 <= i < j < |s| == |s'| && s' == s[i := s[j]][j := s[i]]
    ensures Rearranged(s, s', i, j + 1)
  {
    assert s[i..j + 1] == [s[i]] + s[i + 1..j] + [s[j]];
    assert s'[i..j + 1] == [s[j]] + s[i + 1..j] + [s[i]];
  }

  // Each element of the rearranged stretch was there before.
  lemma StillThere<T>(s: seq<T>, s': seq<T>, lo: int, hi: int, k: int) returns (m: int)
    requires Rearranged(s, s', lo, hi) && lo <= k < hi
    ensures lo <= m < hi && s'[k] == s[m]
  {
    assert s'[lo..hi][k - lo] == s'[k];
    assert s'[k] in multiset(s'[lo..hi]);
    assert s'[k] in s[lo..hi];
    var i :| 0 <= i < hi - lo && s[lo..hi][i] == s'[k];
    m := lo + i;
  }

  lemma StaysAtMost<T>(s: seq<T>, s': seq<T>, lo: int, hi: int, v: T, compare: (T, T) -> int)
    requires Rearranged(s, s', lo, hi) && AtMost(s, lo, hi, v, compare)
    ensures AtMost(s', lo, hi, v, compare)
  {
    forall k | lo <= k < hi ensures compare(s'[k], v) <= 0 {
      var _ := StillThere(s, s', lo, hi, k);
    }
  }

  lemma StaysAtLeast<T>(s: seq<T>, s': seq<T>, lo: int, hi: int, v: T, compare: (T, T) -> int)
    requires Rearranged(s, s', lo, hi) && AtLeast(s, lo, hi, v, compare)
    ensures AtLeast(s', lo, hi, v, compare)
  {
    forall k | lo <= k < hi ensures compare(v, s'[k]) <= 0 {
      var _ := StillThere(s, s', lo, hi, k);
    }
  }

  // ----- QuickSort -----

  // The state of the partition: p and q close in on each other, t is where the pivot v has moved.
  ghost predicate Partitioning<T>(s: seq<T>, left: int, right: int, p: int, q: int, t: int, v: T,
                                        compare: (T, T) -> int)
  {
    && 0 <= left <= right < |s| && left <= t <= right && s[t] == v
    && left <= p <= right + 1 && left - 1 <= q <= right && p <= q + 2
    && AtMost(s, left, p, v, compare) && AtLeast(s, q + 1, right + 1, v, compare)
    && ((p == left == t <= q) || (left < p && q < right && q < t))
  }

  // Elements below the pivot are passed from the left, but not beyond q.
  lemma PassLow<T(!new)>(s: seq<T>, left: int, right: int, p: int, q: int, t: int, v: T, compare: (T, T) -> int)
    requires Partitioning(s, left, right, p, q, t, v, compare) && Ordering(compare)
    requires p <= q + 1 && p != t && compare(s[p], v) < 0
    ensures p <= q && Partitioning(s, left, right, p + 1, q, t, v, compare)
  {
  }

  lemma PassHigh<T(!new)>(s: seq<T>, left: int, right: int, p: int, q: int, t: int, v: T, compare: (T, T) -> int)
    requires Partitioning(s, left, right, p, q, t, v, compare) && Ordering(compare)
    requires p <= q + 1 && q != t && compare(s[q], v) > 0
    ensures p <= q && Partitioning(s, left, right, p, q - 1, t, v, compare)
  {
  }

  // At the stops the two elements change sides; the pivot may be the one on the left.
  lemma Cross<T(!new)>(s: seq<T>, s': seq<T>, left: int, right: int, p: int, q: int, t: int, v: T,
                       compare: (T, T) -> int)
    requires Partitioning(s, left, right, p, q, t, v, compare) && Ordering(compare)
    requires p <= q && (p == t || compare(s[p], v) >= 0) && (q == t || compare(s[q], v) <= 0)
    requires |s'| == |s| && s' == if p < q then s[p := s[q]][q := s[p]] else s
    ensures Partitioning(s', left, right, p + 1, q - 1, if p < q && t == p then q else t, v, compare)
    ensures q != t || p == q
  {
  }

  lemma Exchanged<T>(s: seq<T>, s': seq<T>, p: int, q: int, left: int, right: int)
    requires 0 <= left <= p < q <= right < |s| == |s'| && s' == s[p := s[q]][q := s[p]]
    ensures Rearranged(s, s', left, right + 1)
  {
    hide *;
    Swapped(s, s', p, q);
    Widen(s, s', p, q + 1, left, right + 1);
  }

  method Exchange<T>(a: array<T>, p: int, q: int)
    requires 0 <= p < q < a.Length
    modifies a
    ensures a[..] == old(a[..])[p := old(a[..])[q]][q := old(a[..])[p]]
  {
    var tmp := a[p];
    a[p] := a[q];
    a[q] := tmp;
  }

  // The two inner loops.
  method SkipLow<T(!new)>(a: array<T>, ghost left: int, ghost right: int, p: int, ghost q: int, t: int, ghost v: T,
                          compare: (T, T) -> int) returns (p': int)
    requires p <= q && Partitioning(a[..], left, right, p, q, t, v, compare) && Ordering(compare)
    ensures p <= p' <= q + 1 && Partitioning(a[..], left, right, p', q, t, v, compare)
    ensures p' == t || compare(a[..][p'], v) >= 0
  {
    hide AtMost, AtLeast, Ordering;
    p' := p;
    while p' != t && compare(a[p'], a[t]) < 0
      invariant p <= p' <= q + 1 && Partitioning(a[..], left, right, p', q, t, v, compare)
    {
      PassLow(a[..], left, right, p', q, t, v, compare);
      p' := p' + 1;
    }
  }

  method SkipHigh<T(!new)>(a: array<T>, ghost left: int, ghost right: int, ghost p: int, q: int, t: int, ghost v: T,
                           compare: (T, T) -> int) returns (q': int)
    requires p <= q + 1 && Partitioning(a[..], left, right, p, q, t, v, compare) && Ordering(compare)
    ensures p - 1 <= q' <= q && Partitioning(a[..], left, right, p, q', t, v, compare)
    ensures q' == t || compare(a[..][q'], v) <= 0
  {
    hide AtMost, AtLeast, Ordering;
    q' := q;
    while q' != t && compare(a[q'], a[t]) > 0
      invariant p - 1 <= q' <= q && Partitioning(a[..], left, right, p, q', t, v, compare)
      decreases q'
    {
      PassHigh(a[..], left, right, p, q', t, v, compare);
      q' := q' - 1;
    }
  }

  lemma Within<T>(s: seq<T>, left: int, right: int, p: int, q: int, t: int, v: T, compare: (T, T) -> int)
    requires Partitioning(s, left, right, p, q, t, v, compare) && p <= q
    ensures 0 <= left <= p && q <= right < |s| && (q == t ==> p == q)
  {
  }

  // The exchange at the stops; t follows the pivot.
  method CrossOver<T(!new)>(a: array<T>, ghost left: int, ghost right: int, p: int, q: int, t: int, ghost v: T,
                            ghost compare: (T, T) -> int, ghost start: seq<T>) returns (t': int)
    requires Rearranged(start, a[..], left, right + 1)
    requires p <= q && Partitioning(a[..], left, right, p, q, t, v, compare) && Ordering(compare)
    requires (p == t || compare(a[..][p], v) >= 0) && (q == t || compare(a[..][q], v) <= 0)
    modifies a
    ensures Partitioning(a[..], left, right, p + 1, q - 1, t', v, compare)
    ensures Rearranged(start, a[..], left, right + 1)
  {
    hide *;
    ghost var s := a[..];
    Within(s, left, right, p, q, t, v, compare);
    t' := t;
    if p < q {
      Exchange(a, p, q);
      Exchanged(s, a[..], p, q, left, right);
      RearrangedTwice(start, s, a[..], left, right + 1);
      if t == p {
        t' := q;
      } else if t == q {
        t' := p;
      }
    }
    Cross(s, a[..], left, right, p, q, t, v, compare);
  }

  lemma Begin<T>(s: seq<T>, left: int, right: int, compare: (T, T) -> int)
    requires 0 <= left <= right < |s|
    ensures Partitioning(s, left, right, left, right, left, s[left], compare) && Rearranged(s, s, left, right + 1)
  {
  }

  lemma Bounds<T>(s: seq<T>, left: int, right: int, p: int, q: int, t: int, v: T, compare: (T, T) -> int)
    requires Partitioning(s, left, right, p, q, t, v, compare) && p > q
    ensures left < p <= right + 1 && left - 1 <= q < right && right < |s|
    ensures AtMost(s, left, p, v, compare) && AtLeast(s, q + 1, right + 1, v, compare)
  {
  }

  /** The partition loop: the elements up to q are at most the pivot, those from p on at least, and
      those between equal it; both ends have moved. */
  method Partition<T(!new)>(a: array<T>, left: int, right: int, compare: (T, T) -> int)
    returns (p: int, q: int, ghost v: T)
    requires 0 <= left <= right < a.Length && Ordering(compare)
    modifies a
    ensures Rearranged(old(a[..]), a[..], left, right + 1)
    ensures left < p <= right + 1 && left - 1 <= q < right && q < p
    ensures AtMost(a[..], left, p, v, compare) && AtLeast(a[..], q + 1, right + 1, v, compare)
  {
    ghost var start := a[..];
    var t := left;
    p, q, v := left, right, a[left];
    hide *;
    Begin(a[..], left, right, compare);
    while true
      invariant p <= q && Partitioning(a[..], left, right, p, q, t, v, compare)
      invariant Rearranged(start, a[..], left, right + 1)
      decreases q - p
    {
      p := SkipLow(a, left, right, p, q, t, v, compare);
      q := SkipHigh(a, left, right, p, q, t, v, compare);
      if p > q { break; }
      t := CrossOver(a, left, right, p, q, t, v, compare, start);
      p := p + 1;
      q := q - 1;
      if p > q { break; }
    }
    Bounds(a[..], left, right, p, q, t, v, compare);
  }

  // Around the pivot v, up to q the elements are at most v and from p on at least.
  ghost predicate Divided<T>(s: seq<T>, left: int, right: int, p: int, q: int, v: T, compare: (T, T) -> int) {
    && 0 <= left < p <= right + 1 <= |s| && left - 1 <= q < p && q < right
    && AtMost(s, left, p, v, compare) && AtLeast(s, q + 1, right + 1, v, compare)
  }

  // Sorting the left part keeps the division.
  lemma LeftSorted<T>(start: seq<T>, s: seq<T>, s': seq<T>, left: int, right: int, p: int, q: int, v: T,
                      compare: (T, T) -> int)
    requires Rearranged(start, s, left, right + 1)
    requires Divided(s, left, right, p, q, v, compare) && left < q && Rearranged(s, s', left, q + 1)
    ensures Divided(s', left, right, p, q, v, compare) && Rearranged(start, s', left, right + 1)
  {
    assert forall k :: q < k < |s| ==> s'[k] == s'[q + 1..][k - q - 1] == s[q + 1..][k - q - 1];
    StaysAtMost(s, s', left, q + 1, v, compare);
    hide Rearranged;
    Widen(s, s', left, q + 1, left, right + 1);
    RearrangedTwice(start, s, s', left, right + 1);
  }

  // Sorting the right part keeps the division and the sorted left part.
  lemma RightSorted<T>(start: seq<T>, s: seq<T>, s': seq<T>, left: int, right: int, p: int, q: int, v: T,
                       compare: (T, T) -> int)
    requires Divided(s, left, right, p, q, v, compare) && p < right && Rearranged(s, s', p, right + 1)
    requires Rearranged(start, s, left, right + 1) && SortedIn(s, left, q + 1, compare)
    ensures Divided(s', left, right, p, q, v, compare) && SortedIn(s', left, q + 1, compare)
    ensures Rearranged(start, s', left, right + 1)
  {
    assert forall k :: 0 <= k < p ==> s'[k] == s'[..p][k] == s[..p][k];
    StaysAtLeast(s, s', p, right + 1, v, compare);
    hide Rearranged;
    Widen(s, s', p, right + 1, left, right + 1);
    RearrangedTwice(start, s, s', left, right + 1);
  }

  lemma Joined<T(!new)>(s: seq<T>, left: int, right: int, p: int, q: int, v: T, compare: (T, T) -> int)
    requires Divided(s, left, right, p, q, v, compare) && Ordering(compare)
    requires SortedIn(s, left, q + 1, compare) && SortedIn(s, p, right + 1, compare)
    ensures SortedIn(s, left, right + 1, compare)
  {
    forall i, j | left <= i < j < right + 1 ensures compare(s[i], s[j]) <= 0 {
      if j > q && i < p {
        assert compare(s[i], v) <= 0 && compare(v, s[j]) <= 0;
      }
    }
  }

  /** QuickSort: the stretch from left to right is sorted, a rearrangement of what it was, and
      nothing outside it is touched. */
  method QuickSort<T(!new)>(a: array<T>, left: int, right: int, compare: (T, T) -> int)
    requires 0 <= left <= right < a.Length && Ordering(compare)
    modifies a
    ensures Rearranged(old(a[..]), a[..], left, right + 1) && SortedIn(a[..], left, right + 1, compare)
    decreases right - left
  {
    hide *;
    ghost var start := a[..];
    var p, q, v := Partition(a, left, right, compare);
    Divides(a[..], left, right, p, q, v, compare);
    if left < q {
      ghost var s := a[..];
      QuickSort(a, left, q, compare);
      LeftSorted(start, s, a[..], left, right, p, q, v, compare);
    } else {
      NothingToSort(a[..], left, q + 1, compare);
    }
    if p < right {
      ghost var s := a[..];
      QuickSort(a, p, right, compare);
      RightSorted(start, s, a[..], left, right, p, q, v, compare);
    } else {
      NothingToSort(a[..], p, right + 1, compare);
    }
    Joined(a[..], left, right, p, q, v, compare);
  }

  lemma Divides<T>(s: seq<T>, left: int, right: int, p: int, q: int, v: T, compare: (T, T) -> int)
    requires 0 <= left < p <= right + 1 <= |s| && left - 1 <= q < p && q < right
    requires AtMost(s, left, p, v, compare) && AtLeast(s, q + 1, right + 1, v, compare)
    ensures Divided(s, left, right, p, q, v, compare)
  {
  }

  lemma NothingToSort<T>(s: seq<T>, lo: int, hi: int, compare: (T, T) -> int)
    requires 0 <= lo <= hi <= |s| && hi <= lo + 1
    ensures SortedIn(s, lo, hi, compare)
  {
  }

  // ----- The list -----

  function Inserted<T>(s: seq<T>, data: T, pos: nat): seq<T>
    requires pos <= |s|
  {
    s[..pos] + [data] + s[pos..]
  }

  lemma InsertedSorted<T(!new)>(s: seq<T>, data: T, pos: nat, compare: (T, T) -> int)
    requires Ordering(compare) && SortedIn(s, 0, |s|, compare) && pos <= |s|
    requires AtMost(s, 0, pos, data, compare) && AtLeast(s, pos, |s|, data, compare)
    ensures var r := Inserted(s, data, pos);
            SortedIn(r, 0, |r|, compare) && multiset(r) == multiset(s) + multiset{data}
  {
    assert s == s[..pos] + s[pos..];
  }

  // In a sorted list, what is below one element is below all after it.
  lemma BelowAll<T(!new)>(s: seq<T>, lo: int, i: int, hi: int, data: T, compare: (T, T) -> int)
    requires Ordering(compare) && SortedIn(s, 0, |s|, compare) && 0 <= lo <= i < hi <= |s|
    ensures compare(s[i], data) <= 0 && AtMost(s, 0, lo, data, compare) ==>
              AtMost(s, 0, i + 1, data, compare) && AtMost(s, 0, i, data, compare)
    ensures compare(s[i], data) >= 0 && AtLeast(s, hi, |s|, data, compare) ==> AtLeast(s, i, |s|, data, compare)
  {
  }

  lemma Nothing<T>(s: seq<T>, data: T, compare: (T, T) -> int)
    ensures AtMost(s, 0, 0, data, compare) && AtLeast(s, |s|, |s|, data, compare)
  {
  }

  // The shifting loop of the insertion.
  method ShiftIn<T>(a: array<T>, len: nat, pos0: nat, data: T)
    requires pos0 <= len < a.Length
    modifies a
    ensures a[..len + 1] == Inserted(old(a[..len]), data, pos0)
  {
    var i := len;
    while i > pos0
      invariant pos0 <= i <= len
      invariant forall k :: 0 <= k < i ==> a[k] == old(a[k])
      invariant forall k :: i < k <= len ==> a[k] == old(a[k - 1])
    {
      a[i] := a[i - 1];
      i := i - 1;
    }
    a[pos0] := data;
  }

  class Dlist<T(!new)> {
    var list: array<T>
    var len: nat

    ghost predicate Valid()
      reads this
    {
      len <= list.Length && list.Length > 0
    }

    ghost function Contents(): seq<T>
      requires Valid()
      reads this, list
    {
      list[..len]
    }

    constructor (sz: nat, fill: T)
      requires sz > 0
      ensures Valid() && fresh(list) && Contents() == []
    {
      list := new T[sz](_ => fill);
      len := 0;
    }

    // A full list is moved to a buffer of twice the size.
    method Grow(fill: T)
      requires Valid()
      modifies this`list
      ensures Valid() && len < list.Length && Contents() == old(Contents())
      ensures list == old(list) || fresh(list)
    {
      if list.Length == len {
        var was := list;
        list := new T[2 * was.Length](i requires 0 <= i < 2 * was.Length reads was =>
          if i < was.Length then was[i] else fill);
      }
    }

    /** dList_insert_pos: a position outside the list is ignored. */
    method InsertPos(data: T, pos0: int)
      requires Valid()
      modifies this, list
      ensures Valid() && (list == old(list) || fresh(list))
      ensures Contents() == if 0 <= pos0 <= old(len) then Inserted(old(Contents()), data, pos0) else old(Contents())
    {
      if pos0 < 0 || pos0 > len { return; }
      Grow(data);
      ShiftIn(list, len, pos0, data);
      len := len + 1;
    }

    /** dList_sort. */
    method Sort(compare: (T, T) -> int)
      requires Valid() && Ordering(compare)
      modifies list
      ensures SortedIn(Contents(), 0, len, compare) && multiset(Contents()) == multiset(old(Contents()))
      ensures forall k :: len <= k < list.Length ==> list[k] == old(list[k])
    {
      if len > 1 {
        ghost var was := list[..];
        QuickSort(list, 0, len - 1, compare);
        assert list[..][0..len] == list[..len] && was[0..len] == was[..len];
        assert list[..][len..] == was[len..];
        assert forall k :: len <= k < list.Length ==> list[k] == list[..][len..][k - len];
      }
    }

    /** dList_insert_sorted: a sorted list stays sorted, with one more element. */
    method InsertSorted(data: T, compare: (T, T) -> int)
      requires Valid() && Ordering(compare) && SortedIn(Contents(), 0, len, compare)
      modifies this, list
      ensures Valid() && (list == old(list) || fresh(list)) && SortedIn(Contents(), 0, len, compare)
      ensures multiset(Contents()) == multiset(old(Contents())) + multiset{data}
      ensures exists pos: nat :: pos <= old(len) && Contents() == Inserted(old(Contents()), data, pos)
    {
      ghost var s := Contents();
      var i, st, min, max := 0, 0, 0, len - 1;
      hide Ordering, AtMost, AtLeast, SortedIn, Inserted;
      Nothing(s, data, compare);
      while min <= max
        invariant 0 <= min <= max + 1 <= len && i <= len
        invariant AtMost(s, 0, min, data, compare) && AtLeast(s, max + 1, |s|, data, compare)
        invariant if st < 0 then min == i + 1 else if st > 0 then max == i - 1 else i == min == 0 && max == len - 1
        modifies {}
        decreases max - min
      {
        i := (min + max) / 2;
        st := compare(list[i], data);
        BelowAll(s, min, i, max + 1, data, compare);
        if st < 0 {
          min := i + 1;
        } else if st > 0 {
          max := i - 1;
        } else {
          break;
        }
      }
      var pos := if st >= 0 then i else i + 1;
      InsertedSorted(s, data, pos, compare);
      InsertPos(data, pos);
    }

    /** dList_find_sorted, `func` giving the comparison of an item with what is looked for: an
        element is found exactly if there is one. */
    method FindSorted(func: T -> int) returns (ret: Option<T>)
      requires Valid()
      requires forall i, j :: 0 <= i < j < len ==>
                 (func(list[i]) >= 0 ==> func(list[j]) >= 0) && (func(list[i]) > 0 ==> func(list[j]) > 0)
      ensures match ret
              case Some(x) => x in Contents() && func(x) == 0
              case None => forall x :: x in Contents() ==> func(x) != 0
    {
      ret := None;
      var min, max := 0, len - 1;
      while min <= max
        invariant 0 <= min <= max + 1 <= len
        invariant forall k :: 0 <= k < min ==> func(list[k]) < 0
        invariant forall k :: max < k < len ==> func(list[k]) > 0
        decreases max - min
      {
        var i := (min + max) / 2;
        var st := func(list[i]);
        if st < 0 {
          min := i + 1;
        } else if st > 0 {
          max := i - 1;
        } else {
          return Some(list[i]);
        }
      }
    }
  }
}
