/** mdb_midl_sort: quicksort with an explicit stack, insertion sort for small segments. */
module IdSort {
  import opened IdList

  const SMALL: int := 8

  /** sizeof(int) * CHAR_BIT * 2 */
  const STACK_SIZE: int := 64

  /** Every id before position c is at least every id from c to the end of the list at n. */
  ghost predicate Cut(s: seq<ID>, n: int, c: int)
    requires n < |s|
  {
    forall p, q :: 1 <= p < c <= q <= n ==> s[p] >= s[q]
  }

  ghost predicate SameOutside(s: seq<ID>, s': seq<ID>, l: int, r: int) {
    |s| == |s'| && forall k :: 0 <= k < |s| && (k < l || r < k) ==> s[k] == s'[k]
  }

  /** s' is s with the segment l..r permuted. */
  ghost predicate Permutes(s: seq<ID>, s': seq<ID>, l: int, r: int)
    requires 0 <= l <= r + 1 <= |s|
  {
    && SameOutside(s, s', l, r)
    && multiset(s'[l..r + 1]) == multiset(s[l..r + 1])
  }

  lemma InPermuted(s: seq<ID>, s': seq<ID>, l: int, r: int, k: int)
    requires 0 <= l <= k <= r < |s| && Permutes(s, s', l, r)
    ensures exists j :: l <= j <= r && s[j] == s'[k]
  {
    assert s'[k] == s'[l..r + 1][k - l];
    assert s'[k] in multiset(s'[l..r + 1]);
    assert s'[k] in s[l..r + 1];
  }

  /** Permuting a segment moves nothing across a cut outside of it. */
  lemma PermutingKeepsCut(s: seq<ID>, s': seq<ID>, n: int, l: int, r: int, c: int)
    requires 1 <= l <= r + 1 <= n + 1 <= |s| && Permutes(s, s', l, r)
    requires Cut(s, n, c) && (c <= l || r < c)
    ensures Cut(s', n, c)
  {
    forall p, q | 1 <= p < c <= q <= n
      ensures s'[p] >= s'[q]
    {
      var p0, q0 := p, q;
      if l <= p <= r {
        InPermuted(s, s', l, r, p);
        p0 :| l <= p0 <= r && s[p0] == s'[p];
      }
      if l <= q <= r {
        InPermuted(s, s', l, r, q);
        q0 :| l <= q0 <= r && s[q0] == s'[q];
      }
      assert s[p0] >= s[q0];
    }
  }

  lemma PermutesSwap(s: seq<ID>, s': seq<ID>, l: int, r: int, i: int, j: int)
    requires 0 <= l <= i <= r < |s| && l <= j <= r
    requires s' == s[i := s[j]][j := s[i]]
    ensures Permutes(s, s', l, r)
  {
    var t, t' := s[l..r + 1], s'[l..r + 1];
    assert t' == t[i - l := t[j - l]][j - l := t[i - l]];
  }

  lemma PermutesTrans(s: seq<ID>, t: seq<ID>, u: seq<ID>, l: int, r: int)
    requires 0 <= l <= r + 1 <= |s| && Permutes(s, t, l, r) && Permutes(t, u, l, r)
    ensures Permutes(s, u, l, r)
  {
  }

  /** A permutation of part of a segment is one of the segment. */
  lemma PermutesWiden(s: seq<ID>, t: seq<ID>, l: int, r: int, lo: int, hi: int)
    requires 0 <= lo <= l <= r + 1 <= hi + 1 <= |s| && Permutes(s, t, l, r)
    ensures Permutes(s, t, lo, hi)
  {
    assert s[lo..hi + 1] == s[lo..l] + s[l..r + 1] + s[r + 1..hi + 1];
    assert t[lo..hi + 1] == t[lo..l] + t[l..r + 1] + t[r + 1..hi + 1];
    assert s[lo..l] == t[lo..l] && s[r + 1..hi + 1] == t[r + 1..hi + 1];
  }

  /** MIDL_SWAP inside the segment l..r, which already is a permutation of that of s0. */
  method Swap(ids: array<ID>, i: int, j: int, ghost s0: seq<ID>, ghost l: int, ghost r: int)
    requires 0 <= l <= i <= r < ids.Length && l <= j <= r
    requires |s0| == ids.Length && Permutes(s0, ids[..], l, r)
    modifies ids
    ensures ids[i] == old(ids[j]) && ids[j] == old(ids[i])
    ensures forall k :: 0 <= k < ids.Length && k != i && k != j ==> ids[k] == old(ids[k])
    ensures Permutes(s0, ids[..], l, r)
  {
    ghost var s := ids[..];
    ids[i], ids[j] := ids[j], ids[i];
    assert ids[..] == s[i := s[j]][j := s[i]];
    PermutesSwap(s, ids[..], l, r, i, j);
    PermutesTrans(s0, s, ids[..], l, r);
  }

  /** Everything before the segment is at least everything in it. */
  ghost predicate Capped(s: seq<ID>, l: int, r: int)
    requires 0 <= l <= r + 1 <= |s|
  {
    forall p, q :: 1 <= p < l <= q <= r ==> s[p] >= s[q]
  }

  ghost predicate SortedIn(s: seq<ID>, l: int, r: int)
    requires 0 <= l && r < |s|
  {
    forall p, q :: l <= p < q <= r ==> s[p] >= s[q]
  }

  lemma PermutingKeepsCapped(s: seq<ID>, s': seq<ID>, l: int, r: int)
    requires 1 <= l <= r + 1 <= |s| && Permutes(s, s', l, r) && Capped(s, l, r)
    ensures Capped(s', l, r)
  {
    forall p, q | 1 <= p < l <= q <= r
      ensures s'[p] >= s'[q]
    {
      InPermuted(s, s', l, r, q);
    }
  }

  /** t is s with s[i+1..j] moved up one slot; slot i+1 keeps a stale copy. */
  ghost predicate Shifted(s: seq<ID>, t: seq<ID>, i: int, j: int)
    requires -1 <= i < j < |s|
  {
    && |t| == |s|
    && (forall k :: 0 <= k < |t| && (k <= i + 1 || j < k) ==> t[k] == s[k])
    && (forall k :: i + 1 < k <= j ==> t[k] == s[k - 1])
  }

  lemma RotatedSegment(s: seq<ID>, t: seq<ID>, u: seq<ID>, l: int, i: int, j: int)
    requires 1 <= l <= i + 1 <= j < |s|
    requires Shifted(s, t, i, j) && u == t[i + 1 := s[j]]
    ensures u[l..j + 1] == s[l..i + 1] + [s[j]] + s[i + 1..j]
  {
    var v, w := u[l..j + 1], s[l..i + 1] + [s[j]] + s[i + 1..j];
    forall k | 0 <= k < |v|
      ensures v[k] == w[k]
    {
      if l + k > i + 1 {
        assert u[l + k] == t[l + k] == s[l + k - 1];
      }
    }
  }

  lemma InsertedPermutes(s: seq<ID>, t: seq<ID>, u: seq<ID>, l: int, i: int, j: int)
    requires 1 <= l <= i + 1 <= j < |s|
    requires Shifted(s, t, i, j) && u == t[i + 1 := s[j]]
    ensures Permutes(s, u, l, j)
  {
    RotatedSegment(s, t, u, l, i, j);
    var low, high := s[l..i + 1], s[i + 1..j];
    assert s[l..j + 1] == low + high + [s[j]];
    assert multiset(low + high + [s[j]]) == multiset(low + [s[j]] + high);
  }

  /** Putting s[j] into the stale slot sorts s[l..j], if i+1 is its place. */
  lemma InsertedSorts(s: seq<ID>, t: seq<ID>, u: seq<ID>, l: int, i: int, j: int)
    requires 1 <= l <= i + 1 <= j < |s|
    requires Shifted(s, t, i, j) && u == t[i + 1 := s[j]]
    requires SortedIn(s, l, j - 1)
    requires (l <= i ==> s[i] >= s[j]) && (forall k :: i < k < j ==> s[k] < s[j])
    ensures SortedIn(u, l, j)
  {
    forall p, q | l <= p < q <= j
      ensures u[p] >= u[q]
    {
      var p0 := if p <= i then p else if p == i + 1 then j else p - 1;
      var q0 := if q <= i then q else if q == i + 1 then j else q - 1;
      assert u[p] == s[p0] && u[q] == s[q0];
      assert p < i ==> s[p] >= s[i];
    }
  }

  /**
   Moves the ids of the sorted ids[l..j-1] that are less than ids[j] up one slot. The loop is
   bounded by 1, not by l: it never runs into the segments to the left, because all their ids
   are at least as large.
   */
  method MakeRoom(ids: array<ID>, ghost l: int, j: int) returns (i: int)
    requires 1 <= l < j < ids.Length
    requires Capped(ids[..], l, j) && SortedIn(ids[..], l, j - 1)
    modifies ids
    ensures l - 1 <= i < j
    ensures Shifted(old(ids[..]), ids[..], i, j)
    ensures forall k :: i < k < j ==> old(ids[k]) < old(ids[j])
    ensures l <= i ==> old(ids[i]) >= old(ids[j])
  {
    ghost var s := ids[..];
    var a := ids[j];
    i := j - 1;
    while i >= 1 && ids[i] < a
      invariant l - 1 <= i <= j - 1
      invariant forall k :: 0 <= k < ids.Length && (k <= i + 1 || j < k) ==> ids[k] == s[k]
      invariant forall k :: i + 1 < k <= j ==> ids[k] == s[k - 1]
      invariant forall k :: i < k < j ==> s[k] < a
    {
      ids[i + 1] := ids[i];
      i := i - 1;
    }
  }

  method Insert(ids: array<ID>, ghost l: int, j: int)
    requires 1 <= l < j < ids.Length
    requires Capped(ids[..], l, j) && SortedIn(ids[..], l, j - 1)
    modifies ids
    ensures Permutes(old(ids[..]), ids[..], l, j)
    ensures SortedIn(ids[..], l, j)
  {
    ghost var s := ids[..];
    var a := ids[j];
    var i := MakeRoom(ids, l, j);
    ghost var t := ids[..];
    ids[i + 1] := a;
    InsertedPermutes(s, t, ids[..], l, i, j);
    InsertedSorts(s, t, ids[..], l, i, j);
  }

  method InsertionSort(ids: array<ID>, l: int, r: int)
    requires 1 <= l <= r + 1 <= ids.Length
    requires Capped(ids[..], l, r)
    modifies ids
    ensures Permutes(old(ids[..]), ids[..], l, r)
    ensures SortedIn(ids[..], l, r)
  {
    var j := l + 1;
    while j <= r
      invariant l < j
      invariant Permutes(old(ids[..]), ids[..], l, r) && Capped(ids[..], l, r)
      invariant SortedIn(ids[..], l, if j <= r then j - 1 else r)
    {
      ghost var s := ids[..];
      Insert(ids, l, j);
      PermutesWiden(s, ids[..], l, j, l, r);
      PermutesTrans(old(ids[..]), s, ids[..], l, r);
      PermutingKeepsCapped(s, ids[..], l, r);
      j := j + 1;
    }
  }

  // ---------------------------------------------------------------- partition

  /** Orders left, center and right so that the two scans of Partition need no bound checks. */
  method MedianOfThree(ids: array<ID>, l: int, r: int)
    requires 1 <= l && l + SMALL <= r < ids.Length
    modifies ids
    ensures Permutes(old(ids[..]), ids[..], l, r)
    ensures ids[l] >= ids[l + 1] >= ids[r]
  {
    var k := (l + r) / 2;
    ghost var s0 := ids[..];
    Swap(ids, k, l + 1, s0, l, r);
    if ids[l] < ids[r] {
      Swap(ids, l, r, s0, l, r);
    }
    if ids[l + 1] < ids[r] {
      Swap(ids, l + 1, r, s0, l, r);
    }
    if ids[l] < ids[l + 1] {
      Swap(ids, l, l + 1, s0, l, r);
    }
  }

  /** Ids before j are at least the pivot, those from j to i equal it, the rest are at most it. */
  ghost predicate Split(s: seq<ID>, l: int, r: int, i: int, j: int)
    requires 0 <= l <= j < i <= r < |s|
  {
    && (forall k :: l <= k < j ==> s[k] >= s[j])
    && (forall k :: j <= k < i ==> s[k] == s[j])
    && (forall k :: i <= k <= r ==> s[k] <= s[j])
  }

  /** The first id from i + 1 on that is not greater than a; ids[r] stops the scan. */
  method ScanUp(ids: array<ID>, i: int, ghost r: int, a: ID) returns (i': int)
    requires 0 <= i < r < ids.Length && ids[r] <= a
    ensures i < i' <= r && ids[i'] <= a
    ensures forall k :: i < k < i' ==> ids[k] > a
  {
    i' := i + 1;
    while ids[i'] > a
      invariant i < i' <= r
      invariant forall k :: i < k < i' ==> ids[k] > a
      decreases r - i'
    {
      i' := i' + 1;
    }
  }

  /** The last id before j that is not less than a; ids[l] stops the scan. */
  method ScanDown(ids: array<ID>, j: int, ghost l: int, a: ID) returns (j': int)
    requires 0 <= l < j <= ids.Length && ids[l] >= a
    ensures l <= j' < j && ids[j'] >= a
    ensures forall k :: j' < k < j ==> ids[k] < a
  {
    j' := j - 1;
    while ids[j'] < a
      invariant l <= j' < j
      invariant forall k :: j' < k < j ==> ids[k] < a
      decreases j'
    {
      j' := j' - 1;
    }
  }

  /** Exchanges ids from both ends until the scans meet. */
  method Exchange(ids: array<ID>, l: int, r: int) returns (i: int, j: int)
    requires 1 <= l && l + SMALL <= r < ids.Length
    requires ids[l] >= ids[l + 1] >= ids[r]
    modifies ids
    ensures l < j < i <= r && ids[l + 1] == old(ids[l + 1])
    ensures Permutes(old(ids[..]), ids[..], l, r)
    ensures forall k :: l <= k < i ==> ids[k] >= ids[l + 1]
    ensures forall k :: j < k <= r ==> ids[k] <= ids[l + 1]
  {
    ghost var s0 := ids[..];
    i := l + 1;
    j := r;
    var a := ids[l + 1];
    while true
      invariant l < i <= j <= r && l + 2 <= j
      invariant Permutes(s0, ids[..], l, r)
      invariant ids[l + 1] == a
      invariant forall k :: l <= k <= i ==> ids[k] >= a
      invariant forall k :: j <= k <= r ==> ids[k] <= a
      invariant j == r ==> i == l + 1
      decreases j - i
    {
      i := ScanUp(ids, i, r, a);
      j := ScanDown(ids, j, l + 1, a);
      if j < i {
        break;
      }
      Swap(ids, i, j, s0, l, r);
    }
  }

  method Partition(ids: array<ID>, l: int, r: int) returns (i: int, j: int)
    requires 1 <= l && l + SMALL <= r < ids.Length
    modifies ids
    ensures l < j < i <= r
    ensures Permutes(old(ids[..]), ids[..], l, r)
    ensures Split(ids[..], l, r, i, j)
  {
    ghost var s0 := ids[..];
    MedianOfThree(ids, l, r);
    ghost var s1 := ids[..];
    i, j := Exchange(ids, l, r);
    PermutesTrans(s0, s1, ids[..], l, r);
    Swap(ids, l + 1, j, s0, l, r);
  }

  // ---------------------------------------------------------------- the stack of segments

  datatype Segment = Segment(lo: int, hi: int)

  function Size(g: Segment): int {
    g.hi - g.lo + 1
  }

  function Pow2(k: nat): nat {
    if k == 0 then 1 else 2 * Pow2(k - 1)
  }

  lemma {:induction false} Pow2Grows(j: nat, k: nat)
    requires j <= k
    ensures Pow2(j) <= Pow2(k)
  {
    if j < k {
      Pow2Grows(j, k - 1);
    }
  }

  lemma {:induction false} Pow2Sum(j: nat, k: nat)
    ensures Pow2(j + k) == Pow2(j) * Pow2(k)
  {
    if j > 0 {
      Pow2Sum(j - 1, k);
      assert Pow2(j + k) == 2 * (Pow2(j - 1) * Pow2(k));
    }
  }

  lemma MulMono(x: int, y: int, z: nat)
    requires x <= y
    ensures x * z <= y * z
  {
  }

  lemma DeepIsLong(d: nat, size: int)
    requires d >= 28 && size > SMALL
    ensures size * Pow2(d) >= 0x8000_0000
  {
    Pow2Grows(28, d);
    assert Pow2(7) == 128;
    Pow2Sum(7, 7);
    Pow2Sum(14, 14);
    MulMono(9, size, Pow2(d));
  }

  /** A segment of more than SMALL ids is never found 28 levels deep in a list of C ints. */
  lemma StackDepth(d: nat, size: int, n: int)
    requires size * Pow2(d) <= n < 0x8000_0000 && size > SMALL
    ensures d < 28
  {
    if d >= 28 {
      DeepIsLong(d, size);
    }
  }

  lemma Double(half: int, power: nat)
    ensures half * (2 * power) == (2 * half) * power
  {
  }

  /** Halving a segment pays for one more level. */
  lemma HalfDeeper(d: nat, size: int, half: int, n: int)
    requires size * Pow2(d) <= n && 2 * half <= size
    ensures half * Pow2(d + 1) <= n
  {
    Double(half, Pow2(d));
    MulMono(2 * half, size, Pow2(d));
  }

  /** Segments still to be sorted, the current one on top. */
  datatype Stack = Bottom | Over(top: Segment, rest: Stack)

  function Depth(st: Stack): nat {
    if st.Bottom? then 0 else 1 + Depth(st.rest)
  }

  predicate Apart(g: Segment, h: Segment) {
    g.hi < h.lo || h.hi < g.lo
  }

  predicate ApartFrom(g: Segment, st: Stack) {
    st.Over? ==> Apart(g, st.top) && ApartFrom(g, st.rest)
  }

  /** The pending segments lie inside the list, apart from each other, at cuts of the list. */
  ghost predicate Pending(s: seq<ID>, n: int, st: Stack)
    requires n < |s|
  {
    st.Over? ==>
      && 1 <= st.top.lo <= st.top.hi + 1 <= n + 1
      && Cut(s, n, st.top.lo) && Cut(s, n, st.top.hi + 1)
      && ApartFrom(st.top, st.rest)
      && Pending(s, n, st.rest)
  }

  /** Position c is strictly inside a pending segment. */
  predicate Open(st: Stack, c: int) {
    st.Over? && (st.top.lo < c <= st.top.hi || Open(st.rest, c))
  }

  /** Only inside pending segments may the list be out of order. */
  ghost predicate Closed(s: seq<ID>, n: int, st: Stack)
    requires n < |s|
  {
    forall c :: 1 <= c <= n + 1 && !Open(st, c) ==> Cut(s, n, c)
  }

  /** The deeper a segment is on the stack, the larger it may be. */
  ghost predicate Halving(st: Stack, n: int) {
    st.Over? ==> Size(st.top) * Pow2(Depth(st.rest)) <= n && Halving(st.rest, n)
  }

  /** What is left to do. */
  ghost function Work(st: Stack): nat {
    if st.Bottom? then 0
    else Work(st.rest) + (if Size(st.top) > 0 then 2 * Size(st.top) else 0) + 1
  }

  /** istack holds the segments from slot 1 up, two slots each, the top one last. */
  predicate OnStack(istack: seq<int>, st: Stack) {
    st.Over? ==>
      && 2 * Depth(st) < |istack|
      && istack[2 * Depth(st) - 1] == st.top.lo && istack[2 * Depth(st)] == st.top.hi
      && OnStack(istack, st.rest)
  }

  lemma {:induction false} PermutingKeepsRest(s: seq<ID>, s': seq<ID>, n: int, g: Segment, st: Stack)
    requires 1 <= g.lo <= g.hi + 1 <= n + 1 <= |s| && Permutes(s, s', g.lo, g.hi)
    requires Pending(s, n, st) && ApartFrom(g, st)
    ensures Pending(s', n, st)
  {
    if st.Over? {
      PermutingKeepsCut(s, s', n, g.lo, g.hi, st.top.lo);
      PermutingKeepsCut(s, s', n, g.lo, g.hi, st.top.hi + 1);
      PermutingKeepsRest(s, s', n, g, st.rest);
    }
  }

  /** Permuting the current segment disturbs no other. */
  lemma PermutingKeepsPending(s: seq<ID>, s': seq<ID>, n: int, st: Stack)
    requires n < |s| && st.Over? && Pending(s, n, st) && Closed(s, n, st)
    requires Permutes(s, s', st.top.lo, st.top.hi)
    ensures Pending(s', n, st) && Closed(s', n, st)
  {
    var g := st.top;
    PermutingKeepsRest(s, s', n, g, st.rest);
    PermutingKeepsCut(s, s', n, g.lo, g.hi, g.lo);
    PermutingKeepsCut(s, s', n, g.lo, g.hi, g.hi + 1);
    forall c | 1 <= c <= n + 1 && !Open(st, c)
      ensures Cut(s', n, c)
    {
      PermutingKeepsCut(s, s', n, g.lo, g.hi, c);
    }
  }

  /** A sorted segment is no longer pending. */
  lemma SortedIsDone(s: seq<ID>, n: int, st: Stack)
    requires n < |s| && st.Over? && Pending(s, n, st) && Closed(s, n, st)
    requires SortedIn(s, st.top.lo, st.top.hi)
    ensures Pending(s, n, st.rest) && Closed(s, n, st.rest)
  {
    var g := st.top;
    forall c | 1 <= c <= n + 1 && !Open(st.rest, c)
      ensures Cut(s, n, c)
    {
      if g.lo < c <= g.hi {
        assert Cut(s, n, g.lo) && Cut(s, n, g.hi + 1);
      } else {
        assert !Open(st, c);
      }
    }
  }

  lemma SplitCut(s: seq<ID>, n: int, g: Segment, i: int, j: int, c: int)
    requires 1 <= g.lo && g.hi <= n < |s| && g.lo <= j < i <= g.hi
    requires Split(s, g.lo, g.hi, i, j) && j <= c <= i
    requires Cut(s, n, g.lo) && Cut(s, n, g.hi + 1)
    ensures Cut(s, n, c)
  {
  }

  lemma {:induction false} PartIsApart(g: Segment, a: Segment, st: Stack)
    requires ApartFrom(g, st) && g.lo <= a.lo && a.hi <= g.hi
    ensures ApartFrom(a, st)
  {
    if st.Over? {
      PartIsApart(g, a, st.rest);
    }
  }

  ghost predicate Halves(g: Segment, i: int, j: int, a: Segment, b: Segment) {
    || (a == Segment(g.lo, j - 1) && b == Segment(i, g.hi))
    || (b == Segment(g.lo, j - 1) && a == Segment(i, g.hi))
  }

  /** Partitioning replaces a pending segment by two smaller ones. */
  lemma SplitIsPending(s: seq<ID>, n: int, st: Stack, i: int, j: int, a: Segment, b: Segment)
    requires n < |s| && st.Over? && Pending(s, n, st) && Closed(s, n, st)
    requires st.top.lo < j < i <= st.top.hi && Split(s, st.top.lo, st.top.hi, i, j)
    requires Halves(st.top, i, j, a, b)
    ensures Pending(s, n, Over(b, Over(a, st.rest))) && Closed(s, n, Over(b, Over(a, st.rest)))
  {
    var g := st.top;
    SplitCut(s, n, g, i, j, i);
    SplitCut(s, n, g, i, j, j);
    PartIsApart(g, a, st.rest);
    PartIsApart(g, b, st.rest);
    forall c | 1 <= c <= n + 1 && !Open(Over(b, Over(a, st.rest)), c)
      ensures Cut(s, n, c)
    {
      assert !Open(Over(a, st.rest), c) && !Open(st.rest, c);
      if g.lo < c <= g.hi {
        SplitCut(s, n, g, i, j, c);
      } else {
        assert !Open(st, c);
      }
    }
  }

  lemma DividedStaysHalving(st: Stack, n: int, a: Segment, b: Segment)
    requires st.Over? && Halving(st, n) && n < 0x8000_0000
    requires Size(st.top) > SMALL && 0 <= Size(b) <= Size(a) && Size(a) + Size(b) < Size(st.top)
    ensures Depth(st) <= 28 && Halving(Over(b, Over(a, st.rest)), n)
    ensures Work(Over(b, Over(a, st.rest))) < Work(st)
  {
    var g, d := st.top, Depth(st.rest);
    StackDepth(d, Size(g), n);
    HalfDeeper(d, Size(g), Size(b), n);
    MulMono(Size(a), Size(g), Pow2(d));
    assert Depth(Over(a, st.rest)) == d + 1;
  }

  /** A list with nothing pending is in order. */
  lemma ClosedIsDescending(s0: seq<ID>, s: seq<ID>, n: int)
    requires 0 <= n < |s0| && Permutes(s0, s, 1, n) && Closed(s, n, Bottom)
    ensures Descending(s[1..n + 1]) && s[0] == s0[0] && s[n + 1..] == s0[n + 1..]
  {
    var t := s[1..n + 1];
    forall p, q | 0 <= p < q < |t|
      ensures t[p] >= t[q]
    {
      assert t[p] == s[p + 1] && t[q] == s[q + 1];
      assert !Open(Bottom, q + 1);
      assert Cut(s, n, q + 1);
    }
  }

  // ---------------------------------------------------------------- the sort

  /** Where the sort of the list s0 stands. */
  ghost predicate Sorting(s0: seq<ID>, s: seq<ID>, n: int, st: Stack) {
    && 0 <= n < |s0|
    && Permutes(s0, s, 1, n)
    && Pending(s, n, st) && Closed(s, n, st)
    && Halving(st, n)
  }

  lemma SortingStarts(s: seq<ID>, n: int)
    requires 0 <= n < |s|
    ensures Sorting(s, s, n, Over(Segment(1, n), Bottom))
  {
    var st := Over(Segment(1, n), Bottom);
    assert Pow2(0) == 1;
    forall c | 1 <= c <= n + 1 && !Open(st, c)
      ensures Cut(s, n, c)
    {
    }
  }

  /** Sorts the small segment on top. */
  method Finish(ids: array<ID>, l: int, r: int, ghost s0: seq<ID>, ghost n: int, ghost rest: Stack)
    requires Sorting(s0, ids[..], n, Over(Segment(l, r), rest))
    modifies ids
    ensures Sorting(s0, ids[..], n, rest)
  {
    ghost var s, st := ids[..], Over(Segment(l, r), rest);
    assert Cut(s, n, l);
    InsertionSort(ids, l, r);
    PermutingKeepsPending(s, ids[..], n, st);
    SortedIsDone(ids[..], n, st);
    PermutesWiden(s, ids[..], l, r, 1, n);
    PermutesTrans(s0, s, ids[..], 1, n);
  }

  /** Partitions the segment on top; a is its larger part, b the smaller. */
  method Divide(ids: array<ID>, l: int, r: int, ghost s0: seq<ID>, ghost n: int, ghost rest: Stack)
    returns (a: Segment, b: Segment)
    requires Sorting(s0, ids[..], n, Over(Segment(l, r), rest)) && n < 0x8000_0000
    requires r - l >= SMALL
    modifies ids
    ensures Sorting(s0, ids[..], n, Over(b, Over(a, rest)))
    ensures Work(Over(b, Over(a, rest))) < Work(Over(Segment(l, r), rest)) && Depth(rest) < 28
  {
    ghost var s, st := ids[..], Over(Segment(l, r), rest);
    var i, j := Partition(ids, l, r);
    if r - i + 1 >= j - l {
      a, b := Segment(i, r), Segment(l, j - 1);
    } else {
      a, b := Segment(l, j - 1), Segment(i, r);
    }
    PermutingKeepsPending(s, ids[..], n, st);
    PermutesWiden(s, ids[..], l, r, 1, n);
    PermutesTrans(s0, s, ids[..], 1, n);
    SplitIsPending(ids[..], n, st, i, j, a, b);
    DividedStaysHalving(st, n, a, b);
  }

  lemma {:induction false} PushKeepsStack(istack: seq<int>, k: int, x: int, st: Stack)
    requires OnStack(istack, st) && 2 * Depth(st) < k < |istack|
    ensures OnStack(istack[k := x], st)
  {
    if st.Over? {
      PushKeepsStack(istack, k, x, st.rest);
    }
  }

  lemma PushedOnStack(istack: seq<int>, g: Segment, st: Stack)
    requires OnStack(istack, st) && 2 * Depth(st) + 2 < |istack|
    ensures OnStack(istack[2 * Depth(st) + 2 := g.hi][2 * Depth(st) + 1 := g.lo], Over(g, st))
  {
    PushKeepsStack(istack, 2 * Depth(st) + 2, g.hi, st);
    PushKeepsStack(istack[2 * Depth(st) + 2 := g.hi], 2 * Depth(st) + 1, g.lo, st);
  }

  /** The main loop: works off the segments, the smaller part of a divided segment first. */
  method SortSegments(ids: array<ID>, n: int)
    requires 0 <= n < ids.Length && n < 0x8000_0000
    modifies ids
    ensures Permutes(old(ids[..]), ids[..], 1, n)
    ensures Closed(ids[..], n, Bottom)
  {
    var istack := seq(STACK_SIZE, _ => 0);
    ghost var s0 := ids[..];
    var l, r := 1, n;
    var jstack := 0;
    ghost var rest := Bottom;
    SortingStarts(s0, n);
    while true
      invariant Sorting(s0, ids[..], n, Over(Segment(l, r), rest))
      invariant |istack| == STACK_SIZE && jstack == 2 * Depth(rest) && OnStack(istack, rest)
      decreases Work(Over(Segment(l, r), rest))
    {
      if r - l < SMALL {
        Finish(ids, l, r, s0, n, rest);
        if jstack == 0 {
          return;
        }
        r := istack[jstack];
        l := istack[jstack - 1];
        jstack := jstack - 2;
        rest := rest.rest;
      } else {
        var a, b := Divide(ids, l, r, s0, n, rest);
        PushedOnStack(istack, a, rest);
        jstack := jstack + 2;
        istack := istack[jstack := a.hi][jstack - 1 := a.lo];
        rest := Over(a, rest);
        l, r := b.lo, b.hi;
      }
    }
  }

  /**
   Sorts the list in place, for every list short enough for int indices. All scans stay inside the
   array, and the stack of 64 slots never overflows: the larger part is always the one pushed.
   */
  method Sort(ids: array<ID>)
    requires IsList(ids) && ids[0] < 0x4000_0000  // so that l + r is a C int
    modifies ids
    ensures ids[0] == old(ids[0])
    ensures Descending(Ids(ids)) && multiset(Ids(ids)) == multiset(old(Ids(ids)))
    ensures ids[Len(ids) + 1..] == old(ids[Len(ids) + 1..])
  {
    var n := ids[0];
    ghost var s0 := ids[..];
    SortSegments(ids, n);
    ghost var s := ids[..];
    ClosedIsDescending(s0, s, n);
    assert Ids(ids) == s[1..n + 1] && old(Ids(ids)) == s0[1..n + 1];
    assert ids[n + 1..] == s[n + 1..] && old(ids[Len(ids) + 1..]) == s0[n + 1..];
  }
}
