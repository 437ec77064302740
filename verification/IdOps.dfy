/**
 Searching, merging and carving runs out of descending ID lists: mdb_midl_search,
 mdb_midl_xmerge, the run search of mdb_page_alloc and the insertion of mdb_ovpage_free.
 */
module IdOps {
  import opened IdList

  // ---------------------------------------------------------------- search

  /** What the search knows: ids before base are greater, those from base + n on are less. */
  ghost predicate Narrowed(s: seq<ID>, id: ID, base: nat, n: nat) {
    && base + n <= |s|
    && (forall k :: 0 <= k < base ==> s[k] > id)
    && (forall k :: base + n <= k < |s| ==> s[k] < id)
  }

  lemma StartSearch(s: seq<ID>, id: ID)
    ensures Narrowed(s, id, 0, |s|)
  {
  }

  /** The search has looked at position p. */
  lemma Narrows(s: seq<ID>, id: ID, base: nat, n: nat, p: nat)
    requires Narrowed(s, id, base, n) && StrictlyDescending(s) && base <= p < base + n
    ensures s[p] < id ==> Narrowed(s, id, base, p - base)
    ensures s[p] > id ==> Narrowed(s, id, p + 1, base + n - p - 1)
    ensures s[p] == id ==> forall k :: 0 <= k < |s| ==> if k < p then s[k] > id else if k == p then s[k] == id else s[k] < id
  {
  }

  lemma NarrowBounds(s: seq<ID>, id: ID, base: nat, n: nat)
    requires Narrowed(s, id, base, n)
    ensures base + n <= |s|
    ensures n == 0 ==> forall k :: 0 <= k < |s| ==> if k < base then s[k] > id else s[k] < id
  {
  }

  /** The position of the first id that is not greater than `id`. */
  method Search(ids: array<ID>, id: ID) returns (x: nat)
    requires IsList(ids) && StrictlyDescending(Ids(ids))
    ensures 1 <= x <= Len(ids) + 1
    ensures forall k :: 1 <= k < x ==> ids[k] > id
    ensures forall k :: x < k <= Len(ids) ==> ids[k] < id
    ensures x <= Len(ids) ==> ids[x] <= id
    ensures (x <= Len(ids) && ids[x] == id) <==> id in Ids(ids)
  {
    hide StrictlyDescending, Narrowed;
    ghost var s := Ids(ids);
    assert forall k :: 1 <= k <= |s| ==> ids[k] == s[k - 1];
    var base: nat, cursor: nat, val, n: nat := 0, 1, 0, ids[0];
    StartSearch(s, id);
    while 0 < n
      invariant base + n <= |s| && Narrowed(s, id, base, n)
      invariant val > 0 ==> cursor == base
      invariant val < 0 ==> cursor == base + n + 1
      invariant val == 0 ==> cursor == 1 && base == 0 && n == |s|
    {
      var pivot := n / 2;
      cursor := base + pivot + 1;
      val := if ids[cursor] < id then -1 else if ids[cursor] > id then 1 else 0;
      assert ids[cursor] == s[cursor - 1];
      Narrows(s, id, base, n, cursor - 1);
      if val < 0 {
        n := pivot;
      } else if val > 0 {
        base := cursor;
        n := n - (pivot + 1);
      } else {
        return cursor;
      }
    }
    if val > 0 {
      cursor := cursor + 1;
    }
    x := cursor;
    NarrowBounds(s, id, base, n);
  }

  // ---------------------------------------------------------------- merge

  /** The merge of two descending lists, built from the small end. */
  ghost function Merged(a: seq<ID>, b: seq<ID>): seq<ID>
    decreases |a| + |b|
  {
    if b == [] then a
    else if a != [] && a[|a| - 1] < b[|b| - 1] then Merged(a[..|a| - 1], b) + [a[|a| - 1]]
    else Merged(a, b[..|b| - 1]) + [b[|b| - 1]]
  }

  lemma {:induction false} MergedIsSum(a: seq<ID>, b: seq<ID>)
    ensures multiset(Merged(a, b)) == multiset(a) + multiset(b)
    ensures |Merged(a, b)| == |a| + |b|
    decreases |a| + |b|
  {
    if b != [] {
      assert b == b[..|b| - 1] + [b[|b| - 1]];
      if a != [] && a[|a| - 1] < b[|b| - 1] {
        assert a == a[..|a| - 1] + [a[|a| - 1]];
        MergedIsSum(a[..|a| - 1], b);
      } else {
        MergedIsSum(a, b[..|b| - 1]);
      }
    }
  }

  lemma InMerged(a: seq<ID>, b: seq<ID>, x: ID)
    ensures x in Merged(a, b) <==> x in a || x in b
  {
    MergedIsSum(a, b);
    assert x in Merged(a, b) <==> x in multiset(Merged(a, b));
  }

  lemma AppendLeast(m: seq<ID>, least: ID)
    requires Descending(m) && forall x :: x in m ==> x >= least
    ensures Descending(m + [least])
  {
    forall k | 0 <= k < |m|
      ensures m[k] >= least
    {
      assert m[k] in m;
    }
  }

  lemma LastIsLeast(s: seq<ID>, x: ID)
    requires Descending(s) && x in s
    ensures x >= s[|s| - 1]
  {
  }

  lemma {:induction false} MergedIsDescending(a: seq<ID>, b: seq<ID>)
    requires Descending(a) && Descending(b)
    ensures Descending(Merged(a, b))
    decreases |a| + |b|
  {
    if b != [] {
      var takeOld := a != [] && a[|a| - 1] < b[|b| - 1];
      var a' := if takeOld then a[..|a| - 1] else a;
      var b' := if takeOld then b else b[..|b| - 1];
      var least := if takeOld then a[|a| - 1] else b[|b| - 1];
      MergedIsDescending(a', b');
      forall x | x in Merged(a', b')
        ensures x >= least
      {
        InMerged(a', b', x);
        if x in a {
          LastIsLeast(a, x);
        } else {
          LastIsLeast(b, x);
        }
      }
      AppendLeast(Merged(a', b'), least);
    }
  }

  /** Disjoint strictly descending lists merge into their strictly descending union. */
  lemma MergedIsUnion(a: seq<ID>, b: seq<ID>)
    requires StrictlyDescending(a) && StrictlyDescending(b)
    requires forall x :: x in a ==> x !in b
    ensures StrictlyDescending(Merged(a, b))
    ensures forall x :: x in Merged(a, b) <==> x in a || x in b
  {
    MergedIsDescending(a, b);
    MergedIsSum(a, b);
    var m := Merged(a, b);
    forall x
      ensures x in m <==> x in a || x in b
      ensures multiset(m)[x] <= 1
    {
      InMerged(a, b, x);
      OnceInStrict(a, x);
      OnceInStrict(b, x);
    }
    DescendingOnceIsStrict(m);
  }

  lemma {:induction false} OnceInStrict(s: seq<ID>, x: ID)
    requires StrictlyDescending(s)
    ensures multiset(s)[x] <= 1
  {
    if s != [] {
      var last := |s| - 1;
      assert s == s[..last] + [s[last]];
      OnceInStrict(s[..last], x);
      if x in s[..last] {
        assert x != s[last];
      }
    }
  }

  lemma TwiceInList(s: seq<ID>, i: nat, j: nat)
    requires i < j < |s| && s[i] == s[j]
    ensures multiset(s)[s[i]] >= 2
  {
    assert s == s[..i] + [s[i]] + s[i + 1..j] + [s[j]] + s[j + 1..];
  }

  lemma DescendingOnceIsStrict(s: seq<ID>)
    requires Descending(s) && forall x :: multiset(s)[x] <= 1
    ensures StrictlyDescending(s)
  {
    forall i, j | 0 <= i < j < |s|
      ensures s[i] > s[j]
    {
      if s[i] == s[j] {
        TwiceInList(s, i, j);
      }
    }
  }

  lemma PeelOld(a: seq<ID>, b: seq<ID>, j: nat, i: nat, m: seq<ID>)
    requires 0 < j <= |a| && 0 < i <= |b| && a[j - 1] < b[i - 1]
    requires i + j <= |m| && Merged(a[..j], b[..i]) == m[..i + j]
    ensures m[i + j - 1] == a[j - 1] && Merged(a[..j - 1], b[..i]) == m[..i + j - 1]
  {
    assert a[..j][..j - 1] == a[..j - 1];
    MergedIsSum(a[..j - 1], b[..i]);
    assert m[..i + j - 1] == m[..i + j][..i + j - 1];
  }

  lemma PeelNew(a: seq<ID>, b: seq<ID>, j: nat, i: nat, m: seq<ID>)
    requires j <= |a| && 0 < i <= |b| && (j > 0 ==> a[j - 1] >= b[i - 1])
    requires i + j <= |m| && Merged(a[..j], b[..i]) == m[..i + j]
    ensures m[i + j - 1] == b[i - 1] && Merged(a[..j], b[..i - 1]) == m[..i + j - 1]
  {
    assert b[..i][..i - 1] == b[..i - 1];
    MergedIsSum(a[..j], b[..i - 1]);
    assert m[..i + j - 1] == m[..i + j][..i + j - 1];
  }

  /** Mid-merge: j old ids and i new ids are left, the rest of m is in place. */
  ghost predicate Merging(s: seq<ID>, a: seq<ID>, b: seq<ID>, j: nat, i: nat, m: seq<ID>) {
    && j <= |a| && i <= |b| && i + j <= |m| < |s|
    && s[0] == MAX_ID
    && Merged(a[..j], b[..i]) == m[..i + j]
    && (forall t :: 1 <= t <= j ==> s[t] == a[t - 1])
    && (forall t :: i + j < t <= |m| ==> s[t] == m[t - 1])
  }

  lemma PlaceOld(s: seq<ID>, a: seq<ID>, b: seq<ID>, j: nat, i: nat, m: seq<ID>)
    requires Merging(s, a, b, j, i, m) && 0 < i && s[j] < b[i - 1]
    ensures 0 < j && Merging(s[i + j := s[j]], a, b, j - 1, i, m)
  {
    PeelOld(a, b, j, i, m);
  }

  lemma PlaceNew(s: seq<ID>, a: seq<ID>, b: seq<ID>, j: nat, i: nat, m: seq<ID>)
    requires Merging(s, a, b, j, i, m) && 0 < i && s[j] >= b[i - 1]
    ensures Merging(s[i + j := b[i - 1]], a, b, j, i - 1, m)
  {
    PeelNew(a, b, j, i, m);
  }

  /** The inner loop: moves the old ids that are smaller than the next new one. */
  method MoveSmaller(idl: array<ID>, j0: nat, k0: nat, mergeId: ID, ghost a: seq<ID>, ghost b: seq<ID>, ghost m: seq<ID>)
    returns (j: nat, k: nat)
    requires j0 < k0 && |b| >= k0 - j0 && Merging(idl[..], a, b, j0, k0 - j0, m) && mergeId == b[k0 - j0 - 1]
    modifies idl
    ensures j <= j0 && k - j == k0 - j0 && Merging(idl[..], a, b, j, k - j, m) && idl[j] >= mergeId
    ensures forall t :: |m| < t < idl.Length ==> idl[t] == old(idl[t])
  {
    j, k := j0, k0;
    var oldId: ID := idl[j];
    while oldId < mergeId
      invariant j <= j0 && k - j == k0 - j0 && oldId == idl[j]
      invariant Merging(idl[..], a, b, j, k0 - j0, m)
      invariant forall t :: |m| < t < idl.Length ==> idl[t] == old(idl[t])
      decreases j
    {
      ghost var s := idl[..];
      PlaceOld(s, a, b, j, k0 - j0, m);
      idl[k] := oldId;
      assert idl[..] == s[k := oldId];
      k := k - 1;
      j := j - 1;
      oldId := idl[j];
    }
  }

  /** The outer loop: places the ids of merge[at + 1..at + 1 + |b|], the last one first. */
  method PlaceAll(idl: array<ID>, merge: array<ID>, at: nat, j0: nat, ghost a: seq<ID>, ghost b: seq<ID>, ghost m: seq<ID>)
    returns (ghost j: nat)
    requires at < merge.Length && at + |b| < merge.Length && merge[at] == |b|
    requires merge == idl ==> |m| < at
    requires j0 + |b| == |m| && Merging(idl[..], a, b, j0, |b|, m)
    requires forall t :: at < t <= at + |b| ==> merge[t] == b[t - at - 1]
    modifies idl
    ensures Merging(idl[..], a, b, j, 0, m)
    ensures forall t :: |m| < t < idl.Length ==> idl[t] == old(idl[t])
  {
    var i: nat := merge[at];
    var k := i + j0;
    var j' := j0;
    while i > 0
      invariant i <= |b| && k == i + j' && k <= |m|
      invariant Merging(idl[..], a, b, j', i, m)
      invariant forall t :: |m| < t < idl.Length ==> idl[t] == old(idl[t])
    {
      var mergeId: ID := merge[at + i];
      j', k := MoveSmaller(idl, j', k, mergeId, a, b, m);
      PlaceNext(idl, j', k, mergeId, a, b, m);
      k := k - 1;
      i := i - 1;
    }
    j := j';
  }

  /**
   Merges the list at merge[at..] into idl, in place and from the small end. Slot 0 of idl is
   the largest ID while the merge runs, which stops the scan of idl. The two lists may share
   one array if the second lies beyond the room the merge needs.
   */
  method XMerge(idl: array<ID>, merge: array<ID>, at: nat)
    requires IsList(idl) && at < merge.Length && at + merge[at] < merge.Length
    requires Len(idl) + merge[at] < idl.Length
    requires merge == idl ==> Len(idl) + merge[at] < at
    modifies idl
    ensures IsList(idl)
    ensures Ids(idl) == Merged(old(Ids(idl)), old(merge[at + 1..at + 1 + merge[at]]))
    ensures forall k :: old(Len(idl) + merge[at]) < k < idl.Length ==> idl[k] == old(idl[k])
  {
    ghost var a, b := Ids(idl), merge[at + 1..at + 1 + merge[at]];
    ghost var m := Merged(a, b);
    var j := idl[0];
    var total: nat := j + merge[at];
    idl[0] := MAX_ID;
    MergeStarts(idl[..], a, b);
    ghost var left := PlaceAll(idl, merge, at, j, a, b, m);
    MergeEnds(idl[..], a, b, left, m);
    idl[0] := total;
  }

  method PlaceNext(idl: array<ID>, ghost j: nat, k: nat, mergeId: ID, ghost a: seq<ID>, ghost b: seq<ID>, ghost m: seq<ID>)
    requires j < k && |b| >= k - j && Merging(idl[..], a, b, j, k - j, m)
    requires mergeId == b[k - j - 1] && idl[j] >= mergeId
    modifies idl
    ensures Merging(idl[..], a, b, j, k - j - 1, m)
    ensures forall t :: |m| < t < idl.Length ==> idl[t] == old(idl[t])
  {
    ghost var s := idl[..];
    PlaceNew(s, a, b, j, k - j, m);
    idl[k] := mergeId;
    assert idl[..] == s[k := mergeId];
  }

  lemma MergeStarts(s: seq<ID>, a: seq<ID>, b: seq<ID>)
    requires |a| + |b| < |s| && s[0] == MAX_ID && forall t :: 1 <= t <= |a| ==> s[t] == a[t - 1]
    ensures |Merged(a, b)| == |a| + |b| && Merging(s, a, b, |a|, |b|, Merged(a, b))
  {
    MergedIsSum(a, b);
    assert a[..|a|] == a && b[..|b|] == b && Merged(a, b)[..|a| + |b|] == Merged(a, b);
  }

  lemma MergeEnds(s: seq<ID>, a: seq<ID>, b: seq<ID>, j: nat, m: seq<ID>)
    requires Merging(s, a, b, j, 0, m)
    ensures forall t :: 1 <= t <= |m| ==> s[t] == m[t - 1]
  {
    assert m[..j] == a[..j];
    forall t | 1 <= t <= |m|
      ensures s[t] == m[t - 1]
    {
      assert t <= j ==> m[..j][t - 1] == a[..j][t - 1];
    }
  }
}
