/**
 Dirty lists (MDB_ID2L): arrays of page numbers and pages, ascending, with their length in slot
 0. Searching and inserting (mdb_mid2l_search, mdb_mid2l_insert), and what mdb_txn_commit does
 with the lists of a nested transaction.
 */
module DirtyLists {
  import opened Base
  import opened NestedTxn

  /** A page number and the page's address in memory. */
  datatype Id2 = Id2(mid: nat, mptr: nat)

  predicate Ascending(s: seq<Id2>) {
    forall i, j :: 0 <= i < j < |s| ==> s[i].mid < s[j].mid
  }

  predicate IsList2(ids: array<Id2>)
    reads ids
  {
    0 < ids.Length && ids[0].mid < ids.Length
  }

  function Ids2(ids: array<Id2>): seq<Id2>
    requires IsList2(ids)
    reads ids
  {
    ids[1..ids[0].mid + 1]
  }

  // ---------------------------------------------------------------- search and insertion

  /** How many ids of an ascending list are below id. */
  function CountBelow(s: seq<Id2>, id: nat): (n: nat)
    ensures n <= |s|
  {
    if s == [] || s[0].mid >= id then 0 else 1 + CountBelow(s[1..], id)
  }

  lemma {:induction false} CountBelowIs(s: seq<Id2>, id: nat, n: nat)
    requires n <= |s| && (forall k :: 0 <= k < n ==> s[k].mid < id) && (n < |s| ==> s[n].mid >= id)
    ensures CountBelow(s, id) == n
  {
    if n > 0 {
      CountBelowIs(s[1..], id, n - 1);
    }
  }

  /** What the search knows: ids before base are less, those from base + n on are greater. */
  ghost predicate Narrowed(s: seq<Id2>, id: nat, base: nat, n: nat) {
    && base + n <= |s|
    && (forall k :: 0 <= k < base ==> s[k].mid < id)
    && (forall k :: base + n <= k < |s| ==> s[k].mid > id)
  }

  /** The search has looked at position p. */
  lemma Narrows(s: seq<Id2>, id: nat, base: nat, n: nat, p: nat)
    requires Narrowed(s, id, base, n) && Ascending(s) && base <= p < base + n
    ensures id < s[p].mid ==> Narrowed(s, id, base, p - base)
    ensures id > s[p].mid ==> Narrowed(s, id, p + 1, base + n - p - 1)
    ensures id == s[p].mid ==> forall k :: 0 <= k < |s| ==> if k < p then s[k].mid < id else s[k].mid >= id
  {
  }

  lemma NarrowBounds(s: seq<Id2>, id: nat, base: nat, n: nat)
    requires Narrowed(s, id, base, n)
    ensures base + n <= |s|
    ensures n == 0 ==> forall k :: 0 <= k < |s| ==> if k < base then s[k].mid < id else s[k].mid > id
  {
  }

  lemma StartSearch(s: seq<Id2>, id: nat)
    ensures Narrowed(s, id, 0, |s|)
  {
  }

  /** mdb_mid2l_search: the first position whose id is not less. */
  method Search2(ids: array<Id2>, id: nat) returns (x: nat)
    requires IsList2(ids) && Ascending(Ids2(ids))
    ensures x == CountBelow(Ids2(ids), id) + 1
    ensures forall k :: 1 <= k < x ==> ids[k].mid < id
    ensures x <= ids[0].mid ==> ids[x].mid >= id
  {
    hide CountBelow, Ascending, Narrowed;
    ghost var s := Ids2(ids);
    assert Narrowed(s, id, 0, |s|) by { StartSearch(s, id); }
    var base: nat, cursor: nat, val, n: nat := 0, 1, 0, ids[0].mid;
    while 0 < n
      invariant base + n <= |s| && Narrowed(s, id, base, n)
      invariant val > 0 ==> cursor == base
      invariant val < 0 ==> cursor == base + n + 1
      invariant val == 0 ==> cursor == 1 && base == 0 && n == |s|
    {
      var pivot := n / 2;
      cursor := base + pivot + 1;
      val := if id < ids[cursor].mid then -1 else if id > ids[cursor].mid then 1 else 0;
      assert ids[cursor] == s[cursor - 1];
      Narrows(s, id, base, n, cursor - 1);
      if val < 0 {
        n := pivot;
      } else if val > 0 {
        base := cursor;
        n := n - (pivot + 1);
      } else {
        CountBelowIs(s, id, cursor - 1);
        assert forall k :: 1 <= k <= |s| ==> ids[k] == s[k - 1];
        return cursor;
      }
    }
    if val > 0 {
      cursor := cursor + 1;
    }
    x := cursor;
    NarrowBounds(s, id, base, n);
    CountBelowIs(s, id, x - 1);
    assert forall k :: 1 <= k <= |s| ==> ids[k] == s[k - 1];
  }

  /** The list with a new id put in its place. */
  function Inserted(s: seq<Id2>, id: Id2): seq<Id2> {
    s[..CountBelow(s, id.mid)] + [id] + s[CountBelow(s, id.mid)..]
  }

  datatype InsertResult = Done | Duplicate | TooBig

  predicate HasId(s: seq<Id2>, id: nat) {
    exists k :: 0 <= k < |s| && s[k].mid == id
  }

  /** The entries from x on have moved up by one. */
  ghost predicate MovedUp(m: seq<Id2>, m': seq<Id2>, x: nat, n: nat) {
    && x <= n + 1 < |m| == |m'|
    && (forall k :: 0 <= k < x ==> m'[k] == m[k])
    && (forall k {:trigger m'[k]} :: x < k <= n + 1 ==> m'[k] == m[k - 1])
  }

  lemma MovedUpParts(m: seq<Id2>, m': seq<Id2>, x: nat, n: nat)
    requires MovedUp(m, m', x, n)
    ensures m'[..x] == m[..x] && m'[x + 1..n + 2] == m[x..n + 1]
  {
    var a, b := m'[x + 1..n + 2], m[x..n + 1];
    forall j | 0 <= j < |a|
      ensures a[j] == b[j]
    {
      assert m'[x + 1 + j] == m[x + j];
    }
  }

  /** Makes room at x in a list of n ids. */
  method ShiftUp2(ids: array<Id2>, n: nat, x: nat)
    requires 1 <= x <= n + 1 < ids.Length
    modifies ids
    ensures MovedUp(old(ids[..]), ids[..], x, n)
  {
    var i := n + 1;
    while i > x
      invariant x <= i <= n + 1
      invariant forall k :: 0 <= k < i && k <= n ==> ids[k] == old(ids[k])
      invariant forall k :: i < k <= n + 1 ==> ids[k] == old(ids[k - 1])
    {
      ids[i] := ids[i - 1];
      i := i - 1;
    }
  }

  lemma ThreeParts(m: seq<Id2>, x: nat, end: nat)
    requires 1 <= x < end <= |m|
    ensures m[1..end] == m[1..x] + [m[x]] + m[x + 1..end]
  {
  }

  /** mdb_mid2l_insert */
  method Insert2(ids: array<Id2>, id: Id2) returns (r: InsertResult)
    requires IsList2(ids) && Ascending(Ids2(ids)) && ids.Length == DIRTY_MAX + 1
    modifies ids
    ensures IsList2(ids) && Ascending(Ids2(ids))
    ensures r == if old(HasId(Ids2(ids), id.mid)) then Duplicate else if old(ids[0].mid) == DIRTY_MAX then TooBig else Done
    ensures Ids2(ids) == if r.Done? then Inserted(old(Ids2(ids)), id) else old(Ids2(ids))
  {
    hide CountBelow, Ascending, HasId, MovedUp;
    ghost var s := Ids2(ids);
    var x := Search2(ids, id.mid);
    var n := ids[0].mid;
    FoundAtCount(s, id.mid);
    assert x <= n ==> ids[x] == s[x - 1];
    if x <= n && ids[x].mid == id.mid {
      return Duplicate;
    }
    if n >= DIRTY_MAX {
      return TooBig;
    }
    ids[0] := Id2(n + 1, ids[0].mptr);
    assert ids[1..n + 1] == s;
    assert ids[1..x] == s[..x - 1] && ids[x..n + 1] == s[x - 1..];
    ghost var m, head := ids[..], ids[..x];
    ShiftUp2(ids, n, x);
    MovedUpParts(m, ids[..], x, n);
    assert ids[1..x] == head[1..] == s[..x - 1];
    ids[x] := id;
    assert ids[0] == head[0] && ids[1..x] == head[1..];
    assert ids[x + 1..n + 2] == s[x - 1..];
    ThreeParts(ids[..], x, n + 2);
    InsertedAscends(s, id);
    r := Done;
  }

  lemma {:induction false} CountBelowSplits(s: seq<Id2>, id: nat)
    requires Ascending(s)
    ensures var n := CountBelow(s, id);
            (forall k :: 0 <= k < n ==> s[k].mid < id) && (forall k :: n <= k < |s| ==> s[k].mid >= id)
  {
    if s != [] && s[0].mid < id {
      CountBelowSplits(s[1..], id);
      assert forall k :: 0 < k < |s| ==> s[k] == s[1..][k - 1];
    }
  }

  lemma FoundAtCount(s: seq<Id2>, id: nat)
    requires Ascending(s)
    ensures var n := CountBelow(s, id);
            HasId(s, id) <==> n < |s| && s[n].mid == id
  {
    if HasId(s, id) {
      var k :| 0 <= k < |s| && s[k].mid == id;
      CountBelowIs(s, id, k);
    }
  }

  lemma InsertedAscends(s: seq<Id2>, id: Id2)
    requires Ascending(s) && !HasId(s, id.mid)
    ensures Ascending(Inserted(s, id))
  {
    hide CountBelow;
    var n := CountBelow(s, id.mid);
    CountBelowSplits(s, id.mid);
    assert forall k :: 0 <= k < |s| ==> s[k].mid != id.mid;
    var r := s[..n] + [id] + s[n..];
    assert forall k :: 0 <= k < |r| ==> r[k] == if k < n then s[k] else if k == n then id else s[k - 1];
  }

  // ---------------------------------------------------------------- lists as maps

  /** Which page a list holds under a number. */
  function Find(s: seq<Id2>, id: nat): Option<nat> {
    if s == [] then None
    else if s[|s| - 1].mid == id then Some(s[|s| - 1].mptr)
    else Find(s[..|s| - 1], id)
  }

  function Keys(s: seq<Id2>): (r: set<nat>)
    ensures forall id :: id in r <==> HasId(s, id)
  {
    set k | 0 <= k < |s| :: s[k].mid
  }

  lemma {:induction false} FindHas(s: seq<Id2>, id: nat)
    ensures Find(s, id).Some? <==> HasId(s, id)
  {
    if s != [] {
      var r := s[..|s| - 1];
      FindHas(r, id);
      if HasId(r, id) {
        var k :| 0 <= k < |r| && r[k].mid == id;
        assert s[k].mid == id;
      }
      if HasId(s, id) && s[|s| - 1].mid != id {
        var k :| 0 <= k < |s| && s[k].mid == id;
        assert r[k].mid == id;
      }
    }
  }

  lemma KeysNone()
    ensures Keys([]) == {}
  {
  }

  lemma KeysLast(s: seq<Id2>, n: nat)
    requires Ascending(s) && |s| == n + 1
    ensures s[n].mid !in Keys(s[..n]) && Keys(s) == Keys(s[..n]) + {s[n].mid} && Ascending(s[..n])
  {
    hide Keys;
    forall id
      ensures id in Keys(s) <==> id in Keys(s[..n]) + {s[n].mid}
    {
      if HasId(s[..n], id) {
        var k :| 0 <= k < n && s[..n][k].mid == id;
        assert s[k].mid == id;
      }
      if HasId(s, id) && id != s[n].mid {
        var k :| 0 <= k < |s| && s[k].mid == id;
        assert s[..n][k].mid == id;
      }
    }
  }

  lemma {:induction false} KeysCount(s: seq<Id2>)
    requires Ascending(s)
    ensures |Keys(s)| == |s|
  {
    hide Keys, HasId, Ascending;
    if s == [] {
      KeysNone();
    } else {
      KeysLast(s, |s| - 1);
      KeysCount(s[..|s| - 1]);
    }
  }

  // ---------------------------------------------------------------- merging

  /** The union of two ascending lists; where both have a page, b's copy wins. */
  ghost function Merged(a: seq<Id2>, b: seq<Id2>): seq<Id2>
    decreases |a| + |b|
  {
    if b == [] then a
    else if a != [] && a[|a| - 1].mid > b[|b| - 1].mid then Merged(a[..|a| - 1], b) + [a[|a| - 1]]
    else if a != [] && a[|a| - 1].mid == b[|b| - 1].mid then Merged(a[..|a| - 1], b[..|b| - 1]) + [b[|b| - 1]]
    else Merged(a, b[..|b| - 1]) + [b[|b| - 1]]
  }

  lemma {:induction false} MergedLength(a: seq<Id2>, b: seq<Id2>)
    ensures |a| <= |Merged(a, b)| <= |a| + |b|
    decreases |a| + |b|
  {
    if b != [] {
      if a != [] && a[|a| - 1].mid > b[|b| - 1].mid {
        MergedLength(a[..|a| - 1], b);
      } else if a != [] && a[|a| - 1].mid == b[|b| - 1].mid {
        MergedLength(a[..|a| - 1], b[..|b| - 1]);
      } else {
        MergedLength(a, b[..|b| - 1]);
      }
    }
  }

  lemma FindLast(s: seq<Id2>, x: Id2, id: nat)
    ensures Find(s + [x], id) == if x.mid == id then Some(x.mptr) else Find(s, id)
  {
    assert (s + [x])[..|s|] == s;
  }

  lemma {:induction false} AboveAll(s: seq<Id2>, id: nat)
    requires Ascending(s) && s != [] && s[|s| - 1].mid < id
    ensures Find(s, id).None?
  {
    InitBelow(s, id);
    FindHas(s, id);
  }

  lemma FindNothing(id: nat)
    ensures Find([], id).None?
  {
  }

  /** As maps, merging is overriding. */
  lemma {:induction false} MergedIsOverride(a: seq<Id2>, b: seq<Id2>, id: nat)
    requires Ascending(a) && Ascending(b)
    ensures Find(Merged(a, b), id) == if Find(b, id).Some? then Find(b, id) else Find(a, id)
    decreases |a| + |b|
  {
    hide Find, Ascending;
    FindNothing(id);
    if b != [] {
      var a', b' := if a != [] then a[..|a| - 1] else a, b[..|b| - 1];
      Prefixes(a);
      Prefixes(b);
      FindLast(b', b[|b| - 1], id);
      if a != [] { FindLast(a', a[|a| - 1], id); }
      if a != [] && a[|a| - 1].mid > b[|b| - 1].mid {
        MergedIsOverride(a', b, id);
        FindLast(Merged(a', b), a[|a| - 1], id);
        if id == a[|a| - 1].mid { AboveAll(b, id); }
      } else if a != [] && a[|a| - 1].mid == b[|b| - 1].mid {
        MergedIsOverride(a', b', id);
        FindLast(Merged(a', b'), b[|b| - 1], id);
      } else {
        MergedIsOverride(a, b', id);
        FindLast(Merged(a, b'), b[|b| - 1], id);
      }
    }
  }

  lemma Prefixes(s: seq<Id2>)
    ensures s != [] ==> s == s[..|s| - 1] + [s[|s| - 1]]
    ensures Ascending(s) && s != [] ==> Ascending(s[..|s| - 1])
  {
  }

  predicate AllBelow(s: seq<Id2>, id: nat) {
    forall k :: 0 <= k < |s| ==> s[k].mid < id
  }

  lemma {:induction false} MergedBelow(a: seq<Id2>, b: seq<Id2>, id: nat)
    requires AllBelow(a, id) && AllBelow(b, id)
    ensures AllBelow(Merged(a, b), id)
    decreases |a| + |b|
  {
    if b != [] {
      if a != [] && a[|a| - 1].mid > b[|b| - 1].mid {
        MergedBelow(a[..|a| - 1], b, id);
      } else if a != [] && a[|a| - 1].mid == b[|b| - 1].mid {
        MergedBelow(a[..|a| - 1], b[..|b| - 1], id);
      } else {
        MergedBelow(a, b[..|b| - 1], id);
      }
    }
  }

  lemma AppendAscends(s: seq<Id2>, x: Id2)
    requires Ascending(s) && AllBelow(s, x.mid)
    ensures Ascending(s + [x])
  {
  }

  lemma InitBelow(s: seq<Id2>, id: nat)
    requires Ascending(s) && s != []
    ensures AllBelow(s[..|s| - 1], s[|s| - 1].mid)
    ensures s[|s| - 1].mid < id ==> AllBelow(s, id)
  {
    assert forall k :: 0 <= k < |s| - 1 ==> s[k].mid < s[|s| - 1].mid;
  }

  lemma {:induction false} MergedAscends(a: seq<Id2>, b: seq<Id2>)
    requires Ascending(a) && Ascending(b)
    ensures Ascending(Merged(a, b))
    decreases |a| + |b|
  {
    hide Ascending, AllBelow;
    if b != [] {
      var last := b[|b| - 1];
      var a', b' := if a != [] then a[..|a| - 1] else a, b[..|b| - 1];
      Prefixes(a);
      Prefixes(b);
      InitBelow(b, if a != [] then a[|a| - 1].mid else 0);
      if a != [] { InitBelow(a, last.mid); }
      if a != [] && a[|a| - 1].mid > last.mid {
        MergedAscends(a', b);
        MergedBelow(a', b, a[|a| - 1].mid);
        AppendAscends(Merged(a', b), a[|a| - 1]);
      } else if a != [] && a[|a| - 1].mid == last.mid {
        MergedAscends(a', b');
        MergedBelow(a', b', last.mid);
        AppendAscends(Merged(a', b'), last);
      } else {
        MergedAscends(a, b');
        if a == [] { NoneBelow2(a, last.mid); }
        MergedBelow(a, b', last.mid);
        AppendAscends(Merged(a, b'), last);
      }
    }
  }

  lemma NoneBelow2(s: seq<Id2>, id: nat)
    requires s == []
    ensures AllBelow(s, id)
  {
  }

  // ---------------------------------------------------------------- the merge in place

  /** The state of the merge: M is being written from its end, down to slot i. */
  ghost predicate MergeState(dst: seq<Id2>, a: seq<Id2>, b: seq<Id2>, m: seq<Id2>, x: nat, y: nat, i: nat) {
    && x <= |a| && y <= |b| && x <= i <= |m| < |dst| && dst[0].mid == 0
    && Merged(a[..x], b[..y]) == m[..i]
    && (forall k :: 1 <= k <= x ==> dst[k] == a[k - 1])
    && (forall k :: i < k <= |m| ==> dst[k] == m[k - 1])
  }

  lemma LastOfPrefix(m: seq<Id2>, i: nat, p: seq<Id2>, e: Id2)
    requires i <= |m| && m[..i] == p + [e]
    ensures i > 0 && m[i - 1] == e && m[..i - 1] == p
  {
    assert m[..i][i - 1] == e;
    assert m[..i - 1] == m[..i][..i - 1];
  }

  /** The larger id is the parent's: it moves up. */
  lemma TakeParent(dst: seq<Id2>, a: seq<Id2>, b: seq<Id2>, m: seq<Id2>, x: nat, y: nat, i: nat)
    requires MergeState(dst, a, b, m, x, y, i) && y > 0 && b[y - 1].mid < dst[x].mid
    ensures x > 0 && i > 0 && MergeState(dst[i := dst[x]], a, b, m, x - 1, y, i - 1)
  {
    hide Merged;
    MergeTakesParent(a[..x], b[..y]);
    assert a[..x][..x - 1] == a[..x - 1];
    LastOfPrefix(m, i, Merged(a[..x - 1], b[..y]), a[x - 1]);
    MergedLength(a[..x - 1], b[..y]);
  }

  lemma MergeTakesParent(a: seq<Id2>, b: seq<Id2>)
    requires b != [] && a != [] && a[|a| - 1].mid > b[|b| - 1].mid
    ensures Merged(a, b) == Merged(a[..|a| - 1], b) + [a[|a| - 1]]
  {
  }

  /** The child's id is taken, and the parent's copy of the same page dropped. */
  lemma TakeChild(dst: seq<Id2>, a: seq<Id2>, b: seq<Id2>, m: seq<Id2>, x: nat, y: nat, i: nat)
    requires MergeState(dst, a, b, m, x, y, i) && y > 0 && b[y - 1].mid > 0 && b[y - 1].mid >= dst[x].mid
    ensures i > 0
    ensures var x' := if b[y - 1].mid == dst[x].mid then x - 1 else x;
            x' >= 0 && MergeState(dst[i := b[y - 1]], a, b, m, x', y - 1, i - 1)
  {
    hide Merged;
    var x' := if b[y - 1].mid == dst[x].mid then x - 1 else x;
    MergeTakesChild(a[..x], b[..y]);
    assert b[..y][..y - 1] == b[..y - 1];
    assert x' < x ==> a[..x][..x - 1] == a[..x - 1];
    LastOfPrefix(m, i, Merged(a[..x'], b[..y - 1]), b[y - 1]);
    MergedLength(a[..x'], b[..y - 1]);
  }

  lemma MergeTakesChild(a: seq<Id2>, b: seq<Id2>)
    requires b != [] && (a != [] ==> a[|a| - 1].mid <= b[|b| - 1].mid)
    ensures var a' := if a != [] && a[|a| - 1].mid == b[|b| - 1].mid then a[..|a| - 1] else a;
            Merged(a, b) == Merged(a', b[..|b| - 1]) + [b[|b| - 1]]
  {
  }

  predicate Positive(s: seq<Id2>) {
    forall k :: 0 <= k < |s| ==> s[k].mid > 0
  }

  /**
   The backward merge of mdb_txn_commit. `len` is the length of the merged list. The assertion
   after the loop is the source's own.
   */
  method MergeDirty(dst: array<Id2>, src: array<Id2>, len: nat)
    requires dst != src && IsList2(dst) && IsList2(src) && Positive(Ids2(src))
    requires len == |Merged(Ids2(dst), Ids2(src))| < dst.Length
    modifies dst
    ensures IsList2(dst) && Ids2(dst) == Merged(old(Ids2(dst)), Ids2(src))
  {
    hide Merged, MergeState;
    ghost var a, b := Ids2(dst), Ids2(src);
    ghost var m := Merged(a, b);
    var x: nat := dst[0].mid;
    dst[0] := Id2(0, dst[0].mptr);
    var y: nat, i: nat := src[0].mid, len;
    StartMerge(dst[..], a, b, m);
    while y > 0
      invariant y <= |b| && x <= |a| && i <= len && |m| == len
      invariant MergeState(dst[..], a, b, m, x, y, i)
    {
      var yp := src[y].mid;
      assert src[y] == b[y - 1];
      while yp < dst[x].mid
        invariant x <= |a| && i <= len
        invariant MergeState(dst[..], a, b, m, x, y, i)
        decreases x
      {
        InBounds(dst[..], a, b, m, x, y, i);
        TakeParent(dst[..], a, b, m, x, y, i);
        ghost var was := dst[..];
        dst[i] := dst[x];
        assert dst[..] == was[i := was[x]];
        x, i := x - 1, i - 1;
      }
      InBounds(dst[..], a, b, m, x, y, i);
      TakeChild(dst[..], a, b, m, x, y, i);
      if yp == dst[x].mid {
        assert x > 0;
        x := x - 1;
      }
      ghost var was := dst[..];
      dst[i] := src[y];
      assert dst[..] == was[i := b[y - 1]];
      i, y := i - 1, y - 1;
    }
    EndMerge(dst[..], a, b, m, x, i);
    assert i == x;
    dst[0] := Id2(len, dst[0].mptr);
    assert forall k :: 1 <= k <= len ==> dst[k] == m[k - 1];
    assert Ids2(dst) == m;
  }

  lemma StartMerge(dst: seq<Id2>, a: seq<Id2>, b: seq<Id2>, m: seq<Id2>)
    requires m == Merged(a, b) && |m| < |dst| && dst[0].mid == 0
    requires |a| < |dst| && forall k :: 1 <= k <= |a| ==> dst[k] == a[k - 1]
    ensures MergeState(dst, a, b, m, |a|, |b|, |m|)
  {
    MergedLength(a, b);
    assert a[..|a|] == a && b[..|b|] == b && m[..|m|] == m;
  }

  lemma InBounds(dst: seq<Id2>, a: seq<Id2>, b: seq<Id2>, m: seq<Id2>, x: nat, y: nat, i: nat)
    requires MergeState(dst, a, b, m, x, y, i)
    ensures x < |dst| && i < |dst| && (dst[x].mid > 0 ==> x > 0)
  {
  }

  lemma EndMerge(dst: seq<Id2>, a: seq<Id2>, b: seq<Id2>, m: seq<Id2>, x: nat, i: nat)
    requires MergeState(dst, a, b, m, x, 0, i)
    ensures x == i && x <= |m| < |dst| && forall k :: 1 <= k <= |m| ==> dst[k] == m[k - 1]
  {
    assert Merged(a[..x], b[..0]) == a[..x];
    assert |a[..x]| == |m[..i]|;
    assert forall k :: 0 <= k < x ==> a[..x][k] == m[..i][k];
  }

  lemma MergedKeys(a: seq<Id2>, b: seq<Id2>)
    requires Ascending(a) && Ascending(b)
    ensures Keys(Merged(a, b)) == Keys(a) + Keys(b)
    ensures |Merged(a, b)| == |Keys(a) + Keys(b)|
  {
    hide Find, Merged, Ascending;
    forall id
      ensures id in Keys(Merged(a, b)) <==> id in Keys(a) + Keys(b)
    {
      MergedIsOverride(a, b, id);
      FindHas(a, id);
      FindHas(b, id);
      FindHas(Merged(a, b), id);
    }
    MergedAscends(a, b);
    KeysCount(Merged(a, b));
  }
}
