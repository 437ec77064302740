/** The lists of a nested transaction at its commit: mdb_txn_commit with a parent. */
module NestedCommit {
  import opened Base
  import opened IdList
  import opened IdSort
  import opened NestedTxn
  import opened DirtyLists

  // ---------------------------------------------------------------- the child's spilled pages

  /** The list without the id at position y. */
  function Dropped(s: seq<Id2>, y: nat): seq<Id2>
    requires y < |s|
  {
    s[..y] + s[y + 1..]
  }

  method RemoveAt2(ids: array<Id2>, y: nat)
    requires IsList2(ids) && 1 <= y <= ids[0].mid
    modifies ids
    ensures IsList2(ids) && Ids2(ids) == Dropped(old(Ids2(ids)), y - 1)
  {
    ghost var s := Ids2(ids);
    var n := ids[0].mid;
    var i := y;
    while i < n
      invariant y <= i <= n && ids[0] == old(ids[0])
      invariant forall k :: 1 <= k < i ==> ids[k] == if k < y then old(ids[k]) else old(ids[k + 1])
      invariant forall k :: i <= k <= n ==> ids[k] == old(ids[k])
    {
      ids[i] := ids[i + 1];
      i := i + 1;
    }
    ids[0] := Id2(n - 1, ids[0].mptr);
    assert forall k :: 1 <= k <= n ==> old(ids[k]) == s[k - 1];
    assert Ids2(ids) == Dropped(s, y - 1);
  }

  lemma FindAt(s: seq<Id2>, k: nat)
    requires Ascending(s) && k < |s|
    ensures Find(s, s[k].mid) == Some(s[k].mptr)
    decreases |s|
  {
    if k < |s| - 1 {
      assert s[..|s| - 1][k] == s[k];
      FindAt(s[..|s| - 1], k);
    }
  }

  lemma FindAbsent(s: seq<Id2>, id: nat)
    requires !HasId(s, id)
    ensures Find(s, id).None?
  {
    FindHas(s, id);
  }

  lemma DroppedFinds(s: seq<Id2>, y: nat, id: nat)
    requires Ascending(s) && y < |s|
    ensures Ascending(Dropped(s, y))
    ensures Find(Dropped(s, y), id) == if id == s[y].mid then None else Find(s, id)
  {
    hide Find;
    var r := Dropped(s, y);
    assert forall k :: 0 <= k < |r| ==> r[k] == s[if k < y then k else k + 1];
    if HasId(s, id) {
      var k :| 0 <= k < |s| && s[k].mid == id;
      FindAt(s, k);
      if k == y {
        FindAbsent(r, id);
      } else {
        FindAt(r, if k < y then k else k - 1);
      }
    } else {
      FindAbsent(s, id);
      FindAbsent(r, id);
    }
  }

  /** Whether a spill list has page p, not marked as deleted. */
  predicate HasSpilled(s: seq<ID>, p: nat) {
    exists k :: 0 <= k < |s| && s[k] == 2 * p
  }

  /** Removes the pages of the child's spill list from the parent's dirty list. */
  method RemoveSpilled(dst: array<Id2>, spill: array<ID>)
    requires IsList2(dst) && Ascending(Ids2(dst)) && IsList(spill)
    modifies dst
    ensures IsList2(dst) && Ascending(Ids2(dst))
    ensures forall p :: Find(Ids2(dst), p) == if HasSpilled(Ids(spill), p) then None else old(Find(Ids2(dst), p))
  {
    hide Find, CountBelow, HasSpilled;
    ghost var s := Ids(spill);
    ghost var was := Ids2(dst);
    var n: nat := spill[0];
    var i := 1;
    NoneSpilled(s);
    while i <= n
      invariant 1 <= i <= n + 1 && n == |s|
      invariant IsList2(dst) && Ascending(Ids2(dst))
      invariant forall p :: Find(Ids2(dst), p) == if HasSpilled(s[..i - 1], p) then None else Find(was, p)
    {
      var pn: nat := spill[i];
      assert pn == s[i - 1];
      ghost var now := Ids2(dst);
      NextSpilled(s, i - 1);
      if pn % 2 == 0 {
        var y := Search2(dst, pn / 2);
        FoundAtCount(now, pn / 2);
        if y <= dst[0].mid && dst[y].mid == pn / 2 {
          assert dst[y] == now[y - 1];
          RemoveAt2(dst, y);
          forall p ensures Find(Ids2(dst), p) == if p == pn / 2 then None else Find(now, p) {
            DroppedFinds(now, y - 1, p);
          }
          DroppedFinds(now, y - 1, 0);
        } else {
          assert y <= |now| ==> dst[y] == now[y - 1];
          FindAbsent(now, pn / 2);
        }
      }
      i := i + 1;
    }
    assert s[..n] == s;
  }

  lemma NoneSpilled(s: seq<ID>)
    ensures forall p :: !HasSpilled(s[..0], p)
  {
  }

  lemma NextSpilled(s: seq<ID>, i: nat)
    requires i < |s|
    ensures forall p: nat :: HasSpilled(s[..i + 1], p) <==> HasSpilled(s[..i], p) || s[i] == 2 * p
  {
    forall p: nat
      ensures HasSpilled(s[..i + 1], p) <==> HasSpilled(s[..i], p) || s[i] == 2 * p
    {
      if HasSpilled(s[..i], p) {
        var k :| 0 <= k < |s[..i]| && s[..i][k] == 2 * p;
        assert s[..i + 1][k] == 2 * p;
      }
      if s[i] == 2 * p {
        assert s[..i + 1][i] == 2 * p;
      }
      if HasSpilled(s[..i + 1], p) {
        var k :| 0 <= k < |s[..i + 1]| && s[..i + 1][k] == 2 * p;
        assert k < i ==> s[..i][k] == 2 * p;
      }
    }
  }

  // ---------------------------------------------------------------- the parent's spilled pages

  /** Spill lists are sorted; only deletion marks, the odd entries, can be there more than once. */
  predicate SpillSorted(s: seq<ID>) {
    forall i, j :: 0 <= i < j < |s| ==> s[i] > s[j] || (s[i] == s[j] && s[i] % 2 == 1)
  }

  /** A slot of the parent's spill list, after the child's dirty pages have been marked in it. */
  function Mark(e: ID, b: seq<Id2>): ID {
    if e % 2 == 0 && HasId(b, e / 2) then 1 else e
  }

  /** Page numbers, doubled, are below the sentinel. */
  predicate SmallIds(b: seq<Id2>) {
    forall j :: 0 <= j < |b| ==> 2 * b[j].mid < MAX_ID
  }

  ghost predicate Marking(ps: seq<ID>, l: seq<ID>, b: seq<Id2>, x: nat, y: nat, i: nat) {
    && |l| < |ps| && x <= y <= |l| && i <= |b| && ps[0] == MAX_ID
    && (forall k :: 1 <= k <= y ==> ps[k] == l[k - 1])
    && (forall k :: x < k <= |l| ==> ps[k] == Mark(l[k - 1], b))
    && (forall k, j :: x <= k < |l| && i <= j < |b| ==> l[k] < 2 * b[j].mid)
    && (forall k, j :: 0 <= k < x && 0 <= j < i ==> 2 * b[j].mid < l[k])
    && SmallIds(b)
  }

  lemma SkipSmaller(ps: seq<ID>, l: seq<ID>, b: seq<Id2>, x: nat, y: nat, i: nat)
    requires Marking(ps, l, b, x, y, i) && Ascending(b) && i < |b| && 2 * b[i].mid > ps[x]
    ensures x > 0 && Marking(ps, l, b, x - 1, y, i)
  {
    assert forall j :: i <= j < |b| ==> b[i].mid <= b[j].mid;
    if HasId(b, ps[x] / 2) {
      var j :| 0 <= j < |b| && b[j].mid == ps[x] / 2;
    }
  }

  lemma MarkFound(ps: seq<ID>, l: seq<ID>, b: seq<Id2>, x: nat, y: nat, i: nat)
    requires Marking(ps, l, b, x, y, i) && Ascending(b) && SpillSorted(l) && i < |b| && 2 * b[i].mid == ps[x]
    ensures x > 0 && Marking(ps[x := 1], l, b, x - 1, x - 1, i + 1)
  {
    assert HasId(b, ps[x] / 2) by { assert b[i].mid == ps[x] / 2; }
    assert forall j :: i < j < |b| ==> b[i].mid < b[j].mid;
    assert forall k :: 0 <= k < x - 1 ==> l[k] > l[x - 1];
    assert forall k :: x <= k < |l| ==> l[x - 1] > l[k];
    assert forall j :: 0 <= j < i ==> b[j].mid < b[i].mid;
  }

  lemma PassOver(ps: seq<ID>, l: seq<ID>, b: seq<Id2>, x: nat, y: nat, i: nat)
    requires Marking(ps, l, b, x, y, i) && SpillSorted(l) && Ascending(b) && i < |b| && 2 * b[i].mid < ps[x]
    ensures Marking(ps, l, b, x, y, i + 1)
  {
    assert forall k :: 0 <= k < x - 1 ==> l[k] >= l[x - 1];
  }

  /** Marks the child's dirty pages in the parent's spill list, using slot 0 as a sentinel. */
  method MarkDirty(ps: array<ID>, src: array<Id2>) returns (y: nat)
    requires IsList(ps) && SpillSorted(Ids(ps))
    requires IsList2(src) && Ascending(Ids2(src)) && SmallIds(Ids2(src))
    modifies ps
    ensures y <= old(ps[0]) && ps[0] == MAX_ID
    ensures forall k :: 1 <= k <= y ==> ps[k] == old(ps[k]) && Mark(ps[k], Ids2(src)) == ps[k]
    ensures forall k :: y < k <= old(ps[0]) ==> ps[k] == Mark(old(ps[k]), Ids2(src))
  {
    hide Marking, Mark;
    ghost var l, b := Ids(ps), Ids2(src);
    var x: nat := ps[0];
    y := x;
    ps[0] := MAX_ID;
    StartMarking(ps[..], l, b);
    var i := 0;
    while i < src[0].mid
      invariant 0 <= i <= |b| == src[0].mid && x <= |l|
      invariant Marking(ps[..], l, b, x, y, i)
    {
      var pn: nat := 2 * src[i + 1].mid;
      assert src[i + 1] == b[i];
      while pn > ps[x]
        invariant x <= |l| && Marking(ps[..], l, b, x, y, i)
        decreases x
      {
        SkipSmaller(ps[..], l, b, x, y, i);
        x := x - 1;
      }
      if pn == ps[x] {
        MarkFound(ps[..], l, b, x, y, i);
        ghost var was := ps[..];
        ps[x] := 1;
        assert ps[..] == was[x := 1];
        x := x - 1;
        y := x;
      } else {
        PassOver(ps[..], l, b, x, y, i);
      }
      i := i + 1;
    }
    EndMarking(ps[..], l, b, x, y);
    assert forall k :: 1 <= k <= |l| ==> l[k - 1] == old(ps[k]);
  }

  lemma StartMarking(ps: seq<ID>, l: seq<ID>, b: seq<Id2>)
    requires |l| < |ps| && ps[0] == MAX_ID && (forall k :: 1 <= k <= |l| ==> ps[k] == l[k - 1]) && SmallIds(b)
    ensures Marking(ps, l, b, |l|, |l|, 0)
  {
  }

  lemma EndMarking(ps: seq<ID>, l: seq<ID>, b: seq<Id2>, x: nat, y: nat)
    requires Marking(ps, l, b, x, y, |b|)
    ensures y <= |l| < |ps| && ps[0] == MAX_ID
    ensures forall k :: 1 <= k <= y ==> ps[k] == l[k - 1] && Mark(ps[k], b) == ps[k]
    ensures forall k :: y < k <= |l| ==> ps[k] == Mark(l[k - 1], b)
  {
    forall k | 1 <= k <= y
      ensures Mark(ps[k], b) == ps[k]
    {
      if k <= x && HasId(b, ps[k] / 2) {
        var j :| 0 <= j < |b| && b[j].mid == ps[k] / 2;
      }
    }
  }

  /** What the squashing has kept of the first x slots. */
  ghost predicate Squashing(ps: seq<ID>, l: seq<ID>, b: seq<Id2>, x: nat, y: nat) {
    && y <= x <= |l| < |ps|
    && (forall k :: x < k <= |l| ==> ps[k] == Mark(l[k - 1], b))
    && SpillSorted(ps[1..y + 1])
    && (forall j, k :: 1 <= j <= y && x <= k < |l| ==> ps[j] > l[k] || (ps[j] == l[k] && l[k] % 2 == 1))
    && (forall p: nat :: HasSpilled(ps[1..y + 1], p) <==> HasSpilled(l[..x], p) && !HasId(b, p))
  }

  lemma StartSquash(ps: seq<ID>, l: seq<ID>, b: seq<Id2>, y: nat)
    requires SpillSorted(l) && y <= |l| < |ps|
    requires forall k :: 1 <= k <= y ==> ps[k] == l[k - 1] && Mark(ps[k], b) == ps[k]
    requires forall k :: y < k <= |l| ==> ps[k] == Mark(l[k - 1], b)
    ensures Squashing(ps, l, b, y, y)
  {
    assert ps[1..y + 1] == l[..y];
    forall p: nat | HasSpilled(l[..y], p)
      ensures !HasId(b, p)
    {
      var k :| 0 <= k < y && l[..y][k] == 2 * p;
      assert ps[k + 1] == 2 * p;
    }
  }

  lemma AppendDescends(s: seq<ID>, e: ID)
    requires SpillSorted(s) && forall j :: 0 <= j < |s| ==> s[j] > e
    ensures SpillSorted(s + [e])
  {
  }

  /** An even slot holds what it held before the marking, and not a page of the child's. */
  lemma MarkedEven(e: ID, b: seq<Id2>)
    requires Mark(e, b) % 2 == 0
    ensures Mark(e, b) == e && forall p: nat :: e == 2 * p ==> !HasId(b, p)
  {
    assert forall p: nat :: e == 2 * p ==> e / 2 == p;
  }

  lemma MarkedOdd(e: ID, b: seq<Id2>)
    requires Mark(e, b) % 2 == 1
    ensures forall p: nat :: e == 2 * p ==> HasId(b, p)
  {
    assert forall p: nat :: e == 2 * p ==> e / 2 == p;
  }

  lemma KeepSlot(ps: seq<ID>, l: seq<ID>, b: seq<Id2>, x: nat, y: nat)
    requires Squashing(ps, l, b, x, y) && SpillSorted(l) && x < |l| && ps[x + 1] % 2 == 0
    ensures y + 1 < |ps| && Squashing(ps[y + 1 := ps[x + 1]], l, b, x + 1, y + 1)
  {
    var e := ps[x + 1];
    var ps' := ps[y + 1 := e];
    var s := ps[1..y + 1];
    MarkedEven(l[x], b);
    assert ps'[1..y + 2] == s + [e];
    AppendDescends(s, e);
    forall j, k | 1 <= j <= y + 1 && x + 1 <= k < |l|
      ensures ps'[j] > l[k] || (ps'[j] == l[k] && l[k] % 2 == 1)
    {
      assert l[x] > l[k];
    }
    KeptOne(s, l, b, x);
  }

  lemma KeptOne(s: seq<ID>, l: seq<ID>, b: seq<Id2>, x: nat)
    requires x < |l| && forall p: nat :: HasSpilled(s, p) <==> HasSpilled(l[..x], p) && !HasId(b, p)
    requires forall p: nat :: l[x] == 2 * p ==> !HasId(b, p)
    ensures forall p: nat :: HasSpilled(s + [l[x]], p) <==> HasSpilled(l[..x + 1], p) && !HasId(b, p)
  {
    hide HasSpilled, HasId;
    assert l[..x + 1] == l[..x] + [l[x]];
    forall p: nat
      ensures HasSpilled(s + [l[x]], p) <==> HasSpilled(l[..x + 1], p) && !HasId(b, p)
    {
      AddOne(s, l[x], p);
      AddOne(l[..x], l[x], p);
    }
  }

  lemma AddOne(s: seq<ID>, e: ID, p: nat)
    ensures HasSpilled(s + [e], p) <==> HasSpilled(s, p) || e == 2 * p
  {
    if HasSpilled(s, p) {
      var k :| 0 <= k < |s| && s[k] == 2 * p;
      assert (s + [e])[k] == 2 * p;
    }
    if e == 2 * p {
      assert (s + [e])[|s|] == 2 * p;
    }
  }

  lemma DropSlot(ps: seq<ID>, l: seq<ID>, b: seq<Id2>, x: nat, y: nat)
    requires Squashing(ps, l, b, x, y) && x < |l| && ps[x + 1] % 2 == 1
    ensures Squashing(ps, l, b, x + 1, y)
  {
    hide HasSpilled, HasId, Mark;
    MarkedOdd(l[x], b);
    KeptNone(ps[1..y + 1], l, b, x);
  }

  lemma KeptNone(s: seq<ID>, l: seq<ID>, b: seq<Id2>, x: nat)
    requires x < |l| && forall p: nat :: HasSpilled(s, p) <==> HasSpilled(l[..x], p) && !HasId(b, p)
    requires forall p: nat :: l[x] == 2 * p ==> HasId(b, p)
    ensures forall p: nat :: HasSpilled(s, p) <==> HasSpilled(l[..x + 1], p) && !HasId(b, p)
  {
    hide HasSpilled, HasId;
    assert l[..x + 1] == l[..x] + [l[x]];
    forall p: nat
      ensures HasSpilled(s, p) <==> HasSpilled(l[..x + 1], p) && !HasId(b, p)
    {
      AddOne(l[..x], l[x], p);
    }
  }

  /** Squashes the deleted slots after slot y0 out of the list. */
  method Squash(ps: array<ID>, y0: nat, n: nat, ghost l: seq<ID>, ghost b: seq<Id2>)
    requires n == |l| < ps.Length <= MAX_ID && SpillSorted(l) && Squashing(ps[..], l, b, y0, y0)
    modifies ps
    ensures IsList(ps) && SpillSorted(Ids(ps)) && ps[0] <= n
    ensures forall p: nat :: HasSpilled(Ids(ps), p) <==> HasSpilled(l, p) && !HasId(b, p)
  {
    hide Squashing, Mark, HasSpilled, SpillSorted;
    var x: nat, y: nat := y0, y0;
    SquashBounds(ps[..], l, b, x, y);
    while x < n
      invariant y <= x <= n && Squashing(ps[..], l, b, x, y)
    {
      if ps[x + 1] % 2 == 0 {
        KeepSlot(ps[..], l, b, x, y);
        ghost var was := ps[..];
        ps[y + 1] := ps[x + 1];
        assert ps[..] == was[y + 1 := was[x + 1]];
        y := y + 1;
      } else {
        DropSlot(ps[..], l, b, x, y);
      }
      x := x + 1;
    }
    EndSquash(ps[..], l, b, y);
    ghost var was := ps[1..y + 1];
    assert ps[..][1..y + 1] == was;
    ps[0] := y;
    assert ps[1..y + 1] == was;
  }

  lemma SquashBounds(ps: seq<ID>, l: seq<ID>, b: seq<Id2>, x: nat, y: nat)
    requires Squashing(ps, l, b, x, y)
    ensures y <= x <= |l| < |ps|
  {
  }

  lemma EndSquash(ps: seq<ID>, l: seq<ID>, b: seq<Id2>, y: nat)
    requires Squashing(ps, l, b, |l|, y)
    ensures y < |ps| && SpillSorted(ps[1..y + 1])
    ensures forall p: nat :: HasSpilled(ps[1..y + 1], p) <==> HasSpilled(l, p) && !HasId(b, p)
  {
    assert l[..|l|] == l;
  }

  // ---------------------------------------------------------------- deeper nesting

  /** How many pages two lists have in common. */
  ghost function Overlap(a: seq<Id2>, b: seq<Id2>): int {
    |a| + |b| - |Merged(a, b)|
  }

  lemma {:induction false} OverlapEmpty(a: seq<Id2>, b: seq<Id2>)
    requires a == [] || b == []
    ensures Overlap(a, b) == 0
    decreases |b|
  {
    if a == [] && b != [] {
      OverlapEmpty(a, b[..|b| - 1]);
    }
  }

  /** The parent's last page is not the child's. */
  lemma OverlapParent(a: seq<Id2>, b: seq<Id2>, x: nat, y: nat)
    requires 0 < x <= |a| && 0 < y <= |b| && a[x - 1].mid > b[y - 1].mid
    ensures Overlap(a[..x], b[..y]) == Overlap(a[..x - 1], b[..y])
  {
    MergeTakesParent(a[..x], b[..y]);
    assert a[..x][..x - 1] == a[..x - 1];
  }

  /** The child's last page may be the parent's. */
  lemma OverlapChild(a: seq<Id2>, b: seq<Id2>, x: nat, y: nat)
    requires x <= |a| && 0 < y <= |b| && (x > 0 ==> a[x - 1].mid <= b[y - 1].mid)
    ensures var same := x > 0 && a[x - 1].mid == b[y - 1].mid;
            Overlap(a[..x], b[..y]) ==
            if same then Overlap(a[..x - 1], b[..y - 1]) + 1 else Overlap(a[..x], b[..y - 1])
  {
    MergeTakesChild(a[..x], b[..y]);
    assert b[..y][..y - 1] == b[..y - 1];
    assert x > 0 ==> a[..x][..x - 1] == a[..x - 1];
  }

  /** The child's pages above all of the parent's are not in common. */
  lemma {:induction false} OverlapAbove(a: seq<Id2>, b: seq<Id2>, y: nat)
    requires y <= |b| && (a != [] ==> forall k :: y <= k < |b| ==> a[|a| - 1].mid < b[k].mid)
    ensures Overlap(a, b) == Overlap(a, b[..y])
    decreases |b|
  {
    if y < |b| {
      var n := |b|;
      assert a[..|a|] == a && b[..n] == b && b[..n - 1][..y] == b[..y];
      OverlapChild(a, b, |a|, n);
      assert forall k :: y <= k < n - 1 ==> b[..n - 1][k] == b[k];
      OverlapAbove(a, b[..n - 1], y);
    } else {
      assert b[..y] == b;
    }
  }

  /**
   The length of the merged list when the parent is itself nested: mt_dirty_room then also counts
   pages of older ancestors, so the pages in common are counted.
   */
  method CountMerged(dst: array<Id2>, src: array<Id2>) returns (len: int)
    requires IsList2(dst) && IsList2(src) && Ascending(Ids2(dst)) && Ascending(Ids2(src)) && Positive(Ids2(src))
    ensures len == |Merged(Ids2(dst), Ids2(src))|
  {
    hide Merged, CountBelow;
    ghost var a, b := Ids2(dst), Ids2(src);
    var x := dst[0].mid;
    len := x + src[0].mid;
    var above := if x == 0 then 0 else dst[x].mid;
    var y := Search2(src, above + 1);
    y := y - 1;
    CountBelowSplits(b, above + 1);
    assert x > 0 ==> dst[x] == a[x - 1];
    OverlapAbove(a, b, y);
    assert a[..x] == a;
    var i := x;
    while y > 0 && i > 0
      invariant 0 <= y <= |b| && 0 <= i <= |a|
      invariant len - Overlap(a[..i], b[..y]) == |Merged(a, b)|
      decreases y
    {
      var yp := src[y].mid;
      assert src[y] == b[y - 1];
      while i > 0 && yp < dst[i].mid
        invariant 0 <= i <= |a|
        invariant len - Overlap(a[..i], b[..y]) == |Merged(a, b)|
      {
        assert dst[i] == a[i - 1];
        OverlapParent(a, b, i, y);
        i := i - 1;
      }
      assert i > 0 ==> dst[i] == a[i - 1];
      OverlapChild(a, b, i, y);
      if i > 0 && yp == dst[i].mid {
        i, len := i - 1, len - 1;
      }
      y := y - 1;
    }
    OverlapEmpty(a[..i], b[..y]);
  }

  // ---------------------------------------------------------------- the child's spill list

  lemma AtTwoPlaces(s: seq<ID>, i: nat, j: nat)
    requires i < j < |s| && s[i] == s[j]
    ensures multiset(s)[s[i]] >= 2
  {
    assert s == s[..i] + [s[i]] + s[i + 1..];
    assert s[i + 1..][j - i - 1] == s[i] && s[i] in multiset(s[i + 1..]);
  }

  lemma {:induction false} EvenOnce(s: seq<ID>, e: ID)
    requires SpillSorted(s) && e % 2 == 0
    ensures multiset(s)[e] <= 1
  {
    if s != [] {
      assert s == [s[0]] + s[1..];
      if s[0] == e {
        assert forall k :: 0 <= k < |s[1..]| ==> s[1..][k] == s[k + 1] && s[1..][k] != e;
        assert e !in multiset(s[1..]);
      } else {
        EvenOnce(s[1..], e);
      }
    }
  }

  /** Sorting the two lists together. */
  lemma SortedTogether(a: seq<ID>, b: seq<ID>, m: seq<ID>)
    requires SpillSorted(a) && SpillSorted(b) && (forall p: nat :: !HasSpilled(a, p) || !HasSpilled(b, p))
    requires Descending(m) && multiset(m) == multiset(a + b)
    ensures SpillSorted(m)
    ensures forall p: nat :: HasSpilled(m, p) <==> HasSpilled(a, p) || HasSpilled(b, p)
  {
    hide SpillSorted, HasSpilled;
    assert multiset(m) == multiset(a) + multiset(b);
    forall i, j | 0 <= i < j < |m|
      ensures m[i] > m[j] || (m[i] == m[j] && m[i] % 2 == 1)
    {
      if m[i] == m[j] && m[i] % 2 == 0 {
        AtTwoPlaces(m, i, j);
        EvenOnce(a, m[i]);
        EvenOnce(b, m[i]);
        SpilledMember(a, m[i] / 2);
        SpilledMember(b, m[i] / 2);
      }
    }
    SortedMeans(m);
    forall p: nat
      ensures HasSpilled(m, p) <==> HasSpilled(a, p) || HasSpilled(b, p)
    {
      SpilledMember(a, p);
      SpilledMember(b, p);
      SpilledMember(m, p);
    }
  }

  lemma SortedMeans(s: seq<ID>)
    requires forall i, j :: 0 <= i < j < |s| ==> s[i] > s[j] || (s[i] == s[j] && s[i] % 2 == 1)
    ensures SpillSorted(s)
  {
  }

  lemma SpilledMember(s: seq<ID>, p: nat)
    ensures HasSpilled(s, p) <==> 2 * p in multiset(s)
  {
    if HasSpilled(s, p) {
      var k :| 0 <= k < |s| && s[k] == 2 * p;
      assert s[k] in multiset(s);
    }
    if 2 * p in multiset(s) {
      assert 2 * p in s;
    }
  }

  /** mdb_midl_grow */
  method Grow(ids: array<ID>, num: nat) returns (r: array<ID>)
    requires IsList(ids) && ids.Length + num <= MAX_ID
    ensures IsList(r) && fresh(r) && r.Length == ids.Length + num && Ids(r) == Ids(ids)
  {
    r := new ID[ids.Length + num](i => 0);
    forall i | 0 <= i <= ids[0] {
      r[i] := ids[i];
    }
    assert Ids(r) == Ids(ids);
  }

  /** memcpy behind the list */
  method CopyBehind(r: array<ID>, app: array<ID>)
    requires r != app && IsList(r) && IsList(app) && r[0] + app[0] < r.Length
    modifies r
    ensures IsList(r) && Ids(r) == old(Ids(r)) + Ids(app)
  {
    ghost var a, b := Ids(r), Ids(app);
    var n: nat, add: nat := r[0], app[0];
    forall i | 1 <= i <= add {
      r[n + i] := app[i];
    }
    assert r[1..n + 1] == a && r[n + 1..n + add + 1] == b;
    r[0] := n + add;
    assert Ids(r) == r[1..n + 1] + r[n + 1..n + add + 1];
  }

  /** mdb_midl_append_list, which moves the list to more space if it has too little. */
  method AppendList(ids: array<ID>, app: array<ID>) returns (r: array<ID>)
    requires ids != app && IsList(ids) && IsList(app) && ids.Length + app[0] <= MAX_ID
    modifies ids
    ensures IsList(r) && (r == ids || fresh(r)) && Ids(r) == old(Ids(ids)) + Ids(app)
  {
    r := ids;
    if ids[0] + app[0] >= ids.Length - 1 {
      r := Grow(ids, app[0]);
    }
    CopyBehind(r, app);
  }

  /** The child's spilled pages join the parent's, and the list is sorted again. */
  method AppendSpilled(pspill: array<ID>, spill: array<ID>) returns (r: array<ID>)
    requires pspill != spill && IsList(pspill) && IsList(spill) && pspill.Length + spill[0] <= MAX_ID
    requires pspill[0] + spill[0] < 0x4000_0000
    requires SpillSorted(Ids(pspill)) && SpillSorted(Ids(spill))
    requires forall p: nat :: !HasSpilled(Ids(pspill), p) || !HasSpilled(Ids(spill), p)
    modifies pspill
    ensures IsList(r) && (r == pspill || fresh(r)) && SpillSorted(Ids(r))
    ensures multiset(Ids(r)) == multiset(old(Ids(pspill)) + Ids(spill))
    ensures forall p: nat :: HasSpilled(Ids(r), p) <==> old(HasSpilled(Ids(pspill), p)) || HasSpilled(Ids(spill), p)
  {
    hide SpillSorted, HasSpilled;
    ghost var a, b := Ids(pspill), Ids(spill);
    r := AppendList(pspill, spill);
    Sort(r);
    SortedTogether(a, b, Ids(r));
  }

  // ---------------------------------------------------------------- the commit

  /** Removes the child's dirty pages from the parent's spill list. */
  method UnlistDirty(pspill: array<ID>, src: array<Id2>)
    requires IsList2(src) && IsList(pspill) && Ascending(Ids2(src)) && SmallIds(Ids2(src))
    requires SpillSorted(Ids(pspill))
    modifies pspill
    ensures IsList(pspill) && SpillSorted(Ids(pspill)) && pspill[0] <= old(pspill[0])
    ensures forall p: nat :: HasSpilled(Ids(pspill), p) <==> old(HasSpilled(Ids(pspill), p)) && !HasId(Ids2(src), p)
  {
    hide Mark, Squashing, HasSpilled, SmallIds, HasId;
    ghost var b, l := Ids2(src), Ids(pspill);
    var n: nat := pspill[0];
    if n > 0 {
      var y := MarkDirty(pspill, src);
      assert forall k :: 1 <= k <= |l| ==> l[k - 1] == old(pspill[k]);
      StartSquash(pspill[..], l, b, y);
      Squash(pspill, y, n, l, b);
    } else {
      NothingSpilled(l);
    }
  }

  /**
   What mdb_txn_commit does to the lists of the parent: the child's dirty pages are taken off its
   spill list, the child's spilled pages off its dirty list, the dirty lists are merged, and the
   spill lists are joined. The length of the merged list follows from the child's dirty room.
   */
  method CommitLists(dst: array<Id2>, src: array<Id2>, pspill: array<ID>, spill: array<ID>, room: nat)
    returns (pspill': array<ID>)
    requires dst != src && pspill != spill
    requires IsList2(dst) && IsList2(src) && IsList(pspill) && IsList(spill)
    requires dst.Length == DIRTY_MAX + 1 && Ascending(Ids2(dst)) && Ascending(Ids2(src))
    requires Positive(Ids2(src)) && SmallIds(Ids2(src)) && SpillSorted(Ids(pspill)) && SpillSorted(Ids(spill))
    requires forall p: nat :: !HasSpilled(Ids(pspill), p) || !HasSpilled(Ids(spill), p)
    requires pspill.Length + spill[0] <= MAX_ID && pspill[0] + spill[0] < 0x4000_0000
    requires room + |(Keys(Ids2(dst)) - Spilled(Ids(spill))) + Keys(Ids2(src))| == DIRTY_MAX
    modifies dst, pspill
    ensures IsList2(dst) && Ascending(Ids2(dst)) && IsList(pspill') && SpillSorted(Ids(pspill'))
    ensures forall p :: Find(Ids2(dst), p) ==
                        if Find(Ids2(src), p).Some? then Find(Ids2(src), p)
                        else if HasSpilled(Ids(spill), p) then None
                        else old(Find(Ids2(dst), p))
    ensures forall p: nat :: HasSpilled(Ids(pspill'), p) <==>
                             (old(HasSpilled(Ids(pspill), p)) && !HasId(Ids2(src), p)) || HasSpilled(Ids(spill), p)
    ensures room + |Ids2(dst)| == DIRTY_MAX
  {
    hide Find, Keys, Mark, Squashing, HasSpilled, Merged, SmallIds, Positive, SpillSorted;
    ghost var was, b := Ids2(dst), Ids2(src);
    UnlistDirty(pspill, src);
    RemoveSpilled(dst, spill);
    ghost var kept := Ids2(dst);
    KeptKeys(was, kept, Ids(spill));
    MergedKeys(kept, b);
    MergedAscends(kept, b);
    var len := DIRTY_MAX - room;
    MergeDirty(dst, src, len);
    forall p
      ensures Find(Ids2(dst), p) == if Find(b, p).Some? then Find(b, p) else Find(kept, p)
    {
      MergedIsOverride(kept, b, p);
    }
    pspill' := AppendSpilled(pspill, spill);
  }

  lemma NothingSpilled(l: seq<ID>)
    requires l == []
    ensures forall p :: !HasSpilled(l, p)
  {
  }

  /** The pages of a spill list. */
  ghost function Spilled(s: seq<ID>): (r: set<nat>)
    ensures forall p :: p in r <==> HasSpilled(s, p)
  {
    var r := set k | 0 <= k < |s| && s[k] % 2 == 0 :: s[k] / 2;
    SpilledIs(s, r);
    r
  }

  lemma SpilledIs(s: seq<ID>, r: set<nat>)
    requires r == set k | 0 <= k < |s| && s[k] % 2 == 0 :: s[k] / 2
    ensures forall p :: p in r <==> HasSpilled(s, p)
  {
    forall p: nat
      ensures p in r <==> HasSpilled(s, p)
    {
      if HasSpilled(s, p) {
        var k :| 0 <= k < |s| && s[k] == 2 * p;
        assert s[k] / 2 == p;
      }
    }
  }

  lemma KeptKeys(s: seq<Id2>, kept: seq<Id2>, spill: seq<ID>)
    requires forall p :: Find(kept, p) == if HasSpilled(spill, p) then None else Find(s, p)
    ensures Keys(kept) == Keys(s) - Spilled(spill)
  {
    hide Find;
    forall p
      ensures p in Keys(kept) <==> p in Keys(s) - Spilled(spill)
    {
      FindHas(kept, p);
      FindHas(s, p);
    }
  }
}
