/** A branch or leaf page as an array of bytes: mdb_node_add, mdb_node_del and mdb_update_key. */
module SlottedPage {
  import opened Base
  import opened Sizes
  import opened NodeLayout

  /** memcpy from a value. */
  method Copy(mem: array<byte>, at: nat, src: seq<byte>)
    requires at + |src| <= mem.Length
    modifies mem
    ensures HoldsAt(mem[..], at, src)
    ensures forall b :: 0 <= b < mem.Length && (b < at || at + |src| <= b) ==> mem[b] == old(mem[b])
  {
    var i: nat := 0;
    while i < |src|
      invariant i <= |src|
      invariant forall b :: at <= b < at + i ==> mem[b] == src[b - at]
      invariant forall b :: 0 <= b < mem.Length && (b < at || at + i <= b) ==> mem[b] == old(mem[b])
    {
      mem[at + i] := src[i];
      i := i + 1;
    }
  }

  /** memmove of [from, from + len) to higher places. */
  method MoveUp(mem: array<byte>, from: nat, len: nat, dist: nat)
    requires from + len + dist <= mem.Length
    modifies mem
    ensures forall b :: from + dist <= b < from + len + dist ==> mem[b] == old(mem[b - dist])
    ensures forall b :: 0 <= b < mem.Length && (b < from + dist || from + len + dist <= b) ==> mem[b] == old(mem[b])
  {
    var i: nat := len;
    while i > 0
      invariant i <= len
      invariant forall b :: from + dist + i <= b < from + len + dist ==> mem[b] == old(mem[b - dist])
      invariant forall b :: 0 <= b < mem.Length && (b < from + dist + i || from + len + dist <= b) ==> mem[b] == old(mem[b])
    {
      i := i - 1;
      mem[from + dist + i] := mem[from + i];
    }
  }

  /** memmove of [from, from + len) to lower places. */
  method MoveDown(mem: array<byte>, from: nat, len: nat, dist: nat)
    requires dist <= from && from + len <= mem.Length
    modifies mem
    ensures forall b :: from - dist <= b < from + len - dist ==> mem[b] == old(mem[b + dist])
    ensures forall b :: 0 <= b < mem.Length && (b < from - dist || from + len - dist <= b) ==> mem[b] == old(mem[b])
  {
    var i: nat := 0;
    while i < len
      invariant i <= len
      invariant forall b :: from - dist <= b < from + i - dist ==> mem[b] == old(mem[b + dist])
      invariant forall b :: 0 <= b < mem.Length && (b < from - dist || from + i - dist <= b) ==> mem[b] == old(mem[b])
    {
      mem[from - dist + i] := mem[from + i];
      i := i + 1;
    }
  }

  function HalfBytes(n: nat): seq<byte>
    requires n < 0x10000
  {
    [(n % 256) as byte, (n / 256) as byte]
  }

  /** What mdb_node_add can write: the header agrees with the data's size. */
  predicate Storable(node: Node, leaf: bool) {
    && |node.head| == 6 && |node.key| < 0x10000
    && |node.data| == DataLen(node.head + HalfBytes(|node.key|), leaf)
  }

  function Packed(node: Node): seq<byte>
    requires |node.key| < 0x10000
  {
    node.head + HalfBytes(|node.key|) + node.key + node.data
  }

  function PackedLen(node: Node): nat {
    Even(NODESIZE + |node.key| + |node.data|)
  }

  /** Reading back what was written, whatever the pad byte holds. */
  lemma PackedIsNode(node: Node, leaf: bool, pad: seq<byte>)
    requires Storable(node, leaf) && |Packed(node)| + |pad| == PackedLen(node)
    ensures IsNode(Packed(node) + pad, leaf) && View(Packed(node) + pad, leaf) == node
  {
    var raw, head := Packed(node) + pad, node.head + HalfBytes(|node.key|);
    var k, d := |node.key|, |node.data|;
    assert raw[..8] == head;
    assert forall i :: 0 <= i < 8 ==> raw[i] == head[i];
    assert Half(raw, 6) == k;
    assert raw[8..8 + k] == node.key && raw[8 + k..8 + k + d] == node.data;
    assert raw[..6] == node.head;
  }

  /**
   A leaf node worked out by hand: 2 bytes of data, no flags, 3 bytes of key, low bytes first; and
   one whose 0x10203 bytes of data are elsewhere on a page of its own.
   */
  lemma ExampleNode(pad: byte)
    ensures var node := Node([2, 0, 0, 0, 0, 0], [97, 98, 99], [120, 121]);
            && Storable(node, true) && PackedLen(node) == 14
            && Packed(node) + [pad] == [2, 0, 0, 0, 0, 0, 3, 0, 97, 98, 99, 120, 121, pad]
    ensures DataLen([3, 2, 1, 0, 0, 0, 3, 0], true) == 0x10203
    ensures DataLen([3, 2, 1, 0, 1, 0, 3, 0], true) == PGNO_SIZE && DataLen([3, 2, 1, 0, 0, 0, 3, 0], false) == 0
  {
  }

  lemma SliceHolds(m: seq<byte>, at: nat, src: seq<byte>, end: nat)
    requires HoldsAt(m, at, src) && at + |src| <= end <= |m|
    ensures m[at..end] == src + m[at + |src|..end]
  {
    assert m[at..end] == m[at..at + |src|] + m[at + |src|..end];
  }

  ghost predicate SameFrom(m: seq<byte>, m': seq<byte>, from: nat) {
    |m'| == |m| && forall b :: from <= b < |m| ==> m'[b] == m[b]
  }

  ghost predicate SameBelow(m: seq<byte>, m': seq<byte>, to: nat) {
    |m'| == |m| && forall b :: 0 <= b < to && b < |m| ==> m'[b] == m[b]
  }

  method PutNode(mem: array<byte>, at: nat, node: Node, leaf: bool) returns (ghost raw: seq<byte>)
    requires Storable(node, leaf) && at + PackedLen(node) <= mem.Length
    modifies mem
    ensures |raw| == PackedLen(node) && HoldsAt(mem[..], at, raw) && IsNode(raw, leaf) && View(raw, leaf) == node
    ensures SameFrom(old(mem[..]), mem[..], at + PackedLen(node)) && SameBelow(old(mem[..]), mem[..], at)
  {
    Copy(mem, at, Packed(node));
    ghost var end := at + PackedLen(node);
    raw := mem[..][at..end];
    SliceHolds(mem[..], at, Packed(node), end);
    PackedIsNode(node, leaf, mem[..][at + |Packed(node)|..end]);
  }

  // ---------------------------------------------------------------- mp_ptrs

  /** Where slot j is in the page. */
  function SlotPlace(j: nat): nat {
    PAGEHDRSZ + SLOT * j
  }

  /** mp_ptrs[j] */
  function SlotOf(mem: array<byte>, j: nat): nat
    requires SlotPlace(j + 1) <= mem.Length
    reads mem
  {
    mem[SlotPlace(j)] as nat + 256 * mem[SlotPlace(j) + 1] as nat
  }

  /** The first n slots of the page with bytes m. */
  function Slots(m: seq<byte>, n: nat): (s: seq<nat>)
    requires SlotPlace(n) <= |m|
    ensures |s| == n && forall j :: 0 <= j < n ==> s[j] == Half(m, SlotPlace(j))
  {
    seq(n, j requires 0 <= j < n => Half(m, SlotPlace(j)))
  }

  lemma SlotsAre(mem: array<byte>, n: nat)
    requires SlotPlace(n) <= mem.Length
    ensures forall j :: 0 <= j < n ==> Slots(mem[..], n)[j] == SlotOf(mem, j) < 0x10000
  {
  }

  lemma SlotsSame(m: seq<byte>, m': seq<byte>, n: nat)
    requires SlotPlace(n) <= |m| && SameBelow(m, m', SlotPlace(n))
    ensures Slots(m', n) == Slots(m, n)
  {
  }

  lemma SlotsUpdated(m: seq<byte>, m': seq<byte>, n: nat, j: nat, ofs: nat)
    requires j < n && SlotPlace(n) <= |m| && ofs < 0x10000
    requires m' == m[SlotPlace(j) := (ofs % 256) as byte][SlotPlace(j) + 1 := (ofs / 256) as byte]
    ensures Slots(m', n) == Slots(m, n)[j := ofs] && SameFrom(m, m', SlotPlace(n))
  {
    assert Half(m', SlotPlace(j)) == ofs;
  }

  method SetSlot(mem: array<byte>, ghost n: nat, j: nat, ofs: nat)
    requires j < n && SlotPlace(n) <= mem.Length && ofs < 0x10000
    modifies mem
    ensures Slots(mem[..], n) == old(Slots(mem[..], n))[j := ofs]
    ensures SameFrom(old(mem[..]), mem[..], SlotPlace(n))
  {
    hide Slots, SameFrom;
    ghost var m := mem[..];
    mem[SlotPlace(j)], mem[SlotPlace(j) + 1] := (ofs % 256) as byte, (ofs / 256) as byte;
    SlotsUpdated(m, mem[..], n, j, ofs);
  }

  lemma SameFromTrans(m: seq<byte>, m1: seq<byte>, m2: seq<byte>, lo: nat, hi: nat)
    requires SameFrom(m, m1, lo) && SameFrom(m1, m2, hi) && lo <= hi
    ensures SameFrom(m, m2, hi)
  {
  }

  lemma SlotsPrefix(m: seq<byte>, n: nat)
    requires SlotPlace(n + 1) <= |m|
    ensures Slots(m, n + 1)[..n] == Slots(m, n)
  {
  }

  lemma SameFromSelf(m: seq<byte>, from: nat)
    ensures SameFrom(m, m, from)
  {
  }

  /** The slots behind i have moved up by one place. */
  ghost predicate Adding(was: seq<nat>, s: seq<nat>, i: nat) {
    && i <= |was| && |s| == |was| + 1
    && (forall j :: 0 <= j <= i && j < |was| ==> s[j] == was[j])
    && (forall j :: i < j <= |was| ==> s[j] == was[j - 1])
  }

  lemma AddStarts(was: seq<nat>, s: seq<nat>)
    requires |s| == |was| + 1 && s[..|was|] == was
    ensures Adding(was, s, |was|)
  {
    forall j | 0 <= j < |was|
      ensures s[j] == was[j]
    {
      assert s[j] == s[..|was|][j];
    }
  }

  lemma AddStep(was: seq<nat>, s: seq<nat>, i: nat)
    requires Adding(was, s, i) && i > 0
    ensures i < |s| && Adding(was, s[i := s[i - 1]], i - 1)
  {
  }

  lemma AddEnds(was: seq<nat>, s: seq<nat>, x: nat, ofs: nat)
    requires Adding(was, s, x)
    ensures x < |s| && s[x := ofs] == Insert(was, x, ofs)
  {
  }

  /** mp_ptrs with ofs put in at x. */
  method AddSlot(mem: array<byte>, n: nat, x: nat, ofs: nat)
    requires x <= n && SlotPlace(n + 1) <= mem.Length && ofs < 0x10000
    modifies mem
    ensures Slots(mem[..], n + 1) == Insert(old(Slots(mem[..], n)), x, ofs)
    ensures SameFrom(old(mem[..]), mem[..], SlotPlace(n + 1))
  {
    hide SlotOf, Slots, SameFrom, Adding, Insert;
    ghost var m, was := mem[..], Slots(mem[..], n);
    SlotsPrefix(m, n);
    SameFromSelf(m, SlotPlace(n + 1));
    ghost var s: seq<nat> := Slots(m, n + 1);
    AddStarts(was, s);
    var i: nat := n;
    while i > x
      invariant x <= i <= n && Adding(was, s, i)
      invariant s == Slots(mem[..], n + 1) && SameFrom(m, mem[..], SlotPlace(n + 1))
    {
      SlotsAre(mem, n + 1);
      AddStep(was, s, i);
      ghost var m1 := mem[..];
      SetSlot(mem, n + 1, i, SlotOf(mem, i - 1));
      SameFromTrans(m, m1, mem[..], SlotPlace(n + 1), SlotPlace(n + 1));
      s := s[i := s[i - 1]];
      i := i - 1;
    }
    AddEnds(was, s, x, ofs);
    ghost var m1 := mem[..];
    SetSlot(mem, n + 1, x, ofs);
    SameFromTrans(m, m1, mem[..], SlotPlace(n + 1), SlotPlace(n + 1));
  }

  /** Slots before i have been moved to their new places, those before j. */
  ghost predicate Dropping(was: seq<nat>, s: seq<nat>, x: nat, sz: nat, i: nat, j: nat) {
    && x < |was| == |s| && i <= |s| && j == (if i <= x then i else i - 1)
    && (forall k :: 0 <= k < j ==> s[k] == ShiftUp(was[if k < x then k else k + 1], was[x], sz))
    && (forall k :: i <= k < |s| ==> s[k] == was[k])
  }

  lemma DropStep(was: seq<nat>, s: seq<nat>, x: nat, sz: nat, i: nat, j: nat)
    requires Dropping(was, s, x, sz, i, j) && i < |s| && i != x
    ensures s[i] == was[i] && j < |s| && Dropping(was, s[j := ShiftUp(s[i], was[x], sz)], x, sz, i + 1, j + 1)
  {
    hide ShiftUp;
  }

  lemma DropStarts(was: seq<nat>, x: nat, sz: nat)
    requires x < |was|
    ensures Dropping(was, was, x, sz, 0, 0)
  {
  }

  lemma DropPasses(was: seq<nat>, s: seq<nat>, x: nat, sz: nat, i: nat, j: nat)
    requires Dropping(was, s, x, sz, i, j)
    ensures i == x < |s| ==> Dropping(was, s, x, sz, i + 1, j)
    ensures i == |s| ==> DelPtrs(was, x, sz, s[..|s| - 1])
    ensures x < |was| == |s| && i <= |s|
  {
  }

  /** mp_ptrs after node x of sz bytes has gone. */
  method DropSlot(mem: array<byte>, n: nat, x: nat, sz: nat)
    requires x < n && SlotPlace(n) <= mem.Length && SlotOf(mem, x) + sz < 0x10000
    modifies mem
    ensures DelPtrs(old(Slots(mem[..], n)), x, sz, Slots(mem[..], n - 1))
    ensures SameFrom(old(mem[..]), mem[..], SlotPlace(n))
  {
    hide SlotOf, Slots, SameFrom, Dropping, DelPtrs;
    ghost var m, was := mem[..], Slots(mem[..], n);
    SlotsAre(mem, n);
    SameFromSelf(m, SlotPlace(n));
    var ptr := SlotOf(mem, x);
    ghost var s: seq<nat> := was;
    DropStarts(was, x, sz);
    var i: nat, j: nat := 0, 0;
    while i < n
      invariant Dropping(was, s, x, sz, i, j)
      invariant i <= n && s == Slots(mem[..], n) && SameFrom(m, mem[..], SlotPlace(n))
    {
      DropPasses(was, s, x, sz, i, j);
      if i != x {
        SlotsAre(mem, n);
        DropStep(was, s, x, sz, i, j);
        ghost var m1 := mem[..];
        SetSlot(mem, n, j, ShiftUp(SlotOf(mem, i), ptr, sz));
        SameFromTrans(m, m1, mem[..], SlotPlace(n), SlotPlace(n));
        s := s[j := ShiftUp(s[i], ptr, sz)];
        j := j + 1;
      }
      i := i + 1;
    }
    DropPasses(was, s, x, sz, i, j);
    SlotsPrefix(mem[..], n - 1);
  }

  /** mp_ptrs after node x has grown by delta. */
  method LowerSlots(mem: array<byte>, n: nat, x: nat, delta: int)
    requires x < n && SlotPlace(n) <= mem.Length && SlotOf(mem, x) - delta < 0x10000
    requires forall k :: 0 <= k < n ==> delta <= Slots(mem[..], n)[k]
    modifies mem
    ensures GrowPtrs(old(Slots(mem[..], n)), x, delta, Slots(mem[..], n))
    ensures SameFrom(old(mem[..]), mem[..], SlotPlace(n))
  {
    hide SlotOf, Slots, SameFrom;
    ghost var m, was := mem[..], Slots(mem[..], n);
    SlotsAre(mem, n);
    SameFromSelf(m, SlotPlace(n));
    var ptr := SlotOf(mem, x);
    ghost var s: seq<nat> := was;
    var i: nat := 0;
    while i < n
      invariant i <= n && s == Slots(mem[..], n) && SameFrom(m, mem[..], SlotPlace(n))
      invariant forall k :: 0 <= k < i ==> s[k] == Lower(was[k], ptr, delta)
      invariant forall k :: i <= k < n ==> s[k] == was[k]
    {
      SlotsAre(mem, n);
      if SlotOf(mem, i) <= ptr {
        ghost var m1 := mem[..];
        SetSlot(mem, n, i, SlotOf(mem, i) - delta);
        SameFromTrans(m, m1, mem[..], SlotPlace(n), SlotPlace(n));
        s := s[i := s[i] - delta];
      }
      i := i + 1;
    }
  }

  ghost predicate AllNodes(raws: seq<seq<byte>>, leaf: bool) {
    forall i :: 0 <= i < |raws| ==> IsNode(raws[i], leaf)
  }

  ghost function Views(raws: seq<seq<byte>>, leaf: bool): (s: seq<Node>)
    requires AllNodes(raws, leaf)
    ensures |s| == |raws| && forall i :: 0 <= i < |s| ==> s[i] == View(raws[i], leaf)
  {
    seq(|raws|, i requires 0 <= i < |raws| => View(raws[i], leaf))
  }

  /** A page: its bytes m, with the slots growing upwards and the nodes they point to downwards. */
  ghost predicate PageOk(m: seq<byte>, lower: nat, upper: nat, raws: seq<seq<byte>>, leaf: bool) {
    && |m| % 2 == 0 && PAGEHDRSZ <= |m| <= 0x8000
    && lower == SlotPlace(|raws|) <= upper <= |m|
    && Placed(Slots(m, |raws|), Lens(raws), upper, |m|)
    && Holds(m, Slots(m, |raws|), raws)
    && AllNodes(raws, leaf)
  }

  lemma AddKeeps(m: seq<byte>, lower: nat, upper: nat, raws: seq<seq<byte>>, leaf: bool, x: nat, raw: seq<byte>, m': seq<byte>)
    requires PageOk(m, lower, upper, raws, leaf) && x <= |raws| && IsNode(raw, leaf)
    requires |raw| + SLOT <= upper - lower && SameFrom(m, m', upper)
    requires HoldsAt(m', upper - |raw|, raw)
    requires Slots(m', |raws| + 1) == Insert<nat>(Slots(m, |raws|), x, upper - |raw|)
    ensures PageOk(m', lower + SLOT, upper - |raw|, Insert(raws, x, raw), leaf)
    ensures Views(Insert(raws, x, raw), leaf) == Insert(Views(raws, leaf), x, View(raw, leaf))
  {
    hide Sum, Placed, Holds, View, IsNode, HoldsAt, Slots, AllNodes;
    RawLen(raw, leaf);
    var slots := Slots(m, |raws|);
    AddPlaced(slots, Lens(raws), upper, |m|, x, |raw|);
    AddHolds(m, m', slots, raws, upper, x, raw);
    AddViews(raws, leaf, x, raw);
    assert Lens(Insert(raws, x, raw)) == Insert(Lens(raws), x, |raw|);
  }

  lemma AddViews(raws: seq<seq<byte>>, leaf: bool, x: nat, raw: seq<byte>)
    requires AllNodes(raws, leaf) && x <= |raws| && IsNode(raw, leaf)
    ensures AllNodes(Insert(raws, x, raw), leaf)
    ensures Views(Insert(raws, x, raw), leaf) == Insert(Views(raws, leaf), x, View(raw, leaf))
  {
    hide IsNode, View;
  }

  lemma PageCounts(m: seq<byte>, lower: nat, upper: nat, raws: seq<seq<byte>>, leaf: bool)
    requires PageOk(m, lower, upper, raws, leaf)
    ensures lower == SlotPlace(|raws|) <= upper <= |m| <= 0x8000 && AllNodes(raws, leaf)
  {
  }

  /** A change below `lo`, and then one that spares what is below `ofs` or from `upper` on. */
  lemma AddBytes(m: seq<byte>, m1: seq<byte>, m2: seq<byte>, n: nat, ofs: nat, upper: nat)
    requires SlotPlace(n) <= ofs <= upper <= |m|
    requires SameFrom(m, m1, SlotPlace(n)) && SameBelow(m1, m2, ofs) && SameFrom(m1, m2, upper)
    ensures SameFrom(m, m2, upper) && Slots(m2, n) == Slots(m1, n)
  {
    SlotsSame(m1, m2, n);
  }

  /** The slot and the bytes of a new node. */
  method WriteNode(mem: array<byte>, n: nat, x: nat, upper: nat, node: Node, leaf: bool) returns (ghost raw: seq<byte>)
    requires x <= n && Storable(node, leaf) && upper <= mem.Length <= 0x8000 && SlotPlace(n + 1) + PackedLen(node) <= upper
    modifies mem
    ensures |raw| == PackedLen(node) && HoldsAt(mem[..], upper - |raw|, raw) && IsNode(raw, leaf) && View(raw, leaf) == node
    ensures Slots(mem[..], n + 1) == Insert<nat>(old(Slots(mem[..], n)), x, upper - |raw|)
    ensures SameFrom(old(mem[..]), mem[..], upper)
  {
    hide Slots, SameFrom, SameBelow, Storable, HoldsAt, IsNode, View, PackedLen, Insert;
    ghost var m := mem[..];
    var ofs := upper - PackedLen(node);
    AddSlot(mem, n, x, ofs);
    ghost var m1 := mem[..];
    raw := PutNode(mem, ofs, node, leaf);
    AddBytes(m, m1, mem[..], n + 1, ofs, upper);
  }

  /** Takes away node x, of sz bytes at ptr. */
  method EraseNode(mem: array<byte>, n: nat, x: nat, upper: nat, ptr: nat, sz: nat)
    requires x < n && SlotPlace(n) <= upper <= ptr && ptr + sz <= mem.Length <= 0x8000 && ptr == SlotOf(mem, x)
    modifies mem
    ensures MovedUp(old(mem[..]), mem[..], upper, ptr, sz)
    ensures DelPtrs(old(Slots(mem[..], n)), x, sz, Slots(mem[..], n - 1))
  {
    hide Slots, SameFrom, SameBelow, MovedUp, DelPtrs, SlotOf;
    ghost var m := mem[..];
    DropSlot(mem, n, x, sz);
    ghost var m1 := mem[..];
    CloseGap(mem, upper, ptr, sz);
    MovedUpBytes(m, m1, mem[..], n, upper, ptr, sz);
  }

  lemma MovedUpBytes(m: seq<byte>, m1: seq<byte>, m2: seq<byte>, n: nat, upper: nat, ptr: nat, sz: nat)
    requires 0 < n && SlotPlace(n) <= upper <= ptr && ptr + sz <= |m| && SameFrom(m, m1, SlotPlace(n))
    requires MovedUp(m1, m2, upper, ptr, sz) && SameBelow(m1, m2, upper)
    ensures MovedUp(m, m2, upper, ptr, sz) && Slots(m2, n - 1) == Slots(m1, n - 1)
  {
    SlotsSame(m1, m2, n - 1);
  }

  lemma MovedDownBytes(m: seq<byte>, m1: seq<byte>, m2: seq<byte>, n: nat, upper: nat, ptr: nat, end: nat, delta: int)
    requires delta <= upper && SlotPlace(n) <= upper - delta && upper <= ptr <= end <= |m| && SlotPlace(n) <= upper
    requires SameFrom(m, m1, SlotPlace(n))
    requires MovedDown(m1, m2, upper, ptr, end, delta) && SameBelow(m1, m2, upper - delta)
    ensures MovedDown(m, m2, upper, ptr, end, delta) && Slots(m2, n) == Slots(m1, n)
  {
    SlotsSame(m1, m2, n);
  }

  lemma HoldsSame(m: seq<byte>, m': seq<byte>, from: nat, p: nat, raw: seq<byte>)
    requires HoldsAt(m, p, raw) && SameFrom(m, m', from) && from <= p
    ensures HoldsAt(m', p, raw)
  {
    Moved(m, m', p, p, raw);
  }

  lemma RawLen(raw: seq<byte>, leaf: bool)
    requires IsNode(raw, leaf)
    ensures |raw| >= NODESIZE && |raw| % 2 == 0
  {
  }

  /** memmove of the nodes below a deleted one. */
  method CloseGap(mem: array<byte>, upper: nat, ptr: nat, sz: nat)
    requires upper <= ptr && ptr + sz <= mem.Length
    modifies mem
    ensures MovedUp(old(mem[..]), mem[..], upper, ptr, sz) && SameBelow(old(mem[..]), mem[..], upper)
  {
    MoveUp(mem, upper, ptr - upper, sz);
  }

  lemma SlotInside(m: seq<byte>, lower: nat, upper: nat, raws: seq<seq<byte>>, leaf: bool, x: nat)
    requires PageOk(m, lower, upper, raws, leaf) && x < |raws|
    ensures var ptr := Slots(m, |raws|)[x];
            && upper <= ptr && ptr + |raws[x]| <= |m| && |raws[x]| >= NODESIZE
            && HoldsAt(m, ptr, raws[x]) && IsNode(raws[x], leaf)
            && NodeLen(m[ptr..ptr + NODESIZE], leaf) == |raws[x]|
            && KeyLen(m[ptr..ptr + NODESIZE]) == KeyLen(raws[x])
  {
    hide Slots, Placed, Holds, HoldsAt, AllNodes, IsNode, NodeLen, KeyLen;
    SlotWithin(m, Slots(m, |raws|), upper, raws, leaf, x);
    HeadOf(m, Slots(m, |raws|)[x], raws[x], leaf);
  }

  lemma SlotWithin(m: seq<byte>, slots: seq<nat>, upper: nat, raws: seq<seq<byte>>, leaf: bool, x: nat)
    requires Placed(slots, Lens(raws), upper, |m|) && Holds(m, slots, raws) && AllNodes(raws, leaf) && x < |raws|
    ensures upper <= slots[x] && slots[x] + |raws[x]| <= |m| && HoldsAt(m, slots[x], raws[x]) && IsNode(raws[x], leaf)
  {
    hide HoldsAt, IsNode, Sum;
    assert Within(slots[x], Lens(raws)[x], upper, |m|);
  }

  /** A node's header alone says how long the node and its key are. */
  lemma HeadOf(m: seq<byte>, p: nat, raw: seq<byte>, leaf: bool)
    requires HoldsAt(m, p, raw) && IsNode(raw, leaf)
    ensures |raw| >= NODESIZE && NodeLen(m[p..p + NODESIZE], leaf) == |raw|
    ensures KeyLen(m[p..p + NODESIZE]) == KeyLen(raw)
  {
    hide Even;
    var head := m[p..p + NODESIZE];
    assert head == raw[..NODESIZE];
    assert forall i :: 0 <= i < NODESIZE ==> head[i] == raw[i];
  }

  lemma DelKeeps(m: seq<byte>, lower: nat, upper: nat, raws: seq<seq<byte>>, leaf: bool, x: nat, m': seq<byte>)
    requires PageOk(m, lower, upper, raws, leaf) && x < |raws| && |m'| == |m|
    requires MovedUp(m, m', upper, Slots(m, |raws|)[x], |raws[x]|)
    requires DelPtrs(Slots(m, |raws|), x, |raws[x]|, Slots(m', |raws| - 1))
    ensures PageOk(m', lower - SLOT, upper + |raws[x]|, Remove(raws, x), leaf)
    ensures Views(Remove(raws, x), leaf) == Remove(Views(raws, leaf), x)
  {
    hide Sum, AllWithin, AllApart, Holds, View, IsNode, HoldsAt, DelPtrs, Slots;
    var slots, slots' := Slots(m, |raws|), Slots(m', |raws| - 1);
    DelPlaced(slots, Lens(raws), upper, |m|, x, slots');
    DelHolds(m, m', slots, raws, upper, x, slots');
    assert Lens(Remove(raws, x)) == Remove(Lens(raws), x);
  }

  lemma PackedLenOf(raws: seq<seq<byte>>, leaf: bool, x: nat)
    requires AllNodes(raws, leaf) && x < |raws|
    ensures PackedLen(Views(raws, leaf)[x]) == |raws[x]|
  {
    var raw := raws[x];
    assert IsNode(raw, leaf);
  }

  // ---------------------------------------------------------------- a new key for a branch node

  /** A branch node's size follows from its key's. */
  lemma BranchNode(raws: seq<seq<byte>>, x: nat, key: seq<byte>)
    requires AllNodes(raws, false) && x < |raws|
    ensures |raws[x]| >= NODESIZE && KeyLen(raws[x]) == |Views(raws, false)[x].key|
    ensures |raws[x]| == NODESIZE + Even(KeyLen(raws[x]))
    ensures Even(|key|) % 2 == 0 && Even(KeyLen(raws[x])) % 2 == 0
  {
    assert IsNode(raws[x], false);
  }

  lemma Rekeyed(raw: seq<byte>, raw': seq<byte>, key: seq<byte>)
    requires IsNode(raw, false) && |key| < 0x10000 && |raw'| == NODESIZE + Even(|key|)
    requires forall i :: 0 <= i < 6 ==> raw'[i] == raw[i]
    requires raw'[6] == HalfBytes(|key|)[0] && raw'[7] == HalfBytes(|key|)[1]
    requires HoldsAt(raw', NODESIZE, key)
    ensures IsNode(raw', false) && View(raw', false) == View(raw, false).(key := key)
  {
    assert raw'[..6] == raw[..6];
    assert KeyLen(raw') == |key|;
    assert View(raw', false).data == [] == View(raw, false).data;
  }

  /** The nodes below a resized one, and its header, have moved down by delta. */
  ghost predicate Shifted(m: seq<byte>, m': seq<byte>, upper: nat, ptr: nat, delta: int) {
    && |m'| == |m|
    && (forall b :: 0 <= b < |m| && upper - delta <= b < ptr + NODESIZE - delta ==> 0 <= b + delta < |m| && m'[b] == m[b + delta])
    && (forall b :: 0 <= b < |m| && ptr + NODESIZE <= b && ptr + NODESIZE - delta <= b ==> m'[b] == m[b])
  }

  /** The node at q has got a new key. */
  ghost predicate KeyWritten(m: seq<byte>, m': seq<byte>, q: nat, key: seq<byte>)
    requires |key| < 0x10000
  {
    && |m'| == |m| && q + NODESIZE + |key| <= |m|
    && m'[q + 6] == HalfBytes(|key|)[0] && m'[q + 7] == HalfBytes(|key|)[1]
    && HoldsAt(m', q + NODESIZE, key)
    && forall b :: 0 <= b < |m| && (b < q + 6 || q + NODESIZE + |key| <= b) ==> m'[b] == m[b]
  }

  /** memmove of the nodes below a resized one, and of its header. */
  method MoveForKey(mem: array<byte>, upper: nat, ptr: nat, delta: int)
    requires upper <= ptr && ptr + NODESIZE <= mem.Length && delta <= upper && ptr + NODESIZE - delta <= mem.Length
    modifies mem
    ensures Shifted(old(mem[..]), mem[..], upper, ptr, delta) && SameBelow(old(mem[..]), mem[..], upper - delta)
  {
    var len := ptr - upper + NODESIZE;
    if delta > 0 {
      MoveDown(mem, upper, len, delta);
    } else if delta < 0 {
      MoveUp(mem, upper, len, -delta);
    }
  }

  /** mn_ksize and the key of the node at q. */
  method WriteKey(mem: array<byte>, q: nat, key: seq<byte>)
    requires |key| < 0x10000 && q + NODESIZE + |key| <= mem.Length
    modifies mem
    ensures KeyWritten(old(mem[..]), mem[..], q, key)
  {
    var half := HalfBytes(|key|);
    mem[q + 6] := half[0];
    mem[q + 7] := half[1];
    Copy(mem, q + NODESIZE, key);
  }

  lemma RekeyMoves(m: seq<byte>, m1: seq<byte>, m2: seq<byte>, upper: nat, ptr: nat, delta: int, key: seq<byte>, end: nat)
    requires |key| < 0x10000 && upper <= ptr && delta <= ptr && ptr + NODESIZE <= end
    requires end == ptr - delta + NODESIZE + Even(|key|)
    requires Shifted(m, m1, upper, ptr, delta) && KeyWritten(m1, m2, ptr - delta, key)
    ensures MovedDown(m, m2, upper, ptr, end, delta)
  {
    hide HoldsAt, HalfBytes;
    forall b | upper - delta <= b < ptr - delta && 0 <= b < |m|
      ensures 0 <= b + delta < |m| && m2[b] == m[b + delta]
    {
      assert m2[b] == m1[b];
    }
    forall b | end <= b < |m|
      ensures m2[b] == m[b]
    {
      assert m2[b] == m1[b];
    }
  }

  lemma RekeyHolds(m: seq<byte>, m1: seq<byte>, m2: seq<byte>, upper: nat, ptr: nat, was: seq<byte>, delta: int, key: seq<byte>)
    requires HoldsAt(m, ptr, was) && IsNode(was, false) && |key| < 0x10000 && upper <= ptr && delta <= upper
    requires |was| + delta == NODESIZE + Even(|key|)
    requires Shifted(m, m1, upper, ptr, delta) && KeyWritten(m1, m2, ptr - delta, key)
    ensures var raw := m2[ptr - delta..ptr + |was|];
            IsNode(raw, false) && View(raw, false) == View(was, false).(key := key)
  {
    hide View, KeyLen, NodeLen, HalfBytes;
    var q := ptr - delta;
    var raw := m2[q..ptr + |was|];
    forall i: nat | i < 6
      ensures raw[i] == was[i]
    {
      assert m2[q + i] == m1[q + i];
      ByteOf(m, ptr, was, i);
    }
    forall i: nat | i < |key|
      ensures raw[NODESIZE..NODESIZE + |key|][i] == key[i]
    {
      ByteOf(m2, q + NODESIZE, key, i);
    }
    assert HoldsAt(raw, NODESIZE, key);
    Rekeyed(was, raw, key);
  }

  lemma RekeyBelow(m: seq<byte>, m1: seq<byte>, m2: seq<byte>, to: nat, q: nat, key: seq<byte>)
    requires |key| < 0x10000 && to <= q && SameBelow(m, m1, to) && KeyWritten(m1, m2, q, key)
    ensures SameBelow(m, m2, to)
  {
  }

  method Rekey(mem: array<byte>, upper: nat, ptr: nat, ghost was: seq<byte>, delta: int, key: seq<byte>)
    returns (ghost raw: seq<byte>)
    requires HoldsAt(mem[..], ptr, was) && IsNode(was, false) && |key| < 0x10000
    requires upper <= ptr && delta <= upper && |was| + delta == NODESIZE + Even(|key|)
    modifies mem
    ensures |raw| == |was| + delta && HoldsAt(mem[..], ptr - delta, raw)
    ensures IsNode(raw, false) && View(raw, false) == View(was, false).(key := key)
    ensures MovedDown(old(mem[..]), mem[..], upper, ptr, ptr + |was|, delta)
    ensures SameBelow(old(mem[..]), mem[..], upper - delta)
  {
    hide View, IsNode, MovedDown, Shifted, KeyWritten, HalfBytes;
    NodeSize(was);
    ghost var m := mem[..];
    MoveForKey(mem, upper, ptr, delta);
    ghost var m1 := mem[..];
    WriteKey(mem, ptr - delta, key);
    RekeyBelow(m, m1, mem[..], upper - delta, ptr - delta, key);
    RekeyMoves(m, m1, mem[..], upper, ptr, delta, key, ptr + |was|);
    RekeyHolds(m, m1, mem[..], upper, ptr, was, delta, key);
    raw := mem[..][ptr - delta..ptr + |was|];
  }

  lemma NodeSize(raw: seq<byte>)
    requires IsNode(raw, false)
    ensures |raw| >= NODESIZE
  {
  }

  /** Gives node x, at ptr, another key. */
  method ResizeNode(mem: array<byte>, n: nat, x: nat, upper: nat, ptr: nat, ghost was: seq<byte>, delta: int, key: seq<byte>)
    returns (ghost raw: seq<byte>)
    requires HoldsAt(mem[..], ptr, was) && IsNode(was, false) && |key| < 0x10000
    requires x < n && SlotPlace(n) <= upper <= ptr && ptr + |was| <= mem.Length <= 0x8000 && ptr == SlotOf(mem, x)
    requires SlotPlace(n) <= upper - delta && |was| + delta == NODESIZE + Even(|key|)
    requires forall k :: 0 <= k < n ==> delta <= Slots(mem[..], n)[k]
    modifies mem
    ensures |raw| == |was| + delta && HoldsAt(mem[..], ptr - delta, raw)
    ensures IsNode(raw, false) && View(raw, false) == View(was, false).(key := key)
    ensures MovedDown(old(mem[..]), mem[..], upper, ptr, ptr + |was|, delta)
    ensures GrowPtrs(old(Slots(mem[..], n)), x, delta, Slots(mem[..], n))
  {
    hide Slots, SameFrom, SameBelow, MovedDown, GrowPtrs, SlotOf, HoldsAt, IsNode, View, Even;
    NodeSize(was);
    ghost var m := mem[..];
    LowerSlots(mem, n, x, delta);
    ghost var m1 := mem[..];
    HoldsSame(m, m1, SlotPlace(n), ptr, was);
    raw := Rekey(mem, upper, ptr, was, delta, key);
    MovedDownBytes(m, m1, mem[..], n, upper, ptr, ptr + |was|, delta);
  }

  lemma SlotsAtLeast(m: seq<byte>, lower: nat, upper: nat, raws: seq<seq<byte>>, leaf: bool)
    requires PageOk(m, lower, upper, raws, leaf)
    ensures forall k :: 0 <= k < |raws| ==> upper <= Slots(m, |raws|)[k]
  {
    forall k | 0 <= k < |raws|
      ensures upper <= Slots(m, |raws|)[k]
    {
      assert Within(Slots(m, |raws|)[k], Lens(raws)[k], upper, |m|);
    }
  }

  lemma GrowKeeps(m: seq<byte>, lower: nat, upper: nat, raws: seq<seq<byte>>, x: nat, delta: int, raw: seq<byte>, m': seq<byte>)
    requires PageOk(m, lower, upper, raws, false) && x < |raws| && |m'| == |m|
    requires delta <= upper - lower && delta % 2 == 0 && |raw| == |raws[x]| + delta && IsNode(raw, false)
    requires MovedDown(m, m', upper, Slots(m, |raws|)[x], Slots(m, |raws|)[x] + |raws[x]|, delta)
    requires GrowPtrs(Slots(m, |raws|), x, delta, Slots(m', |raws|))
    requires delta <= Slots(m, |raws|)[x] && HoldsAt(m', Slots(m, |raws|)[x] - delta, raw)
    ensures PageOk(m', lower, upper - delta, raws[x := raw], false)
    ensures Views(raws[x := raw], false) == Views(raws, false)[x := View(raw, false)]
  {
    hide Sum, AllWithin, AllApart, Holds, View, IsNode, HoldsAt, Slots;
    RawLen(raw, false);
    var slots, slots' := Slots(m, |raws|), Slots(m', |raws|);
    assert slots'[x] == slots[x] - delta;
    hide GrowPtrs;
    GrowPlaced(slots, Lens(raws), upper, |m|, x, delta, slots');
    GrowHolds(m, m', slots, raws, upper, x, delta, slots', raw);
    assert Lens(raws[x := raw]) == Lens(raws)[x := |raw|];
  }

  class Page {
    const leaf: bool
    const mem: array<byte>   // the bytes of the page: header, slots, free space, nodes
    var lower: nat           // mp_lower and mp_upper
    var upper: nat
    ghost var raws: seq<seq<byte>>   // the bytes of each node, in slot order

    ghost predicate Valid()
      reads this, mem
    {
      PageOk(mem[..], lower, upper, raws, leaf)
    }

    /** The nodes on the page, in order. */
    ghost function Contents(): seq<Node>
      requires Valid()
      reads this, mem
    {
      Views(raws, leaf)
    }

    function NumKeys(): nat
      requires lower >= PAGEHDRSZ
      reads this
    {
      (lower - PAGEHDRSZ) / SLOT
    }

    function SizeLeft(): int
      reads this
    {
      upper - lower
    }

    constructor (psize: nat, leaf: bool)
      requires 4096 <= psize <= 0x8000 && psize % 2 == 0
      ensures Valid() && fresh(mem) && this.leaf == leaf && mem.Length == psize && Contents() == []
    {
      this.leaf := leaf;
      mem := new byte[psize](_ => 0);
      lower, upper := PAGEHDRSZ, psize;
      raws := [];
    }

    /** mdb_node_add. On failure (MDB_PAGE_FULL) the page is as before. */
    method AddNode(x: nat, node: Node) returns (ok: bool)
      requires Valid() && x <= |raws| && Storable(node, leaf)
      modifies this, mem
      ensures Valid()
      ensures ok == (PackedLen(node) + SLOT <= old(SizeLeft()))
      ensures Contents() == if ok then Insert(old(Contents()), x, node) else old(Contents())
      ensures SizeLeft() == old(SizeLeft()) - (if ok then PackedLen(node) + SLOT else 0)
    {
      hide PageOk, AllNodes, Storable, View, IsNode, HoldsAt, SameFrom, Views, Slots, SlotOf, PackedLen, Insert;
      PageCounts(mem[..], lower, upper, raws, leaf);
      var sz := PackedLen(node);
      ok := sz + SLOT <= upper - lower;
      if !ok { return; }
      ghost var m := mem[..];
      var n := NumKeys();
      ghost var raw := WriteNode(mem, n, x, upper, node, leaf);
      AddKeeps(m, lower, upper, raws, leaf, x, raw, mem[..]);
      raws := Insert(raws, x, raw);
      upper := upper - sz;
      lower := lower + SLOT;
    }

    /** mdb_node_del. */
    method DeleteNode(x: nat)
      requires Valid() && x < |raws|
      modifies this, mem
      ensures Valid()
      ensures Contents() == Remove(old(Contents()), x)
      ensures SizeLeft() == old(SizeLeft()) + PackedLen(old(Contents()[x])) + SLOT
    {
      hide PageOk, AllNodes, View, IsNode, HoldsAt, MovedUp, Views, NodeLen, PackedLen, DelPtrs, Slots, SlotOf;
      PageCounts(mem[..], lower, upper, raws, leaf);
      ghost var m := mem[..];
      var n := NumKeys();
      var ptr := SlotOf(mem, x);
      SlotsAre(mem, n);
      SlotInside(m, lower, upper, raws, leaf, x);
      var sz := NodeLen(mem[ptr..ptr + NODESIZE], leaf);
      EraseNode(mem, n, x, upper, ptr, sz);
      DelKeeps(m, lower, upper, raws, leaf, x, mem[..]);
      PackedLenOf(raws, leaf, x);
      raws := Remove(raws, x);
      lower := lower - SLOT;
      upper := upper + sz;
    }

    /**
     mdb_update_key, on a branch page. On failure there is no room, and the page is as before;
     the caller then deletes the node and splits the page.
     */
    method UpdateKey(x: nat, key: seq<byte>) returns (ok: bool)
      requires Valid() && !leaf && x < |raws| && |key| < 0x10000
      modifies this, mem
      ensures Valid()
      ensures var delta := Even(|key|) - Even(|old(Contents()[x]).key|);
              && ok == (delta <= 0 || delta <= old(SizeLeft()))
              && SizeLeft() == old(SizeLeft()) - (if ok then delta else 0)
      ensures Contents() == if ok then old(Contents())[x := old(Contents()[x]).(key := key)] else old(Contents())
    {
      hide PageOk, AllNodes, View, IsNode, HoldsAt, MovedDown, Views, NodeLen, GrowPtrs, KeyLen, Even, Slots, SlotOf;
      PageCounts(mem[..], lower, upper, raws, leaf);
      ghost var m := mem[..];
      var n := NumKeys();
      var ptr := SlotOf(mem, x);
      SlotsAre(mem, n);
      SlotInside(m, lower, upper, raws, leaf, x);
      var delta := Even(|key|) - Even(KeyLen(mem[ptr..ptr + NODESIZE]));
      BranchNode(raws, x, key);
      ok := delta <= 0 || delta <= upper - lower;
      if !ok { return; }
      SlotsAtLeast(m, lower, upper, raws, leaf);
      ghost var raw := ResizeNode(mem, n, x, upper, ptr, raws[x], delta, key);
      GrowKeeps(m, lower, upper, raws, x, delta, raw, mem[..]);
      raws := raws[x := raw];
      upper := upper - delta;
    }
  }

  // ---------------------------------------------------------------- what a valid page is

  function SlotSizes(nodes: seq<Node>): (s: seq<nat>)
    ensures |s| == |nodes| && forall i :: 0 <= i < |s| ==> s[i] == PackedLen(nodes[i]) + SLOT
  {
    seq(|nodes|, i requires 0 <= i < |nodes| => PackedLen(nodes[i]) + SLOT)
  }

  lemma {:induction false} SumPlus(a: seq<nat>, b: seq<nat>, c: nat)
    requires |a| == |b| && forall i :: 0 <= i < |a| ==> b[i] == a[i] + c
    ensures Sum(b) == Sum(a) + c * |a|
  {
    if a != [] {
      SumPlus(a[1..], b[1..], c);
    }
  }

  /** SIZELEFT is what the nodes and their slots leave of the page. */
  lemma SizeLeftIsExact(p: Page)
    requires p.Valid()
    ensures p.SizeLeft() == p.mem.Length - PAGEHDRSZ - Sum(SlotSizes(p.Contents()))
  {
    hide Sum, AllWithin, AllApart, Holds, View, IsNode, HoldsAt, PackedLen;
    forall i | 0 <= i < |p.raws|
      ensures PackedLen(p.Contents()[i]) == |p.raws[i]|
    {
      PackedLenOf(p.raws, p.leaf, i);
    }
    SumPlus(Lens(p.raws), SlotSizes(p.Contents()), SLOT);
  }

  lemma RoomAtLeast(p: Page)
    requires p.Valid()
    ensures p.SizeLeft() >= 0
  {
  }

  lemma CountIs(p: Page)
    requires p.Valid()
    ensures |p.Contents()| == |p.raws|
  {
  }

  /** Nodes start at even places inside [mp_upper, page end), above the slots, and do not overlap. */
  lemma NodesApart(p: Page, i: nat, j: nat)
    requires p.Valid() && i < |p.raws| && j < |p.raws| && i != j
    ensures SlotPlace(|p.raws|) <= p.mem.Length
    ensures var m, n := PackedLen(p.Contents()[i]), PackedLen(p.Contents()[j]);
            var pi, pj := SlotOf(p.mem, i), SlotOf(p.mem, j);
            && p.lower <= p.upper <= pi && pi + m <= p.mem.Length && pi % 2 == 0
            && (pi + m <= pj || pj + n <= pi)
  {
    var ps := Slots(p.mem[..], |p.raws|);
    SlotsAre(p.mem, |p.raws|);
    PackedLenOf(p.raws, p.leaf, i);
    PackedLenOf(p.raws, p.leaf, j);
    ApartAt(ps, Lens(p.raws), i, j);
    assert Within(ps[i], Lens(p.raws)[i], p.upper, p.mem.Length);
  }
}
