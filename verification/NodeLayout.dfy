/** How nodes lie in the bytes of a page: what the node macros of mdb.c read. */
module NodeLayout {
  import opened Base
  import opened Sizes

  // ---------------------------------------------------------------- one node

  /**
   A node's first six header bytes (data size or page number, then flags), its key and its
   data. The data of a leaf node with F_BIGDATA is the number of its overflow page.
   */
  datatype Node = Node(head: seq<byte>, key: seq<byte>, data: seq<byte>)

  const F_BIGDATA: nat := 1

  /** A 16-bit field, low byte first. */
  function Half(raw: seq<byte>, p: nat): nat
    requires p + 1 < |raw|
  {
    raw[p] as nat + 256 * raw[p + 1] as nat
  }

  /** NODEKSZ */
  function KeyLen(raw: seq<byte>): nat
    requires |raw| >= NODESIZE
  {
    Half(raw, 6)
  }

  /** Bytes of data inside the node: NODEDSZ or a page number on a leaf, none on a branch. */
  function DataLen(raw: seq<byte>, leaf: bool): nat
    requires |raw| >= NODESIZE
  {
    if !leaf then 0
    else if Half(raw, 4) % 2 == F_BIGDATA then PGNO_SIZE
    else Half(raw, 0) + 0x10000 * Half(raw, 2)
  }

  function NodeLen(raw: seq<byte>, leaf: bool): nat
    requires |raw| >= NODESIZE
  {
    Even(NODESIZE + KeyLen(raw) + DataLen(raw, leaf))
  }

  /** The bytes of one node, with a pad byte if its size is odd. */
  predicate IsNode(raw: seq<byte>, leaf: bool) {
    |raw| >= NODESIZE && |raw| == NodeLen(raw, leaf)
  }

  function View(raw: seq<byte>, leaf: bool): Node
    requires IsNode(raw, leaf)
  {
    var d := NODESIZE + KeyLen(raw);
    Node(raw[..6], raw[NODESIZE..d], raw[d..d + DataLen(raw, leaf)])
  }

  // ---------------------------------------------------------------- places

  function Lens(raws: seq<seq<byte>>): (s: seq<nat>)
    ensures |s| == |raws| && forall i :: 0 <= i < |s| ==> s[i] == |raws[i]|
  {
    seq(|raws|, i requires 0 <= i < |raws| => |raws[i]|)
  }

  predicate Apart(p: nat, m: nat, q: nat, n: nat) {
    p + m <= q || q + n <= p
  }

  /** A node of even length at an even place within [upper, top). */
  predicate Within(p: nat, n: nat, upper: int, top: nat) {
    upper <= p && p + n <= top && p % 2 == 0 && n % 2 == 0 && n >= NODESIZE
  }

  ghost predicate AllWithin(ps: seq<nat>, lens: seq<nat>, upper: int, top: nat) {
    |ps| == |lens| && forall i :: 0 <= i < |ps| ==> Within(ps[i], lens[i], upper, top)
  }

  ghost predicate AllApart(ps: seq<nat>, lens: seq<nat>) {
    |ps| == |lens| && forall i, j :: 0 <= i < j < |ps| ==> Apart(ps[i], lens[i], ps[j], lens[j])
  }

  /** Nodes fill [upper, top), without overlap. */
  ghost predicate Placed(ps: seq<nat>, lens: seq<nat>, upper: nat, top: nat) {
    && upper <= top && upper % 2 == 0 && top % 2 == 0
    && AllWithin(ps, lens, upper, top)
    && AllApart(ps, lens)
    && Sum(lens) == top - upper
  }

  /** Any two nodes, in either order. */
  lemma ApartAt(ps: seq<nat>, lens: seq<nat>, i: nat, j: nat)
    requires AllApart(ps, lens) && i < |ps| && j < |ps| && i != j
    ensures Apart(ps[i], lens[i], ps[j], lens[j])
  {
    assert Apart(ps[if i < j then i else j], lens[if i < j then i else j], ps[if i < j then j else i], lens[if i < j then j else i]);
  }

  /** Where the nodes of a page are in its bytes m. */
  ghost predicate Holds(m: seq<byte>, ps: seq<nat>, raws: seq<seq<byte>>) {
    && |ps| == |raws|
    && forall i :: 0 <= i < |ps| ==> HoldsAt(m, ps[i], raws[i])
  }

  predicate HoldsAt(m: seq<byte>, p: nat, raw: seq<byte>) {
    p + |raw| <= |m| && m[p..p + |raw|] == raw
  }

  lemma ByteOf(m: seq<byte>, p: nat, raw: seq<byte>, i: nat)
    requires HoldsAt(m, p, raw) && i < |raw|
    ensures m[p + i] == raw[i]
  {
    assert m[p..p + |raw|][i] == m[p + i];
  }

  /** A node whose bytes were moved, or left alone. */
  lemma Moved(m: seq<byte>, m': seq<byte>, p: nat, q: nat, raw: seq<byte>)
    requires HoldsAt(m, p, raw) && q + |raw| <= |m'|
    requires forall b :: q <= b < q + |raw| ==> m'[b] == m[b - q + p]
    ensures HoldsAt(m', q, raw)
  {
    forall i | 0 <= i < |raw|
      ensures m'[q..q + |raw|][i] == raw[i]
    {
      ByteOf(m, p, raw, i);
    }
  }

  lemma WithoutOne(c: seq<nat>, x: nat)
    requires x < |c|
    ensures Sum(c) == Sum(c[..x] + c[x + 1..]) + c[x]
  {
    SumSplit(c, x);
    assert c[x..][1..] == c[x + 1..];
    SumConcat(c[..x], c[x + 1..]);
  }

  // ---------------------------------------------------------------- deletion

  function Remove<T>(s: seq<T>, x: nat): (r: seq<T>)
    requires x < |s|
    ensures |r| == |s| - 1
    ensures forall i :: 0 <= i < |r| ==> r[i] == s[if i < x then i else i + 1]
  {
    s[..x] + s[x + 1..]
  }

  function Insert<T>(s: seq<T>, x: nat, v: T): (r: seq<T>)
    requires x <= |s|
    ensures |r| == |s| + 1
    ensures forall i :: 0 <= i < |r| ==> r[i] == if i < x then s[i] else if i == x then v else s[i - 1]
  {
    s[..x] + [v] + s[x..]
  }

  function ShiftUp(p: nat, ptr: nat, sz: nat): nat {
    if p < ptr then p + sz else p
  }

  /** The pointers after node x of sz bytes is gone and those below it have moved up. */
  ghost predicate DelPtrs(ps: seq<nat>, x: nat, sz: nat, ps': seq<nat>)
    requires x < |ps|
  {
    && |ps'| == |ps| - 1
    && forall i :: 0 <= i < |ps'| ==> ps'[i] == ShiftUp(ps[if i < x then i else i + 1], ps[x], sz)
  }

  lemma ShiftApart(p: nat, m: nat, q: nat, n: nat, ptr: nat, sz: nat)
    requires Apart(ptr, sz, p, m) && Apart(ptr, sz, q, n) && Apart(p, m, q, n) && m > 0 && n > 0
    ensures Apart(ShiftUp(p, ptr, sz), m, ShiftUp(q, ptr, sz), n)
  {
  }

  lemma ShiftWithin(p: nat, m: nat, ptr: nat, sz: nat, upper: nat, top: nat)
    requires Apart(ptr, sz, p, m) && Within(p, m, upper, top) && Within(ptr, sz, upper, top)
    ensures Within(ShiftUp(p, ptr, sz), m, upper + sz, top)
  {
  }

  lemma DelPlaced(ps: seq<nat>, lens: seq<nat>, upper: nat, top: nat, x: nat, ps': seq<nat>)
    requires Placed(ps, lens, upper, top) && x < |ps| && DelPtrs(ps, x, lens[x], ps')
    ensures upper + lens[x] <= top && Placed(ps', Remove(lens, x), upper + lens[x], top)
  {
    hide Sum, ShiftUp, Apart, Within;
    var lens', sz := Remove(lens, x), lens[x];
    WithoutOne(lens, x);
    assert Within(ps[x], sz, upper, top);
    WithinSpan(ps[x], sz, upper, top);
    forall i | 0 <= i < |ps'|
      ensures Within(ps'[i], lens'[i], upper + sz, top)
    {
      var y := if i < x then i else i + 1;
      assert Within(ps[y], lens[y], upper, top);
      ApartAt(ps, lens, x, y);
      ShiftWithin(ps[y], lens[y], ps[x], sz, upper, top);
    }
    forall i, j | 0 <= i < j < |ps'|
      ensures Apart(ps'[i], lens'[i], ps'[j], lens'[j])
    {
      var y, z := if i < x then i else i + 1, if j < x then j else j + 1;
      assert Within(ps[y], lens[y], upper, top) && Within(ps[z], lens[z], upper, top);
      WithinSpan(ps[y], lens[y], upper, top);
      WithinSpan(ps[z], lens[z], upper, top);
      ApartAt(ps, lens, x, y);
      ApartAt(ps, lens, x, z);
      ApartAt(ps, lens, y, z);
      ShiftApart(ps[y], lens[y], ps[z], lens[z], ps[x], sz);
    }
  }

  lemma WithinSpan(p: nat, n: nat, upper: nat, top: nat)
    requires Within(p, n, upper, top)
    ensures 0 < n && upper + n <= top && n % 2 == 0
  {
  }

  /** Bytes [upper, ptr) have moved up by sz; those from ptr + sz on stay. */
  ghost predicate MovedUp(m: seq<byte>, m': seq<byte>, upper: nat, ptr: nat, sz: nat) {
    && |m'| == |m|
    && (forall b :: upper + sz <= b < ptr + sz && b < |m| ==> m'[b] == m[b - sz])
    && (forall b :: ptr + sz <= b < |m| ==> m'[b] == m[b])
  }

  /** Every other node survives the move, with all its bytes. */
  lemma DelHolds(m: seq<byte>, m': seq<byte>, ps: seq<nat>, raws: seq<seq<byte>>, upper: nat, x: nat, ps': seq<nat>)
    requires Placed(ps, Lens(raws), upper, |m|) && Holds(m, ps, raws) && x < |ps| && DelPtrs(ps, x, |raws[x]|, ps')
    requires MovedUp(m, m', upper, ps[x], |raws[x]|)
    ensures Holds(m', ps', Remove(raws, x))
  {
    hide Sum, HoldsAt;
    var lens := Lens(raws);
    forall i | 0 <= i < |ps'|
      ensures HoldsAt(m', ps'[i], Remove(raws, x)[i])
    {
      var y := if i < x then i else i + 1;
      ApartAt(ps, lens, x, y);
      Moved(m, m', ps[y], ps'[i], raws[y]);
    }
  }

  // ---------------------------------------------------------------- insertion

  lemma WidenWithin(p: nat, n: nat, upper: nat, sz: nat, top: nat)
    requires Within(p, n, upper, top) && sz <= upper
    ensures Within(p, n, upper - sz, top) && Apart(upper - sz, sz, p, n) && Apart(p, n, upper - sz, sz)
  {
  }

  lemma AddAllWithin(ps: seq<nat>, lens: seq<nat>, upper: nat, top: nat, x: nat, sz: nat)
    requires AllWithin(ps, lens, upper, top) && x <= |ps| && sz <= upper && Within(upper - sz, sz, upper - sz, top)
    ensures AllWithin(Insert<nat>(ps, x, upper - sz), Insert(lens, x, sz), upper - sz, top)
  {
    hide Within;
    var ps', lens' := Insert<nat>(ps, x, upper - sz), Insert(lens, x, sz);
    forall i | 0 <= i < |ps'|
      ensures Within(ps'[i], lens'[i], upper - sz, top)
    {
      if i != x {
        var y := if i < x then i else i - 1;
        assert Within(ps[y], lens[y], upper, top);
        WidenWithin(ps[y], lens[y], upper, sz, top);
      }
    }
  }

  lemma AddAllApart(ps: seq<nat>, lens: seq<nat>, upper: nat, top: nat, x: nat, sz: nat)
    requires AllWithin(ps, lens, upper, top) && AllApart(ps, lens) && x <= |ps| && sz <= upper
    ensures AllApart(Insert<nat>(ps, x, upper - sz), Insert(lens, x, sz))
  {
    hide Within, Apart;
    var ps', lens' := Insert<nat>(ps, x, upper - sz), Insert(lens, x, sz);
    forall i, j | 0 <= i < j < |ps'|
      ensures Apart(ps'[i], lens'[i], ps'[j], lens'[j])
    {
      var y, z := if i < x then i else i - 1, if j < x then j else j - 1;
      if i == x {
        assert Within(ps[z], lens[z], upper, top);
        WidenWithin(ps[z], lens[z], upper, sz, top);
      } else if j == x {
        assert Within(ps[y], lens[y], upper, top);
        WidenWithin(ps[y], lens[y], upper, sz, top);
      } else {
        ApartAt(ps, lens, y, z);
      }
    }
  }

  lemma AddPlaced(ps: seq<nat>, lens: seq<nat>, upper: nat, top: nat, x: nat, sz: nat)
    requires |ps| == |lens| && Placed(ps, lens, upper, top)
    requires x <= |ps| && NODESIZE <= sz <= upper && sz % 2 == 0
    ensures Placed(Insert<nat>(ps, x, upper - sz), Insert(lens, x, sz), upper - sz, top)
  {
    hide Sum, AllWithin, AllApart;
    AddAllWithin(ps, lens, upper, top, x, sz);
    AddAllApart(ps, lens, upper, top, x, sz);
    var lens' := Insert(lens, x, sz);
    WithoutOne(lens', x);
    assert lens'[..x] + lens'[x + 1..] == lens;
  }

  /** Bytes from upper on stay. */
  lemma AddHolds(m: seq<byte>, m': seq<byte>, ps: seq<nat>, raws: seq<seq<byte>>, upper: nat, x: nat, raw: seq<byte>)
    requires Placed(ps, Lens(raws), upper, |m|) && Holds(m, ps, raws) && x <= |ps| && |raw| <= upper && |m'| == |m|
    requires forall b :: upper <= b < |m| ==> m'[b] == m[b]
    requires HoldsAt(m', upper - |raw|, raw)
    ensures Holds(m', Insert<nat>(ps, x, upper - |raw|), Insert(raws, x, raw))
  {
    hide Sum;
    var ps', raws' := Insert<nat>(ps, x, upper - |raw|), Insert(raws, x, raw);
    forall i | 0 <= i < |ps'|
      ensures HoldsAt(m', ps'[i], raws'[i])
    {
      if i != x {
        var y := if i < x then i else i - 1;
        Moved(m, m', ps[y], ps[y], raws[y]);
      }
    }
  }

  // ---------------------------------------------------------------- resizing

  /** The pointers after node x has grown by delta, downwards. */
  ghost predicate GrowPtrs(ps: seq<nat>, x: nat, delta: int, ps': seq<int>)
    requires x < |ps|
  {
    && |ps'| == |ps|
    && forall i :: 0 <= i < |ps'| ==> ps'[i] == Lower(ps[i], ps[x], delta)
  }

  function Lower(p: nat, ptr: nat, delta: int): int {
    if p <= ptr then p - delta else p
  }

  lemma LowerWithin(p: nat, m: nat, ptr: nat, sz: nat, delta: int, upper: nat, top: nat)
    requires Within(p, m, upper, top) && Within(ptr, sz, upper, top) && Apart(ptr, sz, p, m)
    requires delta % 2 == 0 && delta <= upper && sz + delta >= NODESIZE
    ensures Lower(p, ptr, delta) >= 0 && Within(Lower(p, ptr, delta), m, upper - delta, top)
  {
  }

  lemma LowerSelf(ptr: nat, sz: nat, delta: int, upper: nat, top: nat)
    requires Within(ptr, sz, upper, top) && delta % 2 == 0 && delta <= upper && sz + delta >= NODESIZE
    ensures Lower(ptr, ptr, delta) >= 0 && Within(Lower(ptr, ptr, delta), sz + delta, upper - delta, top)
  {
  }

  lemma LowerApart(p: nat, m: nat, q: nat, n: nat, ptr: nat, sz: nat, delta: int)
    requires Apart(ptr, sz, p, m) && Apart(ptr, sz, q, n) && Apart(p, m, q, n) && m > 0 && n > 0 && sz > 0
    requires sz + delta > 0 && delta <= p && delta <= q && delta <= ptr
    ensures Apart(Lower(p, ptr, delta), m, Lower(q, ptr, delta), n)
  {
  }

  lemma GrowPlaced(ps: seq<nat>, lens: seq<nat>, upper: nat, top: nat, x: nat, delta: int, ps': seq<nat>)
    requires Placed(ps, lens, upper, top) && x < |ps| && GrowPtrs(ps, x, delta, ps')
    requires delta % 2 == 0 && delta <= upper && lens[x] + delta >= NODESIZE
    ensures upper - delta <= top && Placed(ps', lens[x := lens[x] + delta], upper - delta, top)
  {
    hide Sum, Apart, Within, Lower;
    var lens' := lens[x := lens[x] + delta];
    WithoutOne(lens, x);
    WithoutOne(lens', x);
    assert lens'[..x] == lens[..x] && lens'[x + 1..] == lens[x + 1..];
    assert Within(ps[x], lens[x], upper, top);
    GrowAllWithin(ps, lens, upper, top, x, delta, ps');
    GrowAllApart(ps, lens, upper, top, x, delta, ps');
    assert upper - delta <= top by { WithinSpan(ps'[x], lens'[x], upper - delta, top); }
  }

  lemma GrowAllWithin(ps: seq<nat>, lens: seq<nat>, upper: nat, top: nat, x: nat, delta: int, ps': seq<nat>)
    requires AllWithin(ps, lens, upper, top) && AllApart(ps, lens) && x < |ps| && GrowPtrs(ps, x, delta, ps')
    requires delta % 2 == 0 && delta <= upper && lens[x] + delta >= NODESIZE
    ensures AllWithin(ps', lens[x := lens[x] + delta], upper - delta, top)
  {
    hide Apart, Within, Lower;
    assert Within(ps[x], lens[x], upper, top);
    forall i | 0 <= i < |ps'|
      ensures Within(ps'[i], lens[x := lens[x] + delta][i], upper - delta, top)
    {
      if i != x {
        ApartAt(ps, lens, x, i);
        assert Within(ps[i], lens[i], upper, top);
        LowerWithin(ps[i], lens[i], ps[x], lens[x], delta, upper, top);
      } else {
        LowerSelf(ps[x], lens[x], delta, upper, top);
      }
    }
  }

  lemma GrowAllApart(ps: seq<nat>, lens: seq<nat>, upper: nat, top: nat, x: nat, delta: int, ps': seq<nat>)
    requires AllWithin(ps, lens, upper, top) && AllApart(ps, lens) && x < |ps| && GrowPtrs(ps, x, delta, ps')
    requires delta % 2 == 0 && delta <= upper && lens[x] + delta >= NODESIZE
    ensures AllApart(ps', lens[x := lens[x] + delta])
  {
    hide Apart, Lower;
    assert Within(ps[x], lens[x], upper, top);
    forall i, j | 0 <= i < j < |ps'|
      ensures Apart(ps'[i], lens[x := lens[x] + delta][i], ps'[j], lens[x := lens[x] + delta][j])
    {
      assert Within(ps[i], lens[i], upper, top) && Within(ps[j], lens[j], upper, top);
      var y, z := if i == x then j else i, if j == x then i else j;
      ApartAt(ps, lens, x, y);
      ApartAt(ps, lens, x, z);
      ApartAt(ps, lens, i, j);
      if i != x && j != x {
        LowerApart(ps[i], lens[i], ps[j], lens[j], ps[x], lens[x], delta);
      } else {
        LowerApartSelf(ps[y], lens[y], ps[x], lens[x], delta);
      }
    }
  }

  lemma LowerApartSelf(p: nat, m: nat, ptr: nat, sz: nat, delta: int)
    requires Apart(ptr, sz, p, m) && m > 0 && sz > 0
    requires sz + delta > 0 && delta <= p && delta <= ptr
    ensures Apart(Lower(p, ptr, delta), m, Lower(ptr, ptr, delta), sz + delta)
    ensures Apart(Lower(ptr, ptr, delta), sz + delta, Lower(p, ptr, delta), m)
  {
  }

  /** Bytes [upper, ptr) have moved down by delta; those from `end` on stay. */
  ghost predicate MovedDown(m: seq<byte>, m': seq<byte>, upper: nat, ptr: nat, end: nat, delta: int) {
    && |m'| == |m|
    && (forall b :: upper - delta <= b < ptr - delta && 0 <= b < |m| ==> 0 <= b + delta < |m| && m'[b] == m[b + delta])
    && (forall b :: end <= b < |m| ==> m'[b] == m[b])
  }

  lemma GrowHolds(m: seq<byte>, m': seq<byte>, ps: seq<nat>, raws: seq<seq<byte>>, upper: nat, x: nat,
                  delta: int, ps': seq<nat>, raw: seq<byte>)
    requires Placed(ps, Lens(raws), upper, |m|) && Holds(m, ps, raws) && x < |ps| && GrowPtrs(ps, x, delta, ps')
    requires |raw| == |raws[x]| + delta && delta <= upper
    requires MovedDown(m, m', upper, ps[x], ps[x] + |raws[x]|, delta)
    requires HoldsAt(m', ps'[x], raw)
    ensures Holds(m', ps', raws[x := raw])
  {
    hide Sum, HoldsAt;
    var lens := Lens(raws);
    forall i | 0 <= i < |ps'|
      ensures HoldsAt(m', ps'[i], raws[x := raw][i])
    {
      if i != x {
        ApartAt(ps, lens, x, i);
        Moved(m, m', ps[i], ps'[i], raws[i]);
      }
    }
  }
}
