/** What moving a node between neighbours and merging them do to a tree in memory. */
module PageRebalance {
  import opened Base
  import opened Sizes
  import opened BTree
  import opened BTreeDelete
  import opened PageMemory
  import opened PathUpdate
  import opened PageSteps

  // ---------------------------------------------------------------- page contents

  /** A page with nothing below it: enough for what only looks at the page itself. */
  function Shell(g: Page): Tree {
    match g
    case LeafPg(es) => Leaf(es)
    case BranchPg(keys, kids) => Branch(keys, seq(|kids|, i requires 0 <= i < |kids| => Leaf([])))
  }

  lemma ShellIs(e: Env, t: LTree)
    ensures var s, v := Shell(Image(t)), Value(t);
            && NumKeys(s) == NumKeys(v) && s.Leaf? == v.Leaf? == t.LLeaf?
            && NeedsNoRebalance(e, s) == NeedsNoRebalance(e, v) && CanSpareNode(e, s) == CanSpareNode(e, v)
  {
    assert Used(e, Shell(Image(t))) == Used(e, Value(t));
  }

  /** All nodes of b after those of a; `low` is the key that b's first node gets on a branch. */
  function MergeImage(a: Page, b: Page, low: Key): Page
    requires a.LeafPg? == b.LeafPg?
  {
    if a.LeafPg? then LeafPg(a.es + b.es) else BranchPg(a.keys + [low] + b.keys, a.kids + b.kids)
  }

  predicate Lens(g: Page) {
    g.BranchPg? ==> |g.kids| == |g.keys| + 1
  }

  /** mdb_node_move from a, on the left, to b. */
  function MoveRight(e: Env, a: Page, b: Page, low: Key): Option<Halves>
    requires a.LeafPg? == b.LeafPg? && Lens(a) && Lens(b) && ImageNodes(a) >= 2
  {
    var n := ImageNodes(a);
    var room := PageMax(e) - ImageUsed(e, b);
    if a.LeafPg? then
      var x := a.es[n - 1];
      if room < LeafSlot(e, x) then None
      else Some(Halves(LeafPg(a.es[..n - 1]), x.key, LeafPg([x] + b.es)))
    else
      var s := a.keys[n - 2];
      if room < KeySlot(e, low) - FIRST_SLOT + KeySlot(e, s) then None
      else Some(Halves(BranchPg(a.keys[..n - 2], a.kids[..n - 1]), s, BranchPg([low] + b.keys, [a.kids[n - 1]] + b.kids)))
  }

  /** mdb_node_move from b, on the right, to a. */
  function MoveLeft(e: Env, a: Page, b: Page, low: Key): Option<Halves>
    requires a.LeafPg? == b.LeafPg? && Lens(a) && Lens(b) && ImageNodes(b) >= 2
  {
    var room := PageMax(e) - ImageUsed(e, a);
    if a.LeafPg? then
      var x := b.es[0];
      if room < LeafSlot(e, x) then None
      else Some(Halves(LeafPg(a.es + [x]), b.es[1].key, LeafPg(b.es[1..])))
    else
      if room < KeySlot(e, low) then None
      else Some(Halves(BranchPg(a.keys + [low], a.kids + [b.kids[0]]), b.keys[0], BranchPg(b.keys[1..], b.kids[1..])))
  }

  // ---------------------------------------------------------------- the same with page numbers

  function MergeL(a: LTree, b: LTree): LTree
    requires a.LLeaf? == b.LLeaf?
  {
    if a.LLeaf? then LLeaf(a.p, a.es + b.es)
    else LBranch(a.p, a.keys + [Lowest(Value(b))] + b.keys, a.kids + b.kids)
  }

  lemma MergeIs(a: LTree, b: LTree, h: nat)
    requires Shape(a, h) && Shape(b, h)
    ensures a.LLeaf? == b.LLeaf? && MergeL(a, b).p == a.p
    ensures Alike(Value(a), Value(b)) && Value(MergeL(a, b)) == Merged(Value(a), Value(b))
    ensures Image(MergeL(a, b)) == MergeImage(Image(a), Image(b), Lowest(Value(b)))
    ensures KidLabelsOf(MergeL(a, b)) == KidLabelsOf(a) + KidLabelsOf(b)
    ensures forall m :: KidsHold(m, a) && KidsHold(m, b) ==> KidsHold(m, MergeL(a, b))
    ensures Shape(MergeL(a, b), h)
  {
    hide Lowest, LabelsAll;
    if a.LBranch? {
      LabelsConcat(a.kids, b.kids);
      assert ValueAll(a.kids + b.kids) == ValueAll(a.kids) + ValueAll(b.kids);
      assert Roots(a.kids + b.kids) == Roots(a.kids) + Roots(b.kids);
    }
  }

  /** A node can go from one of the neighbours to the other. */
  predicate Movable(a: LTree, b: LTree, fromLeft: bool) {
    && a.LLeaf? == b.LLeaf?
    && if a.LLeaf? then |(if fromLeft then a else b).es| >= 2
       else && |a.kids| == |a.keys| + 1 && |b.kids| == |b.keys| + 1
            && |(if fromLeft then a else b).kids| >= 2
  }

  /** The two pages after a move, from the left or the right. */
  function NewLeft(a: LTree, b: LTree, fromLeft: bool): LTree
    requires Movable(a, b, fromLeft)
  {
    if a.LLeaf? then LLeaf(a.p, if fromLeft then a.es[..|a.es| - 1] else a.es + [b.es[0]])
    else if fromLeft then LBranch(a.p, a.keys[..|a.kids| - 2], a.kids[..|a.kids| - 1])
    else LBranch(a.p, a.keys + [Lowest(Value(b))], a.kids + [b.kids[0]])
  }

  function NewRight(a: LTree, b: LTree, fromLeft: bool): LTree
    requires Movable(a, b, fromLeft)
  {
    if a.LLeaf? then LLeaf(b.p, if fromLeft then [a.es[|a.es| - 1]] + b.es else b.es[1..])
    else if fromLeft then LBranch(b.p, [Lowest(Value(b))] + b.keys, [a.kids[|a.kids| - 1]] + b.kids)
    else LBranch(b.p, b.keys[1..], b.kids[1..])
  }

  lemma MoveParts(e: Env, a: LTree, b: LTree, h: nat, fromLeft: bool)
    requires Shape(a, h) && Shape(b, h) && NumKeys(Value(if fromLeft then a else b)) >= 2
    ensures Movable(a, b, fromLeft)
    ensures Alike(Value(a), Value(b)) && Lens(Image(a)) && Lens(Image(b)) && Image(a).LeafPg? == Image(b).LeafPg?
    ensures ImageNodes(Image(if fromLeft then a else b)) >= 2
    ensures var low := Lowest(Value(b));
            var x, y := NewLeft(a, b, fromLeft), NewRight(a, b, fromLeft);
            var r := if fromLeft then MoveRight(e, Image(a), Image(b), low) else MoveLeft(e, Image(a), Image(b), low);
            var g := if fromLeft then MovedRight(e, Value(a), Value(b)) else MovedLeft(e, Value(a), Value(b));
            && (r.None? ==> g == Full)
            && (r.Some? ==> g == Two(Value(x), r.value.sep, Value(y)) && Image(x) == r.value.left && Image(y) == r.value.right)
  {
    hide Lowest, LabelsAll, Sum, KeySizes, LeafSizes, Shape, ShapeAll;
    ShapeParts(a, h);
    ShapeParts(b, h);
    ImageIs(e, a);
    ImageIs(e, b);
    if a.LBranch? {
      MoveKids(a, b, fromLeft);
    }
  }

  lemma MoveKids(a: LTree, b: LTree, fromLeft: bool)
    requires a.LBranch? && Movable(a, b, fromLeft)
    ensures var x, y := NewLeft(a, b, fromLeft), NewRight(a, b, fromLeft);
            var n, ra, rb, va, vb := |a.kids|, Roots(a.kids), Roots(b.kids), ValueAll(a.kids), ValueAll(b.kids);
            if fromLeft then
              && Roots(x.kids) == ra[..n - 1] && ValueAll(x.kids) == va[..n - 1]
              && Roots(y.kids) == [ra[n - 1]] + rb && ValueAll(y.kids) == [va[n - 1]] + vb
            else
              && Roots(x.kids) == ra + [rb[0]] && ValueAll(x.kids) == va + [vb[0]]
              && Roots(y.kids) == rb[1..] && ValueAll(y.kids) == vb[1..]
  {
    hide Lowest;
  }

  /** A move takes no page out of the tree. */
  lemma MoveHolds(a: LTree, b: LTree, fromLeft: bool)
    requires Movable(a, b, fromLeft)
    ensures var x, y := NewLeft(a, b, fromLeft), NewRight(a, b, fromLeft);
            && x.p == a.p && y.p == b.p && KidLabelsOf(x) + KidLabelsOf(y) == KidLabelsOf(a) + KidLabelsOf(b)
            && forall m :: KidsHold(m, a) && KidsHold(m, b) ==> KidsHold(m, x) && KidsHold(m, y)
  {
    hide Lowest, LabelsAll, Value, HoldAll;
    if a.LBranch? {
      var x, y := NewLeft(a, b, fromLeft), NewRight(a, b, fromLeft);
      CutKids(a.kids, b.kids, if fromLeft then |a.kids| - 1 else |a.kids| + 1, x.kids, y.kids);
    }
  }

  /** The children of two neighbours, divided anew at n. */
  lemma CutKids(a: seq<LTree>, b: seq<LTree>, n: nat, l: seq<LTree>, r: seq<LTree>)
    requires n <= |a| + |b| && l == (a + b)[..n] && r == (a + b)[n..]
    ensures LabelsAll(l) + LabelsAll(r) == LabelsAll(a) + LabelsAll(b)
    ensures forall m :: HoldAll(m, a) && HoldAll(m, b) ==> HoldAll(m, l) && HoldAll(m, r)
  {
    hide LabelsAll, Holds;
    assert a + b == l + r;
    LabelsConcat(a, b);
    LabelsConcat(l, r);
    forall m | HoldAll(m, a) && HoldAll(m, b)
      ensures HoldAll(m, l) && HoldAll(m, r)
    {
      assert HoldAll(m, a + b);
    }
  }

  // ---------------------------------------------------------------- two neighbours and their parent

  /** The parent's page f with the neighbours a and b between its other children. */
  function Join(f: Frame, a: LTree, b: LTree): LTree {
    LBranch(f.p, f.keys, f.left + [a, b] + f.right)
  }

  predicate PairShape(f: Frame, h: nat) {
    |f.keys| == |f.left| + |f.right| + 1 && ShapeAll(f.left, h) && ShapeAll(f.right, h)
  }

  lemma JoinHolds(m: Mem, f: Frame, a: LTree, b: LTree)
    ensures Holds(m, Join(f, a, b)) <==>
            && f.p in m && m[f.p] == BranchPg(f.keys, Roots(f.left) + [a.p, b.p] + Roots(f.right))
            && HoldAll(m, f.left) && HoldAll(m, f.right) && Holds(m, a) && Holds(m, b)
  {
    hide Holds, HoldAll;
    var t := Join(f, a, b);
    assert Roots(t.kids) == Roots(f.left) + [a.p, b.p] + Roots(f.right);
    HoldAllTwo(m, f.left, a, b, f.right);
    HoldsWhen(m, t);
  }

  lemma HoldsWhen(m: Mem, t: LTree)
    ensures Holds(m, t) <==> t.p in m && m[t.p] == Image(t) && KidsHold(m, t)
  {
  }

  lemma JoinLabels(f: Frame, a: LTree, b: LTree)
    ensures Labels(Join(f, a, b)) == FrameLabels(f) + Labels(a) + Labels(b)
    ensures KidLabelsOf(Join(f, a, b)) == LabelsAll(f.left) + Labels(a) + Labels(b) + LabelsAll(f.right)
  {
    hide Labels, LabelsAll;
    LabelsTwo(f.left, a, b, f.right);
    LabelsSplit(Join(f, a, b));
  }

  /** Both neighbours as the hole of a frame. */
  lemma JoinFills(f: Frame, a: LTree, b: LTree)
    ensures Join(f, a, b) == Fill(Frame(f.p, f.keys, f.left, [b] + f.right), a)
    ensures Join(f, a, b) == Fill(Frame(f.p, f.keys, f.left + [a], f.right), b)
  {
    assert f.left + [a, b] + f.right == f.left + [a] + ([b] + f.right) == (f.left + [a]) + [b] + f.right;
  }

  /** The page of t with the neighbour that mdb_rebalance chooses: the left one, if there is one. */
  function PairFrame(f: Frame): Frame
    requires f.left != [] || f.right != []
  {
    if f.left == [] then Frame(f.p, f.keys, [], f.right[1..]) else Frame(f.p, f.keys, f.left[..|f.left| - 1], f.right)
  }

  function LeftOfPair(f: Frame, t: LTree): LTree {
    if f.left == [] then t else f.left[|f.left| - 1]
  }

  function RightOfPair(f: Frame, t: LTree): LTree {
    if f.left == [] && f.right != [] then f.right[0] else t
  }

  lemma ChooseNeighbour(f: Frame, t: LTree, h: nat)
    requires FrameShape(f, h) && Shape(t, h)
    ensures f.left != [] || f.right != []
    ensures var pair, a, b := PairFrame(f), LeftOfPair(f, t), RightOfPair(f, t);
            && Join(pair, a, b) == Fill(f, t) && pair.p == f.p && pair.keys == f.keys && PairShape(pair, h)
            && Shape(a, h) && Shape(b, h)
            && if f.left == [] then pair.left == [] && a == t else |pair.left| == |f.left| - 1 && b == t
  {
    var pair, a, b := PairFrame(f), LeftOfPair(f, t), RightOfPair(f, t);
    if f.left == [] {
      assert f.left + [t] + f.right == [] + [a, b] + f.right[1..];
    } else {
      assert f.left + [t] + f.right == f.left[..|f.left| - 1] + [a, b] + f.right;
    }
  }

  lemma PairOnce(c: Ctx, f: Frame, a: LTree, b: LTree)
    requires Unique(CtxLabels(c) + Labels(Join(f, a, b)))
    ensures Unique(CtxLabels(c) + FrameLabels(f) + Labels(a) + Labels(b))
    ensures a.p != b.p
    ensures forall p :: p == a.p || p == b.p ==>
              && p !in CtxLabels(c) && p != f.p && p !in LabelsAll(f.left) && p !in LabelsAll(f.right)
              && p !in KidLabelsOf(a) && p !in KidLabelsOf(b)
  {
    hide Labels, LabelsAll, CtxLabels;
    JoinLabels(f, a, b);
    assert CtxLabels(c) + Labels(Join(f, a, b)) == CtxLabels(c) + FrameLabels(f) + Labels(a) + Labels(b);
    TwoOnce(CtxLabels(c) + FrameLabels(f), a, b);
  }

  /** The neighbours' pages are written as x and y; the parent's page is next. */
  lemma PairWritten(m: Mem, c: Ctx, f: Frame, a: LTree, b: LTree, x: LTree, y: LTree, keys: seq<Key>)
    requires CtxHolds(m, c, f.p) && Holds(m, Join(f, a, b)) && Unique(CtxLabels(c) + Labels(Join(f, a, b)))
    requires x.p == a.p && y.p == b.p && KidsHold(m, x) && KidsHold(m, y)
    requires KidLabelsOf(x) + KidLabelsOf(y) == KidLabelsOf(a) + KidLabelsOf(b)
    ensures var m2 := m[a.p := Image(x)][b.p := Image(y)];
            var u := Join(Frame(f.p, keys, f.left, f.right), x, y);
            && CtxHolds(m2, c, f.p) && KidsHold(m2, u) && Labels(u) == Labels(Join(f, a, b))
            && f.p in m2 && m2[f.p].BranchPg? && m2[f.p].keys == f.keys && Image(u) == BranchPg(keys, m2[f.p].kids)
  {
    hide Labels, LabelsAll, CtxLabels, CtxHolds, Holds, HoldAll, Unique, Image, KidsHold, KidLabelsOf;
    var m2 := m[a.p := Image(x)][b.p := Image(y)];
    JoinHolds(m, f, a, b);
    PairOnce(c, f, a, b);
    PairLabels(f, a, b, x, y, keys);
    CtxHoldsSame(m, m2, c, f.p);
    HoldAllSame(m, m2, f.left);
    HoldAllSame(m, m2, f.right);
    InTwo(x, y, a, b);
    WrittenHolds(m, m2, x);
    WrittenHolds(m, m2, y);
    JoinKids(m2, Frame(f.p, keys, f.left, f.right), x, y);
  }

  lemma InTwo(x: LTree, y: LTree, a: LTree, b: LTree)
    requires KidLabelsOf(x) + KidLabelsOf(y) == KidLabelsOf(a) + KidLabelsOf(b)
    ensures forall p :: p in KidLabelsOf(x) || p in KidLabelsOf(y) ==> p in KidLabelsOf(a) || p in KidLabelsOf(b)
  {
    hide KidLabelsOf;
    forall p | p in KidLabelsOf(x) || p in KidLabelsOf(y)
      ensures p in KidLabelsOf(a) || p in KidLabelsOf(b)
    {
      assert p in KidLabelsOf(a) + KidLabelsOf(b);
    }
  }

  lemma WrittenHolds(m: Mem, m2: Mem, x: LTree)
    requires KidsHold(m, x) && Agree(m, m2, KidLabelsOf(x)) && x.p in m2 && m2[x.p] == Image(x)
    ensures Holds(m2, x)
  {
    hide HoldAll, LabelsAll;
    if x.LBranch? {
      HoldAllSame(m, m2, x.kids);
    }
    HoldsIf(m2, x);
  }

  lemma PairLabels(f: Frame, a: LTree, b: LTree, x: LTree, y: LTree, keys: seq<Key>)
    requires x.p == a.p && y.p == b.p && KidLabelsOf(x) + KidLabelsOf(y) == KidLabelsOf(a) + KidLabelsOf(b)
    ensures Labels(Join(Frame(f.p, keys, f.left, f.right), x, y)) == Labels(Join(f, a, b))
  {
    hide Labels, LabelsAll, KidLabelsOf;
    var f' := Frame(f.p, keys, f.left, f.right);
    JoinLabels(f, a, b);
    JoinLabels(f', x, y);
    LabelsSplit(a);
    LabelsSplit(b);
    LabelsSplit(x);
    LabelsSplit(y);
    var own := multiset{a.p} + multiset{b.p};
    assert Labels(x) + Labels(y) == own + (KidLabelsOf(x) + KidLabelsOf(y));
    assert Labels(a) + Labels(b) == own + (KidLabelsOf(a) + KidLabelsOf(b));
    assert Labels(Join(f, a, b)) == FrameLabels(f) + (Labels(a) + Labels(b));
    assert Labels(Join(f', x, y)) == FrameLabels(f) + (Labels(x) + Labels(y));
  }

  lemma JoinKids(m: Mem, f: Frame, a: LTree, b: LTree)
    requires HoldAll(m, f.left) && HoldAll(m, f.right) && Holds(m, a) && Holds(m, b)
    ensures KidsHold(m, Join(f, a, b))
    ensures Image(Join(f, a, b)) == BranchPg(f.keys, Roots(f.left) + [a.p, b.p] + Roots(f.right))
  {
    hide Holds, HoldAll;
    var t := Join(f, a, b);
    assert Roots(t.kids) == Roots(f.left) + [a.p, b.p] + Roots(f.right);
    HoldAllTwo(m, f.left, a, b, f.right);
  }

  /** The branch page with b's node and separator gone, and a in place of both. */
  function Joined(f: Frame, t: LTree): LTree
    requires |f.left| < |f.keys|
  {
    var l := |f.left|;
    LBranch(f.p, f.keys[..l] + f.keys[l + 1..], f.left + [t] + f.right)
  }

  function WithoutNode(g: Page, l: nat): Page
    requires g.BranchPg? && l < |g.keys| && |g.kids| == |g.keys| + 1
  {
    BranchPg(g.keys[..l] + g.keys[l + 1..], g.kids[..l + 1] + g.kids[l + 2..])
  }

  /** b's nodes are on a's page: the parent's page is next, and b's page is no longer needed. */
  lemma MergeWritten(m: Mem, c: Ctx, f: Frame, a: LTree, b: LTree, t: LTree)
    requires CtxHolds(m, c, f.p) && Holds(m, Join(f, a, b)) && Unique(CtxLabels(c) + Labels(Join(f, a, b)))
    requires |f.keys| == |f.left| + |f.right| + 1
    requires t.p == a.p && KidsHold(m, t) && KidLabelsOf(t) == KidLabelsOf(a) + KidLabelsOf(b)
    ensures var m2, u := m[a.p := Image(t)], Joined(f, t);
            && CtxHolds(m2, c, f.p) && KidsHold(m2, u)
            && CtxLabels(c) + Labels(u) + multiset{b.p} == CtxLabels(c) + Labels(Join(f, a, b))
            && f.p in m2 && m2[f.p].BranchPg? && m2[f.p].keys == f.keys && |m2[f.p].kids| == |f.keys| + 1
            && Image(u) == WithoutNode(m2[f.p], |f.left|)
  {
    hide Labels, LabelsAll, CtxLabels, CtxHolds, Holds, HoldAll, Unique, Joined, WithoutNode, Image, KidsHold, KidLabelsOf;
    var m2, u := m[a.p := Image(t)], Joined(f, t);
    JoinHolds(m, f, a, b);
    PairOnce(c, f, a, b);
    CtxHoldsSame(m, m2, c, f.p);
    HoldAllSame(m, m2, f.left);
    HoldAllSame(m, m2, f.right);
    WrittenHolds(m, m2, t);
    JoinedKids(m2, f, t);
    JoinedLabels(f, a, b, t);
    JoinedImage(f, a.p, b.p, t);
  }

  lemma JoinedImage(f: Frame, a: Pgno, b: Pgno, t: LTree)
    requires |f.keys| == |f.left| + |f.right| + 1 && t.p == a
    ensures var g := BranchPg(f.keys, Roots(f.left) + [a, b] + Roots(f.right));
            |g.kids| == |f.keys| + 1 && Image(Joined(f, t)) == WithoutNode(g, |f.left|)
  {
    var kids := Roots(f.left) + [a, b] + Roots(f.right);
    assert Roots(f.left + [t] + f.right) == kids[..|f.left| + 1] + kids[|f.left| + 2..];
  }

  lemma JoinedKids(m: Mem, f: Frame, t: LTree)
    requires HoldAll(m, f.left) && HoldAll(m, f.right) && Holds(m, t) && |f.left| < |f.keys|
    ensures KidsHold(m, Joined(f, t))
  {
    hide Holds;
    var u := Joined(f, t);
    forall i | 0 <= i < |u.kids|
      ensures Holds(m, u.kids[i])
    {
      if i > |f.left| {
        assert u.kids[i] == f.right[i - |f.left| - 1];
      }
    }
  }

  lemma JoinedLabels(f: Frame, a: LTree, b: LTree, t: LTree)
    requires t.p == a.p && KidLabelsOf(t) == KidLabelsOf(a) + KidLabelsOf(b) && |f.left| < |f.keys|
    ensures Labels(Joined(f, t)) + multiset{b.p} == Labels(Join(f, a, b))
  {
    hide Labels, LabelsAll, KidLabelsOf;
    JoinLabels(f, a, b);
    LabelsAround(f.left, t, f.right);
    LabelsSplit(Joined(f, t));
    JoinedKidLabels(f, t);
    LabelsSplit(a);
    LabelsSplit(b);
    LabelsSplit(t);
  }

  lemma JoinedKidLabels(f: Frame, t: LTree)
    requires |f.left| < |f.keys|
    ensures KidLabelsOf(Joined(f, t)) == LabelsAll(f.left + [t] + f.right)
  {
  }

  // ---------------------------------------------------------------- values

  function PairValues(f: Frame, a: Tree, b: Tree): (r: seq<Tree>)
    ensures |r| == |f.left| + 2 + |f.right|
  {
    ValueAll(f.left) + [a, b] + ValueAll(f.right)
  }

  lemma JoinValue(f: Frame, a: LTree, b: LTree)
    ensures Value(Join(f, a, b)) == Branch(f.keys, PairValues(f, Value(a), Value(b)))
  {
    assert ValueAll(f.left + [a, b] + f.right) == PairValues(f, Value(a), Value(b));
  }

  /** mdb_rebalance of the page in the hole is BTreeDelete.Rebalance of its parent. */
  lemma RebalanceUp(e: Env, c: Ctx, f: Frame, t: LTree, h: nat)
    requires FrameShape(f, h)
    ensures Up(e, c + [f], Shrunk(One(Value(t)), true)) ==
            Up(e, c, Rebalance(e, f.keys, Children(f, Value(t)), |f.left|))
  {
    hide Rebalance, ShapeAll, Up, Children;
    var r := Shrunk(One(Value(t)), true);
    UpLast(e, c, f, r);
    ShrinkIgnores(e, f, Value(t), r);
    ChildSet(f, Value(t), Value(t));
  }

  /** The result of a move for the parent's page. */
  function MoveResult(e: Env, f: Frame, a: Tree, b: Tree, fromLeft: bool): Shrunk
    requires Alike(a, b) && NumKeys(if fromLeft then a else b) >= 2 && |f.keys| == |f.left| + |f.right| + 1
  {
    var m := if fromLeft then MovedRight(e, a, b) else MovedLeft(e, a, b);
    if m.Two? then Shrunk(UpdateKey(e, f.keys, PairValues(f, m.left, m.right), |f.left|, m.sep), false)
    else Shrunk(Full, false)
  }

  function MergeResult(e: Env, f: Frame, a: Tree, b: Tree): Shrunk
    requires Alike(a, b) && |f.keys| == |f.left| + |f.right| + 1
  {
    if Used(e, Merged(a, b)) > PageMax(e) then Shrunk(Full, false)
    else Shrunk(One(WithoutKid(f.keys, PairValues(f, a, b), |f.left|, Merged(a, b))), true)
  }

  lemma PairSet(f: Frame, a: Tree, b: Tree, x: Tree, y: Tree)
    ensures PairValues(f, a, b)[|f.left|] == a && PairValues(f, a, b)[|f.left| + 1] == b
    ensures PairValues(f, a, b)[|f.left| := x][|f.left| + 1 := y] == PairValues(f, x, y)
  {
  }

  /** The choice that mdb_rebalance makes. */
  lemma RebalanceIs(e: Env, f: Frame, a: Tree, b: Tree, i: nat)
    requires Alike(a, b) && |f.keys| == |f.left| + |f.right| + 1
    requires if i == 0 then f.left == [] else i == |f.left| + 1
    requires !NeedsNoRebalance(e, if i == 0 then a else b)
    ensures var neighbour := if i == 0 then b else a;
            && (CanSpareNode(e, neighbour) ==> NumKeys(neighbour) >= 2)
            && Rebalance(e, f.keys, PairValues(f, a, b), i) ==
               if CanSpareNode(e, neighbour) then MoveResult(e, f, a, b, i > 0) else MergeResult(e, f, a, b)
  {
    hide UpdateKey, Used, Merged, WithoutKid, PairValues, MovedLeft, MovedRight, NeedsNoRebalance;
    PairSet(f, a, b, a, b);
    if CanSpareNode(e, if i == 0 then b else a) {
      var m := if i > 0 then MovedRight(e, a, b) else MovedLeft(e, a, b);
      PairSet(f, a, b, if m.Two? then m.left else a, if m.Two? then m.right else b);
    }
  }

  lemma JoinedValue(e: Env, f: Frame, a: Tree, b: Tree, t: LTree)
    requires |f.keys| == |f.left| + |f.right| + 1
    ensures Value(Joined(f, t)) == WithoutKid(f.keys, PairValues(f, a, b), |f.left|, Value(t))
  {
    var l, kids := |f.left|, PairValues(f, a, b);
    assert kids[..l] == ValueAll(f.left) && kids[l + 2..] == ValueAll(f.right);
    assert ValueAll(f.left + [t] + f.right) == kids[..l] + [Value(t)] + kids[l + 2..];
  }

  lemma JoinedShape(f: Frame, t: LTree, h: nat)
    requires PairShape(f, h) && Shape(t, h)
    ensures Shape(Joined(f, t), h + 1)
  {
    var u := Joined(f, t);
    forall i | 0 <= i < |u.kids|
      ensures Shape(u.kids[i], h)
    {
      if i > |f.left| {
        assert u.kids[i] == f.right[i - |f.left| - 1];
      }
    }
  }

  /** Whether the parent's page has room for the new separator. */
  predicate KeyFits(e: Env, keys: seq<Key>, l: nat, s: Key)
    requires l < |keys|
  {
    var old', new' := Even(e.ksize(keys[l])), Even(e.ksize(s));
    !(new' > old' && PageMax(e) < Sum(KeySizes(e, keys)) + (new' - old'))
  }

  lemma UpdateKeyIs(e: Env, f: Frame, x: LTree, y: LTree, s: Key)
    requires |f.keys| == |f.left| + |f.right| + 1
    ensures var l := |f.left|;
            var u := Value(Join(Frame(f.p, f.keys[l := s], f.left, f.right), x, y));
            UpdateKey(e, f.keys, PairValues(f, Value(x), Value(y)), l, s) ==
            if KeyFits(e, f.keys, l, s) then One(u) else SplitTree(e, u, l + 1)
  {
    hide SplitBranch, Sum, KeySizes, PairValues;
    var l := |f.left|;
    JoinValue(Frame(f.p, f.keys[l := s], f.left, f.right), x, y);
    SamePairValues(f, Frame(f.p, f.keys[l := s], f.left, f.right), Value(x), Value(y));
  }

  lemma SamePairValues(f: Frame, f': Frame, a: Tree, b: Tree)
    requires f.left == f'.left && f.right == f'.right
    ensures PairValues(f, a, b) == PairValues(f', a, b)
  {
  }

  // ---------------------------------------------------------------- the end

  lemma NothingToDo(e: Env, c: Ctx, t: LTree, h: nat, depth: nat)
    requires CtxShape(c, h) && NeedsNoRebalance(e, Value(t))
    ensures Finish(Up(e, c, Shrunk(One(Value(t)), true)), depth) == Some(Db(Some(Value(Plug(c, t))), depth))
  {
    hide Up, CtxShape, Value, PageFill, ShapeAll, Children, UpOne;
    if c == [] {
      AtRoot(e, multiset{}, Shrunk(One(Value(t)), true));
    } else {
      var d, f := c[..|c| - 1], c[|c| - 1];
      assert c == d + [f];
      ShapeLast(d, f, h);
      RebalanceUp(e, d, f, t, h);
      ChildAt(f, Value(t));
      ValueFill(f, t);
      UpDone(e, d, Fill(f, t), h + 1);
      PlugLast(d, f, t);
    }
  }

  /** A root page that lost a node. */
  lemma RootShrinks(e: Env, t: LTree, depth: nat)
    requires depth > 0
    ensures Finish(Up(e, [], Shrunk(One(Value(t)), true)), depth) ==
            Some(if NumKeys(Value(t)) == 0 then Db(None, 0)
                 else if t.LBranch? && |t.kids| == 1 then Db(Some(Value(t.kids[0])), depth - 1)
                 else Db(Some(Value(t)), depth))
  {
  }

  lemma EmptyRoot(t: LTree)
    requires NumKeys(Value(t)) == 0
    ensures Labels(t) == multiset{t.p}
  {
  }

  lemma OnlyChild(m: Mem, t: LTree)
    requires t.LBranch? && |t.kids| == 1 && Holds(m, t)
    ensures Labels(t) == Labels(t.kids[0]) + multiset{t.p}
    ensures m[t.p].BranchPg? && m[t.p].kids == [t.kids[0].p] && Holds(m, t.kids[0])
  {
    hide Labels;
    assert t.kids == [t.kids[0]];
    LabelsOne(t.kids[0]);
    LabelsSplit(t);
  }

  lemma ValuesOf(f: Frame, t: LTree, pair: Frame, a: LTree, b: LTree)
    requires Fill(f, t) == Join(pair, a, b)
    ensures Children(f, Value(t)) == PairValues(pair, Value(a), Value(b))
  {
    hide Value;
    ValueFill(f, t);
    JoinValue(pair, a, b);
  }

  lemma AtShape(t: LTree, t': LTree, h: nat)
    requires t' == At(t, t'.p) && Shape(t, h)
    ensures Shape(t', h) && Value(t') == Value(t)
  {
  }

  lemma LookupLeaf(es: seq<Entry>, k: Key)
    ensures Lookup(Leaf(es), k).Some? <==> FoundAt(es, LeafPos(es, k), k)
  {
  }

  lemma DelAtRoot(e: Env, t: LTree, depth: nat, k: Key)
    requires Lookup(Value(t), k).Some? && depth > 0
    ensures var r := Finish(DelTree(e, Value(t), k), depth);
            Del(e, Db(Some(Value(t)), depth), k) == if r.None? then Failed else Deleted(r.value)
  {
    hide DelTree, Lookup, ShrinkRoot;
  }
}
