/**
 A change at the bottom of a path, carried up to the root: the recursion of BTree.PutTree and
 BTreeDelete.DelTree, taken from the leaf upwards as mdb_page_split and mdb_rebalance do.
 */
module PathUpdate {
  import opened Base
  import opened Sizes
  import opened SplitPoint
  import opened BTree
  import opened BTreeDelete
  import opened PageMemory

  /** The children of a frame's page as values, with x in the hole. */
  function Children(f: Frame, x: Tree): (r: seq<Tree>)
    ensures |r| == |f.left| + 1 + |f.right|
  {
    ValueAll(f.left) + [x] + ValueAll(f.right)
  }

  /** What becomes of the page of frame f when the page below it has become r. */
  function UpOne(e: Env, f: Frame, r: Shrunk): Shrunk {
    if |f.keys| != |f.left| + |f.right| then Shrunk(Full, false)  // not a branch page
    else Shrink(e, f.keys, Children(f, Leaf([])), |f.left|, r)
  }

  /** What becomes of the root page. */
  function Up(e: Env, c: Ctx, r: Shrunk): Shrunk {
    if c == [] then r else UpOne(e, c[0], Up(e, c[1..], r))
  }

  /** The database after its root page has become r; None if the operation failed. */
  function Finish(r: Shrunk, depth: nat): Option<Db> {
    if r.g.One? && r.check then Some(ShrinkRoot(r.g.t, depth)) else GrowRoot(r.g, depth)
  }

  lemma {:induction false} UpLast(e: Env, c: Ctx, f: Frame, r: Shrunk)
    ensures Up(e, c + [f], r) == Up(e, c, UpOne(e, f, r))
  {
    hide UpOne;
    if c != [] {
      assert (c + [f])[1..] == c[1..] + [f];
      UpLast(e, c[1..], f, r);
    } else {
      assert (c + [f])[1..] == [];
    }
  }

  /** The hole's old contents do not matter. */
  lemma ShrinkIgnores(e: Env, f: Frame, x: Tree, r: Shrunk)
    requires |f.keys| == |f.left| + |f.right|
    ensures Shrink(e, f.keys, Children(f, x), |f.left|, r) == UpOne(e, f, r)
  {
    hide Rebalance, SplitBranch, ValueAll, Sum, KeySizes;
    var i, y := |f.left|, Children(f, Leaf([]));
    var z := Children(f, x);
    assert z[..i] == y[..i] && z[i + 1..] == y[i + 1..];
    if r.g.One? {
      assert z[i := r.g.t] == y[i := r.g.t];
    }
  }

  lemma ValueFill(f: Frame, t: LTree)
    ensures Value(Fill(f, t)) == Branch(f.keys, Children(f, Value(t)))
  {
    assert ValueAll(f.left + [t] + f.right) == Children(f, Value(t));
  }

  // ---------------------------------------------------------------- the path of a key

  /** The search for k follows this path. */
  predicate Leads(c: Ctx, k: Key) {
    forall i :: 0 <= i < |c| ==> |c[i].left| == KidPos(c[i].keys, k) && |c[i].keys| == |c[i].left| + |c[i].right|
  }

  lemma LeadsRest(c: Ctx, k: Key)
    requires Leads(c, k) && c != []
    ensures Leads(c[1..], k)
    ensures |c[0].left| == KidPos(c[0].keys, k) && |c[0].keys| == |c[0].left| + |c[0].right|
  {
    forall i | 0 <= i < |c| - 1
      ensures |c[1..][i].left| == KidPos(c[1..][i].keys, k) && |c[1..][i].keys| == |c[1..][i].left| + |c[1..][i].right|
    {
      assert c[1..][i] == c[i + 1];
    }
  }

  lemma {:induction false} PutIsUp(e: Env, c: Ctx, t: LTree, k: Key, v: Val, inPlace: bool)
    requires Leads(c, k) && t.LLeaf?
    ensures Up(e, c, Shrunk(PutLeaf(e, t.es, k, v, inPlace), false)) ==
            Shrunk(PutTree(e, Value(Plug(c, t)), k, v, inPlace), false)
  {
    hide PutLeaf, Leads, KidPos, UpOne, Children, ReplaceKid;
    if c != [] {
      var f, d := c[0], c[1..];
      LeadsRest(c, k);
      PutIsUp(e, d, t, k, v, inPlace);
      var kid := Value(Plug(d, t));
      var g := PutTree(e, kid, k, v, inPlace);
      ValueFill(f, Plug(d, t));
      ShrinkIgnores(e, f, kid, Shrunk(g, false));
      assert Children(f, kid)[|f.left|] == kid by { ChildAt(f, kid); }
      PutBranch(e, f.keys, Children(f, kid), k, v, inPlace);
    }
  }

  lemma PutBranch(e: Env, keys: seq<Key>, kids: seq<Tree>, k: Key, v: Val, inPlace: bool)
    requires |kids| == |keys| + 1
    ensures PutTree(e, Branch(keys, kids), k, v, inPlace) ==
            ReplaceKid(e, keys, kids, KidPos(keys, k), PutTree(e, kids[KidPos(keys, k)], k, v, inPlace))
  {
  }

  lemma DelBranch(e: Env, keys: seq<Key>, kids: seq<Tree>, k: Key)
    requires |kids| == |keys| + 1
    ensures DelTree(e, Branch(keys, kids), k) ==
            Shrink(e, keys, kids, KidPos(keys, k), DelTree(e, kids[KidPos(keys, k)], k))
  {
  }

  lemma ChildAt(f: Frame, x: Tree)
    ensures Children(f, x)[|f.left|] == x
  {
  }

  lemma {:induction false} DelIsUp(e: Env, c: Ctx, t: LTree, k: Key)
    requires Leads(c, k) && t.LLeaf? && FoundAt(t.es, LeafPos(t.es, k), k)
    ensures Up(e, c, Shrunk(One(Leaf(Without1(t.es, LeafPos(t.es, k)))), true)) == DelTree(e, Value(Plug(c, t)), k)
  {
    hide Leads, KidPos, UpOne, Children, Shrink, LeafPos;
    if c != [] {
      var f, d := c[0], c[1..];
      LeadsRest(c, k);
      DelIsUp(e, d, t, k);
      var kid := Value(Plug(d, t));
      ValueFill(f, Plug(d, t));
      ShrinkIgnores(e, f, kid, DelTree(e, kid, k));
      assert Children(f, kid)[|f.left|] == kid by { ChildAt(f, kid); }
      DelBranch(e, f.keys, Children(f, kid), k);
    }
  }

  lemma {:induction false} LookupIsBelow(c: Ctx, t: LTree, k: Key)
    requires Leads(c, k) && t.LLeaf?
    ensures Lookup(Value(Plug(c, t)), k) == Lookup(Leaf(t.es), k)
  {
    hide Leads, KidPos, Children, LeafPos;
    if c != [] {
      var f, d := c[0], c[1..];
      LeadsRest(c, k);
      LookupIsBelow(d, t, k);
      ValueFill(f, Plug(d, t));
      ChildAt(f, Value(Plug(d, t)));
    }
  }

  // ---------------------------------------------------------------- levels

  /** All leaves at height 0, and one separator less than children. */
  predicate Shape(t: LTree, h: nat)
    decreases t
  {
    match t
    case LLeaf(_, _) => h == 0
    case LBranch(_, keys, kids) => h > 0 && |kids| == |keys| + 1 && ShapeAll(kids, h - 1)
  }

  predicate ShapeAll(ts: seq<LTree>, h: nat)
    decreases ts
  {
    forall i :: 0 <= i < |ts| ==> Shape(ts[i], h)
  }

  /** The children of f are at height h, and there are at least two. */
  predicate FrameShape(f: Frame, h: nat) {
    |f.keys| == |f.left| + |f.right| && f.keys != [] && ShapeAll(f.left, h) && ShapeAll(f.right, h)
  }

  predicate CtxShape(c: Ctx, h: nat) {
    forall i :: 0 <= i < |c| ==> FrameShape(c[i], h + (|c| - 1 - i))
  }

  lemma ShapeLast(c: Ctx, f: Frame, h: nat)
    ensures CtxShape(c + [f], h) <==> CtxShape(c, h + 1) && FrameShape(f, h)
  {
    hide FrameShape;
    var d := c + [f];
    assert forall i :: 0 <= i < |c| ==> d[i] == c[i];
    assert d[|c|] == f;
    if CtxShape(d, h) {
      assert FrameShape(d[|c|], h + (|d| - 1 - |c|));
      forall i | 0 <= i < |c|
        ensures FrameShape(c[i], h + 1 + (|c| - 1 - i))
      {
        assert FrameShape(d[i], h + (|d| - 1 - i));
      }
    }
    if CtxShape(c, h + 1) && FrameShape(f, h) {
      forall i | 0 <= i < |d|
        ensures FrameShape(d[i], h + (|d| - 1 - i))
      {
        if i < |c| {
          assert FrameShape(c[i], h + 1 + (|c| - 1 - i));
        }
      }
    }
  }

  lemma FrameLens(c: Ctx, h: nat)
    requires CtxShape(c, h) && c != []
    ensures var f := c[|c| - 1]; |f.keys| == |f.left| + |f.right|
  {
    assert FrameShape(c[|c| - 1], h + (|c| - 1 - (|c| - 1)));
  }

  lemma {:induction false} SoundShape(e: Env, t: LTree, h: nat, full: bool)
    requires Sound(e, Value(t), h, full)
    ensures Shape(t, h) && (t.LBranch? && full ==> |t.kids| >= 2)
    decreases t
  {
    hide Separated, KeySizes, LeafSizes, Sum;
    if t.LBranch? {
      SoundBranch(e, Value(t), h, full);
      assert Separated(t.keys, ValueAll(t.kids));
      assert |t.kids| == |t.keys| + 1 by { SeparatedCount(t.keys, ValueAll(t.kids)); }
      forall i | 0 <= i < |t.kids|
        ensures Shape(t.kids[i], h - 1)
      {
        assert Sound(e, ValueAll(t.kids)[i], h - 1, true);
        SoundShape(e, t.kids[i], h - 1, true);
      }
    }
  }

  lemma SeparatedCount(keys: seq<Key>, kids: seq<Tree>)
    requires Separated(keys, kids)
    ensures |kids| == |keys| + 1
  {
  }

  /** An unchanged page leaves those above it alone. */
  lemma {:induction false} UpDone(e: Env, c: Ctx, t: LTree, h: nat)
    requires CtxShape(c, h)
    ensures Up(e, c, Shrunk(One(Value(t)), false)) == Shrunk(One(Value(Plug(c, t))), false)
  {
    hide Rebalance, Children, ValueAll, ShapeAll, Value;
    if c != [] {
      var f, d := c[0], c[1..];
      assert c == [f] + d;
      assert FrameShape(f, h + (|c| - 1));
      forall i | 0 <= i < |d|
        ensures FrameShape(d[i], h + (|d| - 1 - i))
      {
        assert FrameShape(c[i + 1], h + (|c| - 1 - (i + 1)));
      }
      UpDone(e, d, t, h);
      ValueFill(f, Plug(d, t));
      assert Children(f, Leaf([]))[|f.left| := Value(Plug(d, t))] == Children(f, Value(Plug(d, t))) by {
        ChildSet(f, Leaf([]), Value(Plug(d, t)));
      }
    }
  }

  lemma ChildSet(f: Frame, x: Tree, y: Tree)
    ensures Children(f, x)[|f.left| := y] == Children(f, y)
  {
  }

  lemma {:induction false} UpFull(e: Env, c: Ctx)
    ensures Up(e, c, Shrunk(Full, false)) == Shrunk(Full, false)
  {
    if c != [] {
      UpFull(e, c[1..]);
    }
  }

  /** One step of the search for k from a branch t: to the child the frame leaves out. */
  function Toward(t: LTree, k: Key): (f: Frame)
    requires t.LBranch? && |t.kids| == |t.keys| + 1
  {
    var i := KidPos(t.keys, k);
    Frame(t.p, t.keys, t.kids[..i], t.kids[i + 1..])
  }

  lemma TowardStep(e: Env, c: Ctx, t: LTree, k: Key, h: nat)
    requires t.LBranch? && Sound(e, Value(t), h, true) && Leads(c, k) && CtxShape(c, h)
    ensures h > 0 && |t.kids| == |t.keys| + 1
    ensures var i, f := KidPos(t.keys, k), Toward(t, k);
            && f.p == t.p && |f.left| == i
            && Fill(f, t.kids[i]) == t && Leads(c + [f], k) && CtxShape(c + [f], h - 1)
            && Sound(e, Value(t.kids[i]), h - 1, true)
  {
    hide Separated, KeySizes, LeafSizes, Sum, KidPos, Sound, AllSound, ShapeAll, CtxShape, Value;
    SoundShape(e, t, h, true);
    ShapeParts(t, h);
    var i, f := KidPos(t.keys, k), Toward(t, k);
    assert t.kids == t.kids[..i] + [t.kids[i]] + t.kids[i + 1..];
    SoundKid(e, t, h, i);
    FrameShapeOf(t, h, i);
    ShapeLast(c, f, h - 1);
    var d := c + [f];
    forall j | 0 <= j < |d|
      ensures |d[j].left| == KidPos(d[j].keys, k) && |d[j].keys| == |d[j].left| + |d[j].right|
    {
      if j < |c| {
        assert |c[j].left| == KidPos(c[j].keys, k);
      }
    }
  }

  /** The page stack pg with its indices ki begins with the path c. */
  predicate Follows(pg: seq<Pgno>, ki: seq<nat>, c: Ctx) {
    |c| <= |pg| && |c| <= |ki| && forall i :: 0 <= i < |c| ==> pg[i] == c[i].p && ki[i] == |c[i].left|
  }

  lemma FollowsOn(pg: seq<Pgno>, ki: seq<nat>, c: Ctx, f: Frame, p: Pgno)
    requires Follows(pg, ki, c) && |pg| == |c| + 1 && |ki| == |c| && pg[|c|] == f.p
    ensures Follows(pg + [p], ki + [|f.left|], c + [f])
  {
  }

  lemma FollowsNone(pg: seq<Pgno>, ki: seq<nat>)
    ensures Follows(pg, ki, [])
  {
  }

  lemma FollowsTop(pg: seq<Pgno>, ki: seq<nat>, c: Ctx, i: nat)
    requires Follows(pg, ki, c)
    ensures Follows(pg, ki + [i], c)
  {
  }

  lemma ShapeParts(t: LTree, h: nat)
    requires Shape(t, h)
    ensures if t.LLeaf? then h == 0 else h > 0 && |t.kids| == |t.keys| + 1 && ShapeAll(t.kids, h - 1)
  {
  }

  lemma FrameShapeOf(t: LTree, h: nat, i: nat)
    requires t.LBranch? && h > 0 && |t.kids| == |t.keys| + 1 && |t.kids| >= 2 && ShapeAll(t.kids, h - 1) && i < |t.kids|
    ensures FrameShape(Frame(t.p, t.keys, t.kids[..i], t.kids[i + 1..]), h - 1)
  {
    hide Shape;
    forall j | 0 <= j < i
      ensures Shape(t.kids[..i][j], h - 1)
    {
      assert t.kids[..i][j] == t.kids[j];
    }
    var r := t.kids[i + 1..];
    forall j | 0 <= j < |r|
      ensures Shape(r[j], h - 1)
    {
      assert r[j] == t.kids[i + 1 + j];
    }
  }

  lemma SoundKid(e: Env, t: LTree, h: nat, i: nat)
    requires t.LBranch? && Sound(e, Value(t), h, true) && i < |t.kids| && h > 0
    ensures Sound(e, Value(t.kids[i]), h - 1, true)
  {
    hide Separated, KeySizes, LeafSizes, Sum;
    SoundBranch(e, Value(t), h, true);
    assert Sound(e, ValueAll(t.kids)[i], h - 1, true);
  }

  // ---------------------------------------------------------------- splitting a page

  datatype Halves = Halves(left: Page, sep: Key, right: Page)

  function SplitTree(e: Env, t: Tree, newindx: nat): Grown
    requires newindx < NumKeys(t) && (t.Branch? ==> |t.kids| == |t.keys| + 1)
  {
    if t.Leaf? then SplitLeaf(e, t.es, newindx) else SplitBranch(e, t.keys, t.kids, newindx)
  }

  /** mdb_page_split on one page: None if the parts do not fit. */
  function SplitImage(e: Env, g: Page, newindx: nat): Option<Halves>
    requires newindx < ImageNodes(g) && (g.BranchPg? ==> |g.kids| == |g.keys| + 1)
  {
    if ImageNodes(g) < 3 then None else
    var j := SplitIndex(ImageSizes(e, g), newindx, g.LeafPg?, PageMax(e));
    match g
    case LeafPg(es) =>
      if j < |es| && Sum(LeafSizes(e, es[..j])) <= PageMax(e) && Sum(LeafSizes(e, es[j..])) <= PageMax(e)
      then Some(Halves(LeafPg(es[..j]), es[j].key, LeafPg(es[j..]))) else None
    case BranchPg(keys, kids) =>
      if 0 < j < |kids| && Sum(KeySizes(e, keys[..j - 1])) <= PageMax(e) && Sum(KeySizes(e, keys[j..])) <= PageMax(e)
      then Some(Halves(BranchPg(keys[..j - 1], kids[..j]), keys[j - 1], BranchPg(keys[j..], kids[j..]))) else None
  }

  lemma SplitFails(e: Env, t: LTree, newindx: nat)
    requires newindx < NumKeys(Value(t)) && (t.LBranch? ==> |t.kids| == |t.keys| + 1)
    ensures SplitImage(e, Image(t), newindx).None? <==> SplitTree(e, Value(t), newindx).Full?
  {
    hide SplitIndex, Sum, KeySizes, LeafSizes;
  }

  /** Where the nodes of t can be divided. */
  predicate Divides(t: LTree, j: nat) {
    if t.LLeaf? then j <= |t.es| else 0 < j < |t.kids| == |t.keys| + 1
  }

  /** The two pages of a split, the right one at rp. */
  function LeftPart(t: LTree, j: nat): LTree
    requires Divides(t, j)
  {
    if t.LLeaf? then LLeaf(t.p, t.es[..j]) else LBranch(t.p, t.keys[..j - 1], t.kids[..j])
  }

  function RightPart(t: LTree, j: nat, rp: Pgno): LTree
    requires Divides(t, j)
  {
    if t.LLeaf? then LLeaf(rp, t.es[j..]) else LBranch(rp, t.keys[j..], t.kids[j..])
  }

  /** Where mdb_page_split divides them. */
  function CutOf(e: Env, t: LTree, newindx: nat): nat {
    var c := ImageSizes(e, Image(t));
    if |c| < 3 || newindx >= |c| then 0 else SplitIndex(c, newindx, t.LLeaf?, PageMax(e))
  }

  lemma SplitParts(e: Env, t: LTree, newindx: nat, rp: Pgno)
    requires newindx < NumKeys(Value(t)) && (t.LBranch? ==> |t.kids| == |t.keys| + 1)
    requires SplitImage(e, Image(t), newindx).Some?
    ensures Divides(t, CutOf(e, t, newindx))
    ensures var a, b := LeftPart(t, CutOf(e, t, newindx)), RightPart(t, CutOf(e, t, newindx), rp);
            var s := SplitImage(e, Image(t), newindx).value;
            && a.p == t.p && b.p == rp && Image(a) == s.left && Image(b) == s.right
            && SplitTree(e, Value(t), newindx) == Two(Value(a), s.sep, Value(b))
            && (t.LLeaf? ==> a.LLeaf? && b.LLeaf? && t.es == a.es + b.es)
  {
    hide SplitIndex, Sum, KeySizes, LeafSizes, LabelsAll;
    var j := CutOf(e, t, newindx);
    if t.LBranch? {
      assert Roots(t.kids)[..j] == Roots(t.kids[..j]) && Roots(t.kids)[j..] == Roots(t.kids[j..]);
      assert ValueAll(t.kids)[..j] == ValueAll(t.kids[..j]) && ValueAll(t.kids)[j..] == ValueAll(t.kids[j..]);
    }
  }

  lemma PartsHold(t: LTree, j: nat, rp: Pgno)
    requires Divides(t, j)
    ensures KidLabelsOf(LeftPart(t, j)) + KidLabelsOf(RightPart(t, j, rp)) == KidLabelsOf(t)
    ensures forall m :: KidsHold(m, t) ==> KidsHold(m, LeftPart(t, j)) && KidsHold(m, RightPart(t, j, rp))
  {
    hide LabelsAll;
    if t.LBranch? {
      assert t.kids == t.kids[..j] + t.kids[j..];
      LabelsConcat(t.kids[..j], t.kids[j..]);
    }
  }
}
