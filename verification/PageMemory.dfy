/**
 Trees in memory: which pages hold a tree, what a write to one page leaves alone, and the path
 from the root to a page as a context around the tree below it.
 */
module PageMemory {
  import opened Base
  import opened Sizes
  import opened BTree

  /** A page's contents; a branch points to its children by page number. */
  datatype Page = LeafPg(es: seq<Entry>) | BranchPg(keys: seq<Key>, kids: seq<Pgno>)

  /** What each page number holds, as the write transaction sees it. */
  type Mem = map<Pgno, Page>

  /** A tree with the page numbers it lies at. */
  datatype LTree =
    | LLeaf(p: Pgno, es: seq<Entry>)
    | LBranch(p: Pgno, keys: seq<Key>, kids: seq<LTree>)

  // ---------------------------------------------------------------- one tree

  function Roots(ts: seq<LTree>): (r: seq<Pgno>)
    ensures |r| == |ts| && forall i :: 0 <= i < |r| ==> r[i] == ts[i].p
  {
    seq(|ts|, i requires 0 <= i < |ts| => ts[i].p)
  }

  /** What the top page of t holds. */
  function Image(t: LTree): Page {
    if t.LLeaf? then LeafPg(t.es) else BranchPg(t.keys, Roots(t.kids))
  }

  predicate Holds(m: Mem, t: LTree)
    decreases t
  {
    t.p in m && m[t.p] == Image(t) && (t.LBranch? ==> HoldAll(m, t.kids))
  }

  predicate HoldAll(m: Mem, ts: seq<LTree>)
    decreases ts
  {
    forall i :: 0 <= i < |ts| ==> Holds(m, ts[i])
  }

  /** The pages of a tree, each as often as it occurs. */
  function Labels(t: LTree): multiset<Pgno>
    decreases t
  {
    multiset{t.p} + (if t.LLeaf? then multiset{} else LabelsAll(t.kids))
  }

  function LabelsAll(ts: seq<LTree>): multiset<Pgno>
    decreases ts
  {
    if ts == [] then multiset{} else Labels(ts[0]) + LabelsAll(ts[1..])
  }

  /** The tree without its page numbers. */
  function Value(t: LTree): Tree
    decreases t
  {
    if t.LLeaf? then Leaf(t.es) else Branch(t.keys, ValueAll(t.kids))
  }

  function ValueAll(ts: seq<LTree>): (r: seq<Tree>)
    ensures |r| == |ts| && forall i :: 0 <= i < |r| ==> r[i] == Value(ts[i])
    decreases ts
  {
    seq(|ts|, i requires 0 <= i < |ts| => Value(ts[i]))
  }

  /** The same tree with its top page elsewhere. */
  function At(t: LTree, q: Pgno): LTree {
    if t.LLeaf? then LLeaf(q, t.es) else LBranch(q, t.keys, t.kids)
  }

  lemma {:induction false} KidLabels(ts: seq<LTree>, i: nat)
    requires i < |ts|
    ensures Labels(ts[i]) <= LabelsAll(ts)
  {
    hide Labels;
    if i > 0 {
      KidLabels(ts[1..], i - 1);
      assert ts[i] == ts[1..][i - 1];
    }
  }

  lemma {:induction false} LabelsConcat(a: seq<LTree>, b: seq<LTree>)
    ensures LabelsAll(a + b) == LabelsAll(a) + LabelsAll(b)
  {
    hide Labels;
    if a == [] {
      assert a + b == b;
    } else {
      assert (a + b)[1..] == a[1..] + b;
      LabelsConcat(a[1..], b);
    }
  }

  lemma LabelsOne(t: LTree)
    ensures LabelsAll([t]) == Labels(t)
  {
    assert LabelsAll([t]) == Labels(t) + LabelsAll([t][1..]);
  }

  lemma LabelsAround(a: seq<LTree>, t: LTree, b: seq<LTree>)
    ensures LabelsAll(a + [t] + b) == LabelsAll(a) + Labels(t) + LabelsAll(b)
  {
    hide Labels, LabelsAll;
    LabelsConcat(a + [t], b);
    LabelsConcat(a, [t]);
    LabelsOne(t);
  }

  lemma LabelsTwo(a: seq<LTree>, x: LTree, y: LTree, b: seq<LTree>)
    ensures LabelsAll(a + [x, y] + b) == LabelsAll(a) + Labels(x) + Labels(y) + LabelsAll(b)
  {
    hide Labels, LabelsAll;
    LabelsConcat(a + [x, y], b);
    LabelsConcat(a, [x, y]);
    assert [x, y] == [x] + [y];
    LabelsConcat([x], [y]);
    LabelsOne(x);
    LabelsOne(y);
  }

  // ---------------------------------------------------------------- writes

  /** Memory m2 agrees with m1 on the pages of s. */
  ghost predicate Agree(m1: Mem, m2: Mem, s: multiset<Pgno>) {
    forall p :: p in s && p in m1 ==> p in m2 && m2[p] == m1[p]
  }

  lemma {:induction false} HoldsSame(m1: Mem, m2: Mem, t: LTree)
    requires Holds(m1, t) && Agree(m1, m2, Labels(t))
    ensures Holds(m2, t)
    decreases t
  {
    if t.LBranch? {
      HoldAllSame(m1, m2, t.kids);
    }
  }

  lemma {:induction false} HoldAllSame(m1: Mem, m2: Mem, ts: seq<LTree>)
    requires HoldAll(m1, ts) && Agree(m1, m2, LabelsAll(ts))
    ensures HoldAll(m2, ts)
    decreases ts
  {
    forall i | 0 <= i < |ts|
      ensures Holds(m2, ts[i])
    {
      KidLabels(ts, i);
      HoldsSame(m1, m2, ts[i]);
    }
  }

  lemma HoldAllConcat(m: Mem, a: seq<LTree>, b: seq<LTree>)
    ensures HoldAll(m, a + b) <==> HoldAll(m, a) && HoldAll(m, b)
  {
    hide Holds;
    if HoldAll(m, a + b) {
      assert forall i :: 0 <= i < |a| ==> (a + b)[i] == a[i];
      assert forall i :: 0 <= i < |b| ==> (a + b)[|a| + i] == b[i];
    }
  }

  lemma HoldAllTwo(m: Mem, left: seq<LTree>, a: LTree, b: LTree, right: seq<LTree>)
    ensures HoldAll(m, left + [a, b] + right) <==>
            HoldAll(m, left) && Holds(m, a) && Holds(m, b) && HoldAll(m, right)
  {
    hide Holds;
    HoldAllConcat(m, left + [a, b], right);
    HoldAllConcat(m, left, [a, b]);
    assert HoldAll(m, [a, b]) <==> Holds(m, [a, b][0]) && Holds(m, [a, b][1]);
  }

  // ---------------------------------------------------------------- contexts

  /** A branch page without one child: `left` and `right` are the children around the hole. */
  datatype Frame = Frame(p: Pgno, keys: seq<Key>, left: seq<LTree>, right: seq<LTree>)

  /** The pages from the root down to a hole, outermost first. */
  type Ctx = seq<Frame>

  function Fill(f: Frame, t: LTree): LTree {
    LBranch(f.p, f.keys, f.left + [t] + f.right)
  }

  /** The whole tree, with t in the hole. */
  function Plug(c: Ctx, t: LTree): LTree {
    if c == [] then t else Fill(c[0], Plug(c[1..], t))
  }

  function FrameLabels(f: Frame): multiset<Pgno> {
    multiset{f.p} + LabelsAll(f.left) + LabelsAll(f.right)
  }

  function CtxLabels(c: Ctx): multiset<Pgno> {
    if c == [] then multiset{} else FrameLabels(c[0]) + CtxLabels(c[1..])
  }

  predicate FrameHolds(m: Mem, f: Frame, hole: Pgno) {
    && f.p in m && m[f.p] == BranchPg(f.keys, Roots(f.left) + [hole] + Roots(f.right))
    && HoldAll(m, f.left) && HoldAll(m, f.right)
  }

  /** The page below frame i. */
  function Under(c: Ctx, hole: Pgno, i: nat): Pgno
    requires i < |c|
  {
    if i + 1 < |c| then c[i + 1].p else hole
  }

  predicate CtxHolds(m: Mem, c: Ctx, hole: Pgno) {
    forall i :: 0 <= i < |c| ==> FrameHolds(m, c[i], Under(c, hole, i))
  }

  function Top(c: Ctx, hole: Pgno): Pgno {
    if c == [] then hole else c[0].p
  }

  lemma FillLabels(f: Frame, t: LTree)
    ensures Labels(Fill(f, t)) == FrameLabels(f) + Labels(t)
  {
    LabelsAround(f.left, t, f.right);
  }

  lemma FillRoots(f: Frame, t: LTree)
    ensures Image(Fill(f, t)) == BranchPg(f.keys, Roots(f.left) + [t.p] + Roots(f.right))
  {
    assert Roots(f.left + [t] + f.right) == Roots(f.left) + [t.p] + Roots(f.right);
  }

  lemma FillHolds(m: Mem, f: Frame, t: LTree)
    ensures Holds(m, Fill(f, t)) <==> FrameHolds(m, f, t.p) && Holds(m, t)
  {
    FillRoots(f, t);
    var kids := f.left + [t] + f.right;
    if HoldAll(m, kids) {
      forall i | 0 <= i < |f.left|
        ensures Holds(m, f.left[i])
      {
        assert kids[i] == f.left[i];
      }
      forall i | 0 <= i < |f.right|
        ensures Holds(m, f.right[i])
      {
        assert kids[|f.left| + 1 + i] == f.right[i];
      }
      assert kids[|f.left|] == t;
    }
  }

  lemma {:induction false} PlugLabels(c: Ctx, t: LTree)
    ensures Labels(Plug(c, t)) == CtxLabels(c) + Labels(t)
  {
    hide Labels, FrameLabels;
    if c != [] {
      PlugLabels(c[1..], t);
      FillLabels(c[0], Plug(c[1..], t));
    }
  }

  lemma PlugTop(c: Ctx, t: LTree)
    ensures Plug(c, t).p == Top(c, t.p)
  {
  }

  lemma {:induction false} PlugHolds(m: Mem, c: Ctx, t: LTree)
    ensures Holds(m, Plug(c, t)) <==> CtxHolds(m, c, t.p) && Holds(m, t)
  {
    hide Holds, FrameHolds;
    if c != [] {
      var d := c[1..];
      PlugHolds(m, d, t);
      FillHolds(m, c[0], Plug(d, t));
      PlugTop(d, t);
      assert forall i :: 0 <= i < |d| ==> c[i + 1] == d[i] && Under(c, t.p, i + 1) == Under(d, t.p, i);
      if CtxHolds(m, c, t.p) {
        forall i | 0 <= i < |d|
          ensures FrameHolds(m, d[i], Under(d, t.p, i))
        {
          assert FrameHolds(m, c[i + 1], Under(c, t.p, i + 1));
        }
        assert FrameHolds(m, c[0], Under(c, t.p, 0));
      }
      if CtxHolds(m, d, t.p) && FrameHolds(m, c[0], Plug(d, t).p) {
        forall i | 0 <= i < |c|
          ensures FrameHolds(m, c[i], Under(c, t.p, i))
        {
          if i > 0 {
            assert FrameHolds(m, d[i - 1], Under(d, t.p, i - 1));
          }
        }
      }
    }
  }

  // the innermost frame

  lemma {:induction false} PlugLast(c: Ctx, f: Frame, t: LTree)
    ensures Plug(c + [f], t) == Plug(c, Fill(f, t))
  {
    if c != [] {
      assert (c + [f])[1..] == c[1..] + [f];
      PlugLast(c[1..], f, t);
    } else {
      assert (c + [f])[1..] == [];
    }
  }

  lemma {:induction false} LabelsLast(c: Ctx, f: Frame)
    ensures CtxLabels(c + [f]) == CtxLabels(c) + FrameLabels(f)
  {
    hide FrameLabels;
    if c != [] {
      assert (c + [f])[1..] == c[1..] + [f];
      LabelsLast(c[1..], f);
    } else {
      assert (c + [f])[1..] == [];
    }
  }

  lemma HoldsLast(m: Mem, c: Ctx, f: Frame, hole: Pgno)
    ensures CtxHolds(m, c + [f], hole) <==> CtxHolds(m, c, f.p) && FrameHolds(m, f, hole)
  {
    hide FrameHolds;
    var d := c + [f];
    assert forall i :: 0 <= i < |c| ==> d[i] == c[i] && Under(d, hole, i) == Under(c, f.p, i);
    assert d[|c|] == f && Under(d, hole, |c|) == hole;
    if CtxHolds(m, d, hole) {
      forall i | 0 <= i < |c|
        ensures FrameHolds(m, c[i], Under(c, f.p, i))
      {
        assert FrameHolds(m, d[i], Under(d, hole, i));
      }
      assert FrameHolds(m, d[|c|], Under(d, hole, |c|));
    }
  }

  lemma FrameHoldsSame(m1: Mem, m2: Mem, f: Frame, hole: Pgno)
    requires FrameHolds(m1, f, hole) && Agree(m1, m2, FrameLabels(f))
    ensures FrameHolds(m2, f, hole)
  {
    assert f.p in FrameLabels(f);
    HoldAllSame(m1, m2, f.left);
    HoldAllSame(m1, m2, f.right);
  }

  lemma {:induction false} FrameInCtx(c: Ctx, i: nat)
    requires i < |c|
    ensures FrameLabels(c[i]) <= CtxLabels(c)
  {
    hide FrameLabels;
    if i > 0 {
      FrameInCtx(c[1..], i - 1);
      assert c[i] == c[1..][i - 1];
    }
  }

  lemma CtxHoldsSame(m1: Mem, m2: Mem, c: Ctx, hole: Pgno)
    requires CtxHolds(m1, c, hole) && Agree(m1, m2, CtxLabels(c))
    ensures CtxHolds(m2, c, hole)
  {
    hide FrameHolds, FrameLabels, CtxLabels;
    forall i | 0 <= i < |c|
      ensures FrameHolds(m2, c[i], Under(c, hole, i))
    {
      FrameInCtx(c, i);
      FrameHoldsSame(m1, m2, c[i], Under(c, hole, i));
    }
  }

  // ---------------------------------------------------------------- writing the page in the hole

  /** The kids of t are in memory; its own page may not be yet. */
  predicate KidsHold(m: Mem, t: LTree) {
    t.LBranch? ==> HoldAll(m, t.kids)
  }

  function KidLabelsOf(t: LTree): multiset<Pgno> {
    if t.LLeaf? then multiset{} else LabelsAll(t.kids)
  }

  lemma WriteHole(m: Mem, c: Ctx, t: LTree)
    requires CtxHolds(m, c, t.p) && KidsHold(m, t)
    requires t.p !in CtxLabels(c) && t.p !in KidLabelsOf(t)
    ensures CtxHolds(m[t.p := Image(t)], c, t.p) && Holds(m[t.p := Image(t)], t)
  {
    hide CtxHolds, CtxLabels, LabelsAll;
    var m2 := m[t.p := Image(t)];
    CtxHoldsSame(m, m2, c, t.p);
    if t.LBranch? {
      HoldAllSame(m, m2, t.kids);
    }
  }

  /** The frame f points to another page now. */
  lemma HoleMoved(m: Mem, c: Ctx, f: Frame, hole: Pgno, q: Pgno)
    requires CtxHolds(m, c + [f], hole)
    requires f.p !in CtxLabels(c) && f.p !in LabelsAll(f.left) && f.p !in LabelsAll(f.right)
    ensures CtxHolds(m[f.p := BranchPg(f.keys, Roots(f.left) + [q] + Roots(f.right))], c + [f], q)
  {
    hide CtxHolds, CtxLabels, LabelsAll, HoldAll;
    var m2 := m[f.p := BranchPg(f.keys, Roots(f.left) + [q] + Roots(f.right))];
    HoldsLast(m, c, f, hole);
    CtxHoldsSame(m, m2, c, f.p);
    HoldAllSame(m, m2, f.left);
    HoldAllSame(m, m2, f.right);
    HoldsLast(m2, c, f, q);
  }

  // ---------------------------------------------------------------- page contents

  function ImageSizes(e: Env, g: Page): seq<nat> {
    if g.LeafPg? then LeafSizes(e, g.es) else KeySizes(e, g.keys)
  }

  function ImageUsed(e: Env, g: Page): nat {
    Sum(ImageSizes(e, g))
  }

  function ImageNodes(g: Page): nat {
    if g.LeafPg? then |g.es| else |g.kids|
  }

  lemma ImageIs(e: Env, t: LTree)
    ensures ImageSizes(e, Image(t)) == NodeSizes(e, Value(t))
    ensures ImageUsed(e, Image(t)) == Used(e, Value(t))
    ensures ImageNodes(Image(t)) == NumKeys(Value(t))
    ensures Image(t).LeafPg? == Value(t).Leaf? == t.LLeaf?
    ensures t.LBranch? ==> Value(t).keys == t.keys && |Value(t).kids| == |t.kids|
  {
  }

  lemma ImageKids(t: LTree)
    ensures match Image(t)
            case LeafPg(es) => t.LLeaf? && es == t.es
            case BranchPg(keys, kids) => t.LBranch? && keys == t.keys && |kids| == |t.kids|
  {
  }
}
