/** What touching, splitting, merging and moving do to a tree in memory, one step at a time. */
module PageSteps {
  import opened Base
  import opened Sizes
  import opened BTree
  import opened BTreeDelete
  import PageTree
  import opened PageMemory
  import opened PathUpdate

  // ---------------------------------------------------------------- page accounting

  /** Every page is in one place: in use by the tree, on a list, or used by others. */
  ghost predicate Accounted(live: multiset<Pgno>, freed: seq<Pgno>, loose: seq<Pgno>, pool: seq<Pgno>,
                            others: set<Pgno>, next: Pgno)
  {
    live + multiset(freed) + multiset(loose) + multiset(pool) + multiset(others) == multiset(PageTree.InUse(next))
  }

  ghost predicate Unique(live: multiset<Pgno>) {
    forall p :: live[p] <= 1
  }

  lemma AccountedOnce(live: multiset<Pgno>, freed: seq<Pgno>, loose: seq<Pgno>, pool: seq<Pgno>,
                      others: set<Pgno>, next: Pgno)
    requires Accounted(live, freed, loose, pool, others, next)
    ensures Unique(live)
    ensures forall p :: p in live || p in freed || p in loose || p in pool || p in others ==> p < next
    ensures forall p :: p in live ==> p !in freed && p !in loose && p !in pool && p !in others
    ensures forall p :: NUM_METAS <= p < next ==> p in live || p in freed || p in loose || p in pool || p in others
  {
    var all := live + multiset(freed) + multiset(loose) + multiset(pool) + multiset(others);
    assert forall p :: all[p] == live[p] + multiset(freed)[p] + multiset(loose)[p] + multiset(pool)[p] + multiset(others)[p];
    assert forall p :: all[p] == multiset(PageTree.InUse(next))[p];
    assert forall p :: p in freed ==> multiset(freed)[p] >= 1;
    assert forall p :: p in loose ==> multiset(loose)[p] >= 1;
    assert forall p :: p in pool ==> multiset(pool)[p] >= 1;
    assert forall p :: p in others ==> multiset(others)[p] == 1;
  }

  // ---------------------------------------------------------------- touch

  lemma AtLabels(t: LTree, q: Pgno)
    ensures Labels(At(t, q)) + multiset{t.p} == Labels(t) + multiset{q}
    ensures Value(At(t, q)) == Value(t) && KidLabelsOf(At(t, q)) == KidLabelsOf(t)
    ensures Image(At(t, q)) == Image(t)
    ensures forall h :: Shape(t, h) ==> Shape(At(t, q), h)
  {
  }

  lemma AtLabelsIn(above: multiset<Pgno>, t: LTree, q: Pgno)
    ensures above + Labels(At(t, q)) + multiset{t.p} == above + Labels(t) + multiset{q}
  {
    hide Labels;
    AtLabels(t, q);
    assert above + Labels(At(t, q)) + multiset{t.p} == above + (Labels(At(t, q)) + multiset{t.p});
    assert above + Labels(t) + multiset{q} == above + (Labels(t) + multiset{q});
  }

  lemma LastInCtx(c: Ctx)
    requires c != []
    ensures c[|c| - 1].p in CtxLabels(c)
  {
    FrameInCtx(c, |c| - 1);
    assert FrameLabels(c[|c| - 1])[c[|c| - 1].p] >= 1;
  }

  lemma LabelsSplit(t: LTree)
    ensures Labels(t) == multiset{t.p} + KidLabelsOf(t)
  {
  }

  /** Copied to page q; the page above, if any, points to q. */
  function Touched(m: Mem, c: Ctx, t: LTree, q: Pgno): Mem {
    var m' := m[q := Image(t)];
    if c == [] then m'
    else
      var f := c[|c| - 1];
      m'[f.p := BranchPg(f.keys, Roots(f.left) + [q] + Roots(f.right))]
  }

  lemma NoCtx(m: Mem, hole: Pgno)
    ensures CtxHolds(m, [], hole)
  {
  }

  /** The copy at q holds the same tree; the surroundings still point to the old page. */
  lemma Copied(m: Mem, c: Ctx, t: LTree, q: Pgno)
    requires CtxHolds(m, c, t.p) && Holds(m, t) && q !in CtxLabels(c) + Labels(t)
    ensures CtxHolds(m[q := Image(t)], c, t.p) && Holds(m[q := Image(t)], At(t, q))
  {
    hide CtxHolds, CtxLabels, LabelsAll, Holds, HoldAll, Labels;
    var u, m1 := At(t, q), m[q := Image(t)];
    AtLabels(t, q);
    LabelsSplit(t);
    HoldsParts(m, t);
    CtxHoldsSame(m, m1, c, t.p);
    if t.LBranch? {
      HoldAllSame(m, m1, t.kids);
    }
    HoldsIf(m1, u);
  }

  lemma TouchKeeps(m: Mem, c: Ctx, t: LTree, q: Pgno)
    requires CtxHolds(m, c, t.p) && Holds(m, t)
    requires Unique(CtxLabels(c) + Labels(t)) && q !in CtxLabels(c) + Labels(t)
    ensures CtxHolds(Touched(m, c, t, q), c, q) && Holds(Touched(m, c, t, q), At(t, q))
  {
    hide CtxHolds, CtxLabels, LabelsAll, Holds, HoldAll, Labels, Unique, FrameLabels;
    var m1 := m[q := Image(t)];
    Copied(m, c, t, q);
    if c == [] {
      NoCtx(m1, q);
    } else {
      var c0, f := c[..|c| - 1], c[|c| - 1];
      assert c == c0 + [f];
      LabelsLast(c0, f);
      TopOnce(CtxLabels(c0), f, CtxLabels(c) + Labels(t));
      InFrameOnly(f, CtxLabels(c), Labels(t));
      HoleMoved(m1, c0, f, t.p, q);
      AtLabels(t, q);
      assert f.p in CtxLabels(c) + Labels(t);
      assert (Labels(At(t, q)) + multiset{t.p})[f.p] == (Labels(t) + multiset{q})[f.p] == 0;
      HoldsSame(m1, Touched(m, c, t, q), At(t, q));
    }
  }

  lemma HoldsParts(m: Mem, t: LTree)
    requires Holds(m, t)
    ensures t.p in m && m[t.p] == Image(t) && KidsHold(m, t)
  {
  }

  lemma HoldsIf(m: Mem, t: LTree)
    requires t.p in m && m[t.p] == Image(t) && KidsHold(m, t)
    ensures Holds(m, t)
  {
  }

  /** The page of a frame occurs nowhere else. */
  lemma TopOnce(above: multiset<Pgno>, f: Frame, all: multiset<Pgno>)
    requires Unique(all) && above + FrameLabels(f) <= all
    ensures f.p !in above && f.p !in LabelsAll(f.left) && f.p !in LabelsAll(f.right)
  {
    assert (above + FrameLabels(f))[f.p] <= all[f.p];
    assert FrameLabels(f)[f.p] == 1 + LabelsAll(f.left)[f.p] + LabelsAll(f.right)[f.p];
  }

  lemma InFrameOnly(f: Frame, c: multiset<Pgno>, rest: multiset<Pgno>)
    requires Unique(c + rest) && FrameLabels(f) <= c
    ensures f.p in c && f.p !in rest
  {
    assert FrameLabels(f)[f.p] >= 1;
    assert (c + rest)[f.p] == c[f.p] + rest[f.p];
  }

  // ---------------------------------------------------------------- a page's new contents

  /** t's own page is outside its context and its subtrees. */
  lemma HoleOnce(c: Ctx, t: LTree)
    requires Unique(CtxLabels(c) + Labels(t))
    ensures t.p !in CtxLabels(c) && t.p !in KidLabelsOf(t)
  {
    LabelsSplit(t);
    var all := CtxLabels(c) + Labels(t);
    assert all[t.p] == CtxLabels(c)[t.p] + 1 + KidLabelsOf(t)[t.p];
  }

  /** The two pages of a split or a move are written. */
  lemma TwoWrites(m: Mem, c: Ctx, a: LTree, b: LTree)
    requires CtxHolds(m, c, a.p) && KidsHold(m, a) && KidsHold(m, b)
    requires Unique(CtxLabels(c) + Labels(a) + Labels(b))
    ensures CtxHolds(m[a.p := Image(a)][b.p := Image(b)], c, a.p)
    ensures Holds(m[a.p := Image(a)][b.p := Image(b)], a) && Holds(m[a.p := Image(a)][b.p := Image(b)], b)
  {
    hide CtxHolds, CtxLabels, LabelsAll, Holds, HoldAll, Labels;
    var m1 := m[a.p := Image(a)];
    var m2 := m1[b.p := Image(b)];
    TwoOnce(CtxLabels(c), a, b);
    CtxHoldsSame(m, m2, c, a.p);
    if a.LBranch? {
      HoldAllSame(m, m2, a.kids);
    }
    if b.LBranch? {
      HoldAllSame(m, m2, b.kids);
    }
    HoldsIf(m2, a);
    HoldsIf(m2, b);
  }

  lemma TwoOnce(above: multiset<Pgno>, a: LTree, b: LTree)
    requires Unique(above + Labels(a) + Labels(b))
    ensures a.p != b.p && a.p !in above && b.p !in above
    ensures a.p !in KidLabelsOf(a) && a.p !in KidLabelsOf(b) && b.p !in KidLabelsOf(a) && b.p !in KidLabelsOf(b)
  {
    hide Labels;
    LabelsSplit(a);
    LabelsSplit(b);
    var all := above + Labels(a) + Labels(b);
    assert forall p :: all[p] == above[p] + multiset{a.p}[p] + KidLabelsOf(a)[p] + multiset{b.p}[p] + KidLabelsOf(b)[p];
    assert all[a.p] <= 1 && all[b.p] <= 1;
  }

  /** The page of t, split in two, with the right part at rp. */
  lemma SplitWritten(e: Env, m: Mem, c: Ctx, t: LTree, newindx: nat, rp: Pgno)
    requires newindx < NumKeys(Value(t)) && (t.LBranch? ==> |t.kids| == |t.keys| + 1)
    requires SplitImage(e, Image(t), newindx).Some?
    requires CtxHolds(m, c, t.p) && KidsHold(m, t) && Unique(CtxLabels(c) + Labels(t) + multiset{rp})
    ensures Divides(t, CutOf(e, t, newindx))
    ensures var a, b := LeftPart(t, CutOf(e, t, newindx)), RightPart(t, CutOf(e, t, newindx), rp);
            var s := SplitImage(e, Image(t), newindx).value;
            var m2 := m[t.p := s.left][rp := s.right];
            && (t.LLeaf? ==> a.LLeaf? && b.LLeaf? && t.es == a.es + b.es)
            && a.p == t.p && b.p == rp && CtxLabels(c) + Labels(a) + Labels(b) == CtxLabels(c) + Labels(t) + multiset{rp}
            && SplitTree(e, Value(t), newindx) == Two(Value(a), s.sep, Value(b)) && Image(a) == s.left
            && CtxHolds(m2, c, a.p) && Holds(m2, a) && Holds(m2, b)
  {
    hide CtxHolds, CtxLabels, LabelsAll, Holds, HoldAll, Labels, SplitTree, SplitImage, Image, Value, LeftPart, RightPart, Divides, CutOf;
    SplitParts(e, t, newindx, rp);
    var j := CutOf(e, t, newindx);
    PartsHold(t, j, rp);
    var a, b := LeftPart(t, j), RightPart(t, j, rp);
    LabelsSplit(t);
    LabelsSplit(a);
    LabelsSplit(b);
    assert CtxLabels(c) + Labels(a) + Labels(b) == CtxLabels(c) + Labels(t) + multiset{rp};
    TwoWrites(m, c, a, b);
  }

  lemma AtRoot(e: Env, live: multiset<Pgno>, r: Shrunk)
    ensures CtxLabels([]) + live == live && Up(e, [], r) == r
  {
  }

  lemma FinishFull(depth: nat)
    ensures Finish(Shrunk(Full, false), depth) == None
  {
  }

  // ---------------------------------------------------------------- the separator goes up

  /** The branch page after a node for page rp was added behind child i. */
  function WithKid(g: Page, i: nat, s: Key, rp: Pgno): Page
    requires g.BranchPg? && i <= |g.keys| && i < |g.kids|
  {
    BranchPg(g.keys[..i] + [s] + g.keys[i..], g.kids[..i + 1] + [rp] + g.kids[i + 1..])
  }

  function Grow(f: Frame, a: LTree, s: Key, b: LTree): LTree
    requires |f.left| <= |f.keys|
  {
    var i := |f.left|;
    LBranch(f.p, f.keys[..i] + [s] + f.keys[i..], f.left + [a, b] + f.right)
  }

  /** A separator may not fit on the page (the check of mdb_page_split does not round up). */
  predicate NoRoom(e: Env, keys: seq<Key>, s: Key) {
    PageMax(e) - Sum(KeySizes(e, keys)) < NODESIZE + e.ksize(s) + SLOT
  }

  lemma GrowIs(m: Mem, f: Frame, a: LTree, s: Key, b: LTree)
    requires |f.keys| == |f.left| + |f.right|
    requires FrameHolds(m, f, a.p) && Holds(m, a) && Holds(m, b)
    ensures KidsHold(m, Grow(f, a, s, b))
    ensures Labels(Grow(f, a, s, b)) == FrameLabels(f) + Labels(a) + Labels(b)
    ensures Image(Grow(f, a, s, b)) == WithKid(m[f.p], |f.left|, s, b.p)
  {
    hide Labels, LabelsAll, Holds;
    var t := Grow(f, a, s, b);
    LabelsSplit(t);
    LabelsTwo(f.left, a, b, f.right);
    var g := m[f.p];
    assert Roots(t.kids) == g.kids[..|f.left| + 1] + [b.p] + g.kids[|f.left| + 1..];
    forall i | 0 <= i < |t.kids|
      ensures Holds(m, t.kids[i])
    {
      if i > |f.left| + 1 {
        assert t.kids[i] == f.right[i - |f.left| - 2];
      }
    }
  }

  lemma GrowUp(e: Env, f: Frame, a: LTree, s: Key, b: LTree)
    requires |f.keys| == |f.left| + |f.right|
    ensures var t := Value(Grow(f, a, s, b));
            UpOne(e, f, Shrunk(Two(Value(a), s, Value(b)), false)) ==
            Shrunk(if NoRoom(e, f.keys, s) then SplitTree(e, t, |f.left| + 1) else One(t), false)
  {
    hide Sum, KeySizes, SplitBranch, ValueAll;
    var i, kids := |f.left|, Children(f, Leaf([]));
    var t := Grow(f, a, s, b);
    assert kids[..i] == ValueAll(f.left) && kids[i + 1..] == ValueAll(f.right);
    assert ValueAll(t.kids) == kids[..i] + [Value(a), Value(b)] + kids[i + 1..];
  }

  // ---------------------------------------------------------------- up and down the path

  /** The hole moves from a page to one of its children. */
  lemma Descend(m: Mem, c: Ctx, f: Frame, t: LTree)
    ensures CtxHolds(m, c, f.p) && Holds(m, Fill(f, t)) <==> CtxHolds(m, c + [f], t.p) && Holds(m, t)
    ensures CtxLabels(c) + Labels(Fill(f, t)) == CtxLabels(c + [f]) + Labels(t)
    ensures Top(c, f.p) == Top(c + [f], t.p) && Plug(c, Fill(f, t)) == Plug(c + [f], t)
  {
    hide CtxHolds, CtxLabels, LabelsAll, Holds, HoldAll, Labels, FrameLabels, FrameHolds;
    FillHolds(m, f, t);
    HoldsLast(m, c, f, t.p);
    LabelsLast(c, f);
    FillLabels(f, t);
    PlugLast(c, f, t);
  }

  lemma LastFrame(m: Mem, c: Ctx, hole: Pgno)
    requires CtxHolds(m, c, hole) && c != []
    ensures var f := c[|c| - 1]; f.p in m && m[f.p] == BranchPg(f.keys, Roots(f.left) + [hole] + Roots(f.right))
  {
    assert Under(c, hole, |c| - 1) == hole;
  }

  /** A child of f's page was split into a and b: the page with a node for b. */
  lemma ParentGrown(m: Mem, c: Ctx, f: Frame, a: LTree, s: Key, b: LTree)
    requires |f.keys| == |f.left| + |f.right|
    requires CtxHolds(m, c + [f], a.p) && Holds(m, a) && Holds(m, b)
    ensures f.p in m && m[f.p].BranchPg? && m[f.p].keys == f.keys && |m[f.p].kids| == |f.keys| + 1
    ensures var t := Grow(f, a, s, b);
            && CtxHolds(m, c, f.p) && KidsHold(m, t) && Image(t) == WithKid(m[f.p], |f.left|, s, b.p)
            && CtxLabels(c) + Labels(t) == CtxLabels(c + [f]) + Labels(a) + Labels(b)
            && Top(c, f.p) == Top(c + [f], a.p)
  {
    hide CtxHolds, CtxLabels, LabelsAll, Holds, HoldAll, Labels, FrameLabels;
    HoldsLast(m, c, f, a.p);
    LabelsLast(c, f);
    GrowIs(m, f, a, s, b);
  }

  /** Each page of the path may have moved. */
  predicate SamePath(c: Ctx, c': Ctx) {
    |c| == |c'| && forall i :: 0 <= i < |c| ==> c'[i] == Frame(c'[i].p, c[i].keys, c[i].left, c[i].right)
  }

  lemma {:induction false} SameValue(c: Ctx, c': Ctx, t: LTree, t': LTree)
    requires SamePath(c, c') && Value(t) == Value(t')
    ensures Value(Plug(c, t)) == Value(Plug(c', t'))
  {
    hide Children;
    if c != [] {
      var d, d' := c[1..], c'[1..];
      forall i | 0 <= i < |d|
        ensures d'[i] == Frame(d'[i].p, d[i].keys, d[i].left, d[i].right)
      {
        assert c'[i + 1] == Frame(c'[i + 1].p, c[i + 1].keys, c[i + 1].left, c[i + 1].right);
      }
      SameValue(d, d', t, t');
      ValueFill(c[0], Plug(d, t));
      ValueFill(c'[0], Plug(d', t'));
      SameChildren(c[0], c'[0], Value(Plug(d, t)));
    }
  }

  lemma SameChildren(f: Frame, f': Frame, x: Tree)
    requires f.left == f'.left && f.right == f'.right
    ensures Children(f, x) == Children(f', x)
  {
  }

  lemma SamePathKeeps(c: Ctx, c': Ctx, k: Key, h: nat)
    requires SamePath(c, c')
    ensures Leads(c, k) ==> Leads(c', k)
    ensures CtxShape(c, h) ==> CtxShape(c', h)
  {
    hide KidPos, ShapeAll;
    if CtxShape(c, h) {
      forall i | 0 <= i < |c'|
        ensures FrameShape(c'[i], h + (|c'| - 1 - i))
      {
        assert FrameShape(c[i], h + (|c| - 1 - i));
      }
    }
    if Leads(c, k) {
      forall i | 0 <= i < |c'|
        ensures |c'[i].left| == KidPos(c'[i].keys, k) && |c'[i].keys| == |c'[i].left| + |c'[i].right|
      {
        assert |c[i].left| == KidPos(c[i].keys, k);
      }
    }
  }

  // ---------------------------------------------------------------- small facts about accounting

  lemma OnceLive(live: multiset<Pgno>, p: Pgno)
    requires Unique(live + multiset{p})
    ensures p !in live
  {
    assert (live + multiset{p})[p] == live[p] + 1;
  }

  lemma LiveOnce(live: multiset<Pgno>, p: Pgno, freed: seq<Pgno>, loose: seq<Pgno>, pool: seq<Pgno>,
                 others: set<Pgno>, next: Pgno)
    requires Accounted(live + multiset{p}, freed, loose, pool, others, next)
    ensures p !in live
  {
    AccountedOnce(live + multiset{p}, freed, loose, pool, others, next);
    OnceLive(live, p);
  }

  lemma Fewer(a: multiset<Pgno>, b: multiset<Pgno>)
    requires Unique(a + b)
    ensures Unique(a)
  {
    forall p
      ensures a[p] <= 1
    {
      assert (a + b)[p] <= 1;
    }
  }

  /** The three sources of a page. */
  lemma TakeLoose(live: multiset<Pgno>, freed: seq<Pgno>, p: Pgno, rest: seq<Pgno>, pool: seq<Pgno>,
                  others: set<Pgno>, next: Pgno)
    requires Accounted(live, freed, [p] + rest, pool, others, next)
    ensures Accounted(live + multiset{p}, freed, rest, pool, others, next)
  {
  }

  lemma TakePool(live: multiset<Pgno>, freed: seq<Pgno>, loose: seq<Pgno>, rest: seq<Pgno>, p: Pgno,
                 others: set<Pgno>, next: Pgno)
    requires Accounted(live, freed, loose, rest + [p], others, next)
    ensures Accounted(live + multiset{p}, freed, loose, rest, others, next)
    ensures p !in rest && p !in others && p < next
  {
    var all := live + multiset(freed) + multiset(loose) + multiset(rest + [p]) + multiset(others);
    assert all[p] == live[p] + multiset(freed)[p] + multiset(loose)[p] + multiset(rest)[p] + 1 + multiset(others)[p];
    assert all[p] == multiset(PageTree.InUse(next))[p];
    assert p in rest ==> multiset(rest)[p] >= 1;
    assert p in others ==> multiset(others)[p] == 1;
  }

  lemma TakeNext(live: multiset<Pgno>, freed: seq<Pgno>, loose: seq<Pgno>, pool: seq<Pgno>, others: set<Pgno>, p: Pgno)
    requires Accounted(live, freed, loose, pool, others, p) && p >= NUM_METAS
    ensures Accounted(live + multiset{p}, freed, loose, pool, others, p + 1)
    ensures p !in live && p !in pool && p !in others
  {
    assert multiset(PageTree.InUse(p + 1)) == multiset(PageTree.InUse(p)) + multiset{p};
    AccountedOnce(live, freed, loose, pool, others, p);
  }

  /** A page taken out of use goes to one of the lists. */
  lemma PutAway(live: multiset<Pgno>, p: Pgno, freed: seq<Pgno>, loose: seq<Pgno>, pool: seq<Pgno>,
                others: set<Pgno>, next: Pgno)
    requires Accounted(live + multiset{p}, freed, loose, pool, others, next)
    ensures Accounted(live, freed + [p], loose, pool, others, next)
    ensures Accounted(live, freed, [p] + loose, pool, others, next)
  {
  }

  /** A root that was split. */
  lemma EndAtRoot(t: LTree, a: LTree, s: Key, b: LTree, depth: nat)
    requires t.LBranch? && t.keys == [s] && t.kids == [a, b]
    ensures Finish(Shrunk(Two(Value(a), s, Value(b)), false), depth) == Some(Db(Some(Value(t)), depth + 1))
    ensures Labels(t) == multiset{t.p} + Labels(a) + Labels(b)
    ensures forall m :: Holds(m, a) && Holds(m, b) ==> KidsHold(m, t)
    ensures Image(t) == BranchPg([s], [a.p, b.p])
  {
    hide Labels, LabelsAll, Holds;
    RootValue(t);
    NoLabels();
    LabelsTwo([], a, b, []);
    assert [] + [a, b] + [] == [a, b];
    LabelsSplit(t);
    assert Roots([a, b]) == [a.p, b.p];
  }

  lemma RootValue(t: LTree)
    requires t.LBranch? && |t.kids| == 2
    ensures Value(t) == Branch(t.keys, [Value(t.kids[0]), Value(t.kids[1])])
  {
    assert ValueAll(t.kids) == [Value(t.kids[0]), Value(t.kids[1])];
  }

  lemma NoLabels()
    ensures LabelsAll([]) == multiset{}
  {
  }

  // ---------------------------------------------------------------- search

  lemma SearchStart(e: Env, m: Mem, t: LTree, k: Key, depth: nat) returns (h: nat)
    requires Holds(m, t) && DbOk(e, Db(Some(Value(t)), depth))
    ensures CtxHolds(m, [], t.p) && Plug([], t) == t && Leads([], k) && CtxShape([], h)
    ensures Sound(e, Value(t), h, true)
    ensures t.p in m
  {
    h := depth - 1;
  }

  lemma ImageKid(t: LTree, i: nat)
    requires t.LBranch? && i < |t.kids|
    ensures Image(t).kids[i] == t.kids[i].p
  {
  }

  lemma LeafHeight(e: Env, t: LTree, h: nat)
    requires t.LLeaf? && Sound(e, Value(t), h, true)
    ensures h == 0
  {
  }

  // ---------------------------------------------------------------- touching a path

  lemma PlugNone(t: LTree)
    ensures Plug([], t) == t
  {
  }

  lemma PlugFrom(c: Ctx, l: nat, t: LTree)
    requires l < |c|
    ensures Plug(c[l..], t) == Fill(c[l], Plug(c[l + 1..], t))
  {
    assert c[l..][1..] == c[l + 1..];
  }

  /** The path after its page at level l moved to q: done are the levels above. */
  lemma PathMoved(pg: seq<Pgno>, ki: seq<nat>, c: Ctx, done: Ctx, q: Pgno)
    requires |done| < |c| <= |pg| && SamePath(c[..|done|], done) && Follows(pg, ki, done + c[|done|..])
    ensures var l := |done|;
            var f := Frame(q, c[l].keys, c[l].left, c[l].right);
            && SamePath(c[..l + 1], done + [f])
            && Follows(pg[l := q], ki, done + [f] + c[l + 1..])
            && pg[l] == c[l].p && (l > 0 ==> pg[l - 1] == done[l - 1].p && ki[l - 1] == |done[l - 1].left|)
  {
    var l, d := |done|, done + c[|done|..];
    var f := Frame(q, c[l].keys, c[l].left, c[l].right);
    var d' := done + [f] + c[l + 1..];
    assert d[l] == c[l];
    if l > 0 {
      assert d[l - 1] == done[l - 1];
    }
    forall i | 0 <= i < |d'|
      ensures pg[l := q][i] == d'[i].p && ki[i] == |d'[i].left|
    {
      if i > l {
        assert d'[i] == c[i] == d[i];
      } else if i < l {
        assert d'[i] == done[i] == d[i];
      } else {
        assert pg[i] == d[i].p && ki[i] == |d[i].left|;
      }
    }
    forall i | 0 <= i < l + 1
      ensures (done + [f])[i] == Frame((done + [f])[i].p, c[..l + 1][i].keys, c[..l + 1][i].left, c[..l + 1][i].right)
    {
      if i < l {
        assert done[i] == Frame(done[i].p, c[..l][i].keys, c[..l][i].left, c[..l][i].right);
        assert c[..l][i] == c[i] == c[..l + 1][i];
      }
    }
  }

  lemma PathStart(pg: seq<Pgno>, ki: seq<nat>, c: Ctx)
    requires Follows(pg, ki, c)
    ensures SamePath(c[..0], []) && Follows(pg, ki, [] + c[0..])
  {
    assert [] + c[0..] == c;
  }

  lemma PathEnd(pg: seq<Pgno>, ki: seq<nat>, c: Ctx, done: Ctx, q: Pgno)
    requires |done| == |c| < |pg| && SamePath(c[..|done|], done) && Follows(pg, ki, done + c[|done|..])
    ensures SamePath(c, done) && Follows(pg[|c| := q], ki, done)
    ensures done != [] ==> pg[|c| - 1] == done[|c| - 1].p && ki[|c| - 1] == |done[|c| - 1].left|
  {
    assert c[..|c|] == c && done + c[|c|..] == done;
  }

  // ---------------------------------------------------------------- put

  /** What a leaf becomes without a split, or else its nodes with the new one at index i. */
  datatype Change = Fits(es: seq<Entry>) | Over(es: seq<Entry>, i: nat)

  function PutChange(e: Env, es: seq<Entry>, i: nat, k: Key, v: Val, inPlace: bool): Change
    requires i <= |es|
  {
    var x := NewEntry(e, k, v);
    if FoundAt(es, i, k) && es[i].big && inPlace then Fits(es[i := Entry(k, v, true)])
    else if FoundAt(es, i, k) && !es[i].big && e.vsize(v) == e.vsize(es[i].val) then Fits(es[i := Entry(k, v, false)])
    else
      var rest := if FoundAt(es, i, k) then Without1(es, i) else es;
      var all := rest[..i] + [x] + rest[i..];
      if PageMax(e) - Sum(LeafSizes(e, rest)) < LeafSlot(e, x) then Over(all, i) else Fits(all)
  }

  lemma PutChangeIs(e: Env, es: seq<Entry>, k: Key, v: Val, inPlace: bool)
    ensures var c := PutChange(e, es, LeafPos(es, k), k, v, inPlace);
            && (c.Over? ==> c.i == LeafPos(es, k) < |c.es|)
            && PutLeaf(e, es, k, v, inPlace) == if c.Fits? then One(Leaf(c.es)) else SplitLeaf(e, c.es, c.i)
  {
    hide SplitLeaf, Sum, LeafPos, NewEntry, LeafSizes;
  }

  /** The same leaf page with other nodes. */
  lemma LeafAt(m: Mem, t: LTree, es: seq<Entry>)
    requires t.LLeaf?
    ensures var u := LLeaf(t.p, es);
            && KidsHold(m, u) && Labels(u) == Labels(t) && Image(u) == LeafPg(es) && Value(u) == Leaf(es)
  {
  }

  lemma FinishPut(g: Grown, depth: nat)
    ensures Finish(Shrunk(g, false), depth) == GrowRoot(g, depth)
  {
  }

  lemma PutAtRoot(e: Env, t: LTree, depth: nat, k: Key, v: Val, inPlace: bool)
    ensures Put(e, Db(Some(Value(t)), depth), k, v, inPlace) ==
            Finish(Shrunk(PutTree(e, Value(t), k, v, inPlace), false), depth)
  {
    hide PutTree, GrowRoot;
    FinishPut(PutTree(e, Value(t), k, v, inPlace), depth);
  }

  lemma PutFirst(e: Env, t: LTree, k: Key, v: Val, inPlace: bool)
    requires t == LLeaf(t.p, [NewEntry(e, k, v)])
    ensures Put(e, Db(None, 0), k, v, inPlace) == Some(Db(Some(Value(t)), 1))
  {
    hide NewEntry;
  }

  lemma AtValue(t: LTree, t': LTree)
    requires t' == At(t, t'.p)
    ensures Value(t) == Value(t')
  {
  }
}
