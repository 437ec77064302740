/**
 Tracked cursors: what mdb_page_touch, mdb_cursor_put and mdb_page_split do to the page and index
 stacks of the other cursors on the same database. Which cursors are concerned is decided by
 comparing page numbers, as the source compares pages.
 */
module TrackedCursors {
  import opened Base
  import opened Sizes
  import opened BTree
  import opened BTreePut
  import opened BTreeDelete
  import opened PageMemory
  import opened PathUpdate
  import opened PageSteps

  /** mc_pg and mc_ki up to mc_snum; both are empty in a cursor that is not initialized. */
  datatype Cursor = Cursor(pg: seq<Pgno>, ki: seq<nat>)

  /** The stack without its lowest l levels. */
  function From(c: Cursor, l: nat): Cursor
    requires l <= |c.pg| == |c.ki|
  {
    Cursor(c.pg[l..], c.ki[l..])
  }

  /** The entry a cursor is on, in memory: None if its stack is not a path from page p to an entry. */
  function Current(m: Mem, p: Pgno, c: Cursor): Option<Entry>
    decreases |c.pg|
  {
    if |c.pg| != |c.ki| || c.pg == [] || c.pg[0] != p || p !in m then None
    else match m[p]
      case LeafPg(es) => if |c.pg| == 1 && c.ki[0] < |es| then Some(es[c.ki[0]]) else None
      case BranchPg(_, kids) => if c.ki[0] < |kids| then Current(m, kids[c.ki[0]], From(c, 1)) else None
  }

  /** The same in a tree. */
  function EntryOf(t: LTree, c: Cursor): Option<Entry>
    decreases t
  {
    if |c.pg| != |c.ki| || c.pg == [] || c.pg[0] != t.p then None
    else match t
      case LLeaf(_, es) => if |c.pg| == 1 && c.ki[0] < |es| then Some(es[c.ki[0]]) else None
      case LBranch(_, _, kids) => if c.ki[0] < |kids| then EntryOf(kids[c.ki[0]], From(c, 1)) else None
  }

  lemma {:induction false} CurrentIs(m: Mem, t: LTree, c: Cursor)
    requires Holds(m, t)
    ensures Current(m, t.p, c) == EntryOf(t, c)
    decreases t
  {
    if t.LBranch? && |c.pg| == |c.ki| && c.pg != [] && c.pg[0] == t.p && c.ki[0] < |t.kids| {
      CurrentIs(m, t.kids[c.ki[0]], From(c, 1));
    }
  }

  // ---------------------------------------------------------------- the adjustments

  /** mdb_page_touch: page mp of level top has moved to np. */
  function Retouched(c: Cursor, top: nat, mp: Pgno, np: Pgno): Cursor {
    if top < |c.pg| && c.pg[top] == mp then c.(pg := c.pg[top := np]) else c
  }

  /** A node was added at newindx of page mp, or replaced there. */
  function Moved(c: Cursor, top: nat, mp: Pgno, newindx: nat, inserts: bool): Cursor {
    if top < |c.pg| && top < |c.ki| && c.pg[top] == mp && c.ki[top] >= newindx && inserts
    then c.(ki := c.ki[top := c.ki[top] + 1]) else c
  }

  /**
   Page mp was split and kept nkeys nodes, the others are on rp. `mn` is the path to rp's node in
   the parent, page `parent`, where the putting cursor's index is now `mine`.
   */
  function Resettled(c: Cursor, top: nat, mp: Pgno, rp: Pgno, nkeys: nat, mn: Cursor, parent: Pgno, mine: nat): Cursor
    requires 0 < top <= |mn.pg| && top <= |mn.ki|
  {
    if top < |c.pg| == |c.ki| && c.pg[top] == mp then
      if c.ki[top] >= nkeys
      then Cursor(mn.pg[..top] + [rp] + c.pg[top + 1..], mn.ki[..top] + [c.ki[top] - nkeys] + c.ki[top + 1..])
      else c
    else if top <= |c.pg| && top <= |c.ki| && c.pg[top - 1] == parent && c.ki[top - 1] >= mine
    then c.(ki := c.ki[top - 1 := c.ki[top - 1] + 1])
    else c
  }

  /** The root page mp was split: the new root pp goes below the whole stack. */
  function Raised(c: Cursor, mp: Pgno, pp: Pgno, nkeys: nat): Cursor {
    if c.pg != [] && c.ki != [] && c.pg[0] == mp
    then Cursor([pp] + c.pg, [if c.ki[0] >= nkeys then 1 else 0] + c.ki) else c
  }

  // ---------------------------------------------------------------- what is to be kept

  /** Every cursor on an entry is on the same one afterwards. */
  ghost predicate AllKept(t: LTree, cs: seq<Cursor>, t': LTree, cs': seq<Cursor>) {
    |cs| == |cs'| && forall j :: 0 <= j < |cs| ==> Kept(t, cs[j], t', cs'[j])
  }

  ghost predicate Kept(t: LTree, c: Cursor, t': LTree, c': Cursor) {
    EntryOf(t, c).Some? ==> EntryOf(t', c') == EntryOf(t, c)
  }

  /** The entry y has kept its place, or was the one replaced. */
  predicate Same(y: Entry, k: Key, r: Option<Entry>) {
    r.Some? && if y.key == k then r.value.key == k else r.value == y
  }

  /** The same for a put of key k: a cursor on that key is on its new entry afterwards. */
  ghost predicate AllSame(t: LTree, cs: seq<Cursor>, k: Key, t': LTree, cs': seq<Cursor>) {
    |cs| == |cs'| && forall j :: 0 <= j < |cs| ==> StaysOn(t, cs[j], k, t', cs'[j])
  }

  ghost predicate StaysOn(t: LTree, c: Cursor, k: Key, t': LTree, c': Cursor) {
    EntryOf(t, c).Some? ==> Same(EntryOf(t, c).value, k, EntryOf(t', c'))
  }

  lemma KeptThenSame(t: LTree, cs: seq<Cursor>, t1: LTree, cs1: seq<Cursor>, k: Key, t2: LTree, cs2: seq<Cursor>)
    requires AllKept(t, cs, t1, cs1) && AllSame(t1, cs1, k, t2, cs2)
    ensures AllSame(t, cs, k, t2, cs2)
  {
    hide EntryOf;
    forall j | 0 <= j < |cs|
      ensures StaysOn(t, cs[j], k, t2, cs2[j])
    {
      assert Kept(t, cs[j], t1, cs1[j]) && StaysOn(t1, cs1[j], k, t2, cs2[j]);
    }
  }

  lemma KeptThenKept(t: LTree, cs: seq<Cursor>, t1: LTree, cs1: seq<Cursor>, t2: LTree, cs2: seq<Cursor>)
    requires AllKept(t, cs, t1, cs1) && AllKept(t1, cs1, t2, cs2)
    ensures AllKept(t, cs, t2, cs2)
  {
    hide EntryOf;
    forall j | 0 <= j < |cs|
      ensures Kept(t, cs[j], t2, cs2[j])
    {
      assert Kept(t, cs[j], t1, cs1[j]) && Kept(t1, cs1[j], t2, cs2[j]);
    }
  }

  // ---------------------------------------------------------------- cursors and contexts

  lemma {:induction false} EntryPages(t: LTree, c: Cursor, i: nat)
    requires EntryOf(t, c).Some? && i < |c.pg|
    ensures c.pg[i] in Labels(t)
    decreases t
  {
    LabelsSplit(t);
    if i > 0 {
      assert t.LBranch?;
      EntryPages(t.kids[c.ki[0]], From(c, 1), i - 1);
      KidLabels(t.kids, c.ki[0]);
    }
  }

  /** The cursor's path goes through the hole of the context. */
  predicate Enters(c: Ctx, t: LTree, q: Cursor) {
    |q.pg| == |q.ki| > |c| && q.pg[|c|] == t.p && Follows(q.pg, q.ki, c)
  }

  lemma FollowsTail(q: Cursor, c: Ctx)
    requires c != [] && |q.pg| == |q.ki| > 0
    ensures Follows(q.pg, q.ki, c) <==>
            q.pg[0] == c[0].p && q.ki[0] == |c[0].left| && Follows(q.pg[1..], q.ki[1..], c[1..])
  {
    var pg, ki, d := q.pg[1..], q.ki[1..], c[1..];
    if Follows(q.pg, q.ki, c) {
      assert forall i :: 0 <= i < |d| ==> d[i] == c[i + 1] && pg[i] == q.pg[i + 1] && ki[i] == q.ki[i + 1];
    }
    if q.pg[0] == c[0].p && q.ki[0] == |c[0].left| && Follows(pg, ki, d) {
      forall i | 0 <= i < |c|
        ensures q.pg[i] == c[i].p && q.ki[i] == |c[i].left|
      {
        if i > 0 {
          assert d[i - 1] == c[i] && pg[i - 1] == q.pg[i] && ki[i - 1] == q.ki[i];
        }
      }
    }
  }

  lemma FillKid(f: Frame, t: LTree, i: nat)
    requires i < |f.left| + 1 + |f.right|
    ensures var kids := Fill(f, t).kids;
            |kids| == |f.left| + 1 + |f.right| &&
            kids[i] == if i < |f.left| then f.left[i] else if i == |f.left| then t else f.right[i - |f.left| - 1]
  {
  }

  /** On a path through the hole, the cursor is on what its upper part is on below the hole. */
  lemma {:induction false} Enter(c: Ctx, t: LTree, q: Cursor)
    requires Enters(c, t, q)
    ensures EntryOf(Plug(c, t), q) == EntryOf(t, From(q, |c|))
  {
    hide Follows;
    if c == [] {
      assert From(q, 0) == q;
    } else {
      var f, d := c[0], c[1..];
      FollowsTail(q, c);
      FillKid(f, Plug(d, t), |f.left|);
      Enter(d, t, From(q, 1));
      assert From(From(q, 1), |d|) == From(q, |c|);
    }
  }

  /** Two children have no page in common. */
  lemma KidsApart(f: Frame, t: LTree, i: nat, p: Pgno)
    requires Unique(Labels(Fill(f, t))) && i < |f.left| + 1 + |f.right| && i != |f.left|
    requires p in Labels(t)
    ensures p !in Labels(Fill(f, t).kids[i])
  {
    hide Labels, LabelsAll;
    FillLabels(f, t);
    FillKid(f, t, i);
    if i < |f.left| {
      KidLabels(f.left, i);
    } else {
      KidLabels(f.right, i - |f.left| - 1);
    }
    assert Labels(Fill(f, t).kids[i])[p] <= FrameLabels(f)[p];
    assert (FrameLabels(f) + Labels(t))[p] == FrameLabels(f)[p] + Labels(t)[p] <= 1;
  }

  lemma TopLabel(t: LTree)
    ensures t.p in Labels(t)
  {
  }

  /** A cursor on an entry that does not go through the hole does not have its page, nor notice a change below. */
  lemma {:induction false} PassBy(c: Ctx, t: LTree, t': LTree, q: Cursor)
    requires EntryOf(Plug(c, t), q).Some? && !Enters(c, t, q) && Unique(CtxLabels(c) + Labels(t))
    ensures |c| < |q.pg| ==> q.pg[|c|] != t.p
    ensures EntryOf(Plug(c, t'), q) == EntryOf(Plug(c, t), q)
  {
    hide Follows, Labels, CtxLabels, LabelsAll, FrameLabels;
    if c == [] {
      FollowsNone(q.pg, q.ki);
    } else {
      var f, d := c[0], c[1..];
      var x, i := Plug(d, t), q.ki[0];
      FollowsTail(q, c);
      FillKid(f, x, i);
      FillKid(f, Plug(d, t'), i);
      CtxLabelsStep(c, t);
      if i == |f.left| {
        PassBy(d, t, t', From(q, 1));
      } else {
        TopLabel(t);
        PlugLabels(c, t);
        PlugLabels(d, t);
        KidsApart(f, x, i, t.p);
        if |c| < |q.pg| {
          EntryPages(Fill(f, x).kids[i], From(q, 1), |d|);
        }
      }
    }
  }

  lemma CtxLabelsStep(c: Ctx, t: LTree)
    requires c != [] && Unique(CtxLabels(c) + Labels(t))
    ensures Unique(CtxLabels(c[1..]) + Labels(t))
  {
    hide Labels;
    var a, b := FrameLabels(c[0]), CtxLabels(c[1..]) + Labels(t);
    assert CtxLabels(c) + Labels(t) == b + a;
    Fewer(b, a);
  }

  // ---------------------------------------------------------------- one page in place of another

  /** After mdb_page_touch of the page in the hole. */
  lemma TouchedKeeps(c: Ctx, t: LTree, np: Pgno, q: Cursor)
    requires Unique(CtxLabels(c) + Labels(t))
    ensures Kept(Plug(c, t), q, Plug(c, At(t, np)), Retouched(q, |c|, t.p, np))
  {
    hide Labels, CtxLabels, Follows, Plug;
    if EntryOf(Plug(c, t), q).Some? {
      var q' := Retouched(q, |c|, t.p, np);
      if Enters(c, t, q) {
        Enter(c, t, q);
        FollowsSame(q, q', c);
        Enter(c, At(t, np), q');
        AtEntry(t, np, From(q, |c|), From(q', |c|));
      } else {
        PassBy(c, t, At(t, np), q);
      }
    }
  }

  lemma FollowsSame(q: Cursor, q': Cursor, c: Ctx)
    requires Follows(q.pg, q.ki, c) && |q'.pg| == |q.pg| && |q'.ki| == |q.ki|
    requires forall i :: 0 <= i < |c| ==> q'.pg[i] == q.pg[i] && q'.ki[i] == q.ki[i]
    ensures Follows(q'.pg, q'.ki, c)
  {
  }

  lemma AtEntry(t: LTree, np: Pgno, q: Cursor, q': Cursor)
    requires q.pg != [] && q.pg[0] == t.p && |q.pg| == |q.ki| && q' == Cursor(q.pg[0 := np], q.ki)
    ensures EntryOf(At(t, np), q') == EntryOf(t, q)
  {
    assert From(q', 1) == From(q, 1);
  }

  function EntryIn(es: seq<Entry>, j: nat): Option<Entry> {
    if j < |es| then Some(es[j]) else None
  }

  function Bumped(j: nat, newindx: nat, inserts: bool): nat {
    if j >= newindx && inserts then j + 1 else j
  }

  lemma LeafEntry(t: LTree, q: Cursor)
    requires t.LLeaf? && |q.pg| == |q.ki| > 0 && q.pg[0] == t.p
    ensures EntryOf(t, q) == if |q.pg| == 1 then EntryIn(t.es, q.ki[0]) else None
  {
  }

  lemma SameIsSame(y: Entry, k: Key)
    ensures Same(y, k, Some(y))
  {
  }

  /** After the leaf in the hole has got new entries, if they are the old ones but for those of key k. */
  lemma MovedKeeps(c: Ctx, t: LTree, es: seq<Entry>, newindx: nat, inserts: bool, k: Key, q: Cursor)
    requires t.LLeaf? && Unique(CtxLabels(c) + Labels(t))
    requires forall j :: 0 <= j < |t.es| ==> Same(t.es[j], k, EntryIn(es, Bumped(j, newindx, inserts)))
    ensures StaysOn(Plug(c, t), q, k, Plug(c, LLeaf(t.p, es)), Moved(q, |c|, t.p, newindx, inserts))
  {
    hide Labels, CtxLabels, Follows, Plug, EntryOf, Same, Unique;
    if EntryOf(Plug(c, t), q).Some? {
      var t', q' := LLeaf(t.p, es), Moved(q, |c|, t.p, newindx, inserts);
      SameIsSame(EntryOf(Plug(c, t), q).value, k);
      if Enters(c, t, q) {
        Enter(c, t, q);
        LeafEntry(t, From(q, |c|));
        FollowsSame(q, q', c);
        Enter(c, t', q');
        LeafEntry(t', From(q', |c|));
        assert q'.ki[|c|] == Bumped(q.ki[|c|], newindx, inserts);
      } else {
        PassBy(c, t, t', q);
      }
    }
  }

  /** What mdb_cursor_put makes of a leaf's entries keeps the others in place. */
  lemma ChangeMoves(e: Env, es: seq<Entry>, k: Key, v: Val, inPlace: bool, j: nat)
    requires SortedEntries(es) && j < |es|
    ensures var i := LeafPos(es, k);
            Same(es[j], k, EntryIn(PutChange(e, es, i, k, v, inPlace).es, Bumped(j, i, !FoundAt(es, i, k))))
  {
    hide LeafPos, PutChange;
    var x := ChangedEntries(e, es, LeafPos(es, k), k, v, inPlace);
    if es[j].key == k {
      LeafPosIs(es, k, j);
    }
  }

  lemma ChangedEntries(e: Env, es: seq<Entry>, i: nat, k: Key, v: Val, inPlace: bool) returns (x: Entry)
    requires i <= |es|
    ensures x.key == k
    ensures PutChange(e, es, i, k, v, inPlace).es == if FoundAt(es, i, k) then es[i := x] else es[..i] + [x] + es[i..]
  {
    hide LeafSizes, Sum, LeafSlot;
    x := NewEntry(e, k, v);
    if FoundAt(es, i, k) {
      if es[i].big && inPlace {
        x := Entry(k, v, true);
      } else if !es[i].big && e.vsize(v) == e.vsize(es[i].val) {
        x := Entry(k, v, false);
      } else {
        assert Without1(es, i)[..i] + [x] + Without1(es, i)[i..] == es[i := x];
      }
    }
  }

  // ---------------------------------------------------------------- a leaf split

  lemma SplitEntries(a: seq<Entry>, b: seq<Entry>, j: nat)
    requires j < |a + b|
    ensures (a + b)[j] == if j < |a| then a[j] else b[j - |a|]
  {
  }

  lemma GrowKid(f: Frame, a: LTree, s: Key, b: LTree, t: LTree, i: nat)
    requires |f.left| <= |f.keys| && i < |f.left| + 1 + |f.right|
    ensures var kids, was := Grow(f, a, s, b).kids, Fill(f, t).kids;
            && |kids| == |f.left| + 2 + |f.right| && |was| == |kids| - 1
            && kids[|f.left|] == a && kids[|f.left| + 1] == b
            && (i < |f.left| ==> kids[i] == was[i]) && (i > |f.left| ==> kids[i + 1] == was[i])
  {
  }

  /** On the parent of the leaf t, which was split into a and b: the stack from the parent upwards. */
  lemma SplitBelow(f: Frame, t: LTree, a: LTree, s: Key, b: LTree, q: Cursor, mine: nat)
    requires t.LLeaf? && a.LLeaf? && b.LLeaf? && a.p == t.p && t.es == a.es + b.es && |f.left| <= |f.keys|
    requires Unique(Labels(Fill(f, t))) && |f.left| <= mine <= |f.left| + 1
    requires EntryOf(Fill(f, t), q).Some?
    ensures EntryOf(Grow(f, a, s, b), Resettled(q, 1, t.p, b.p, |a.es|, Cursor([f.p], [|f.left| + 1]), f.p, mine)) ==
            EntryOf(Fill(f, t), q)
  {
    hide Labels;
    var i := q.ki[0];
    var mn := Cursor([f.p], [|f.left| + 1]);
    var q' := Resettled(q, 1, t.p, b.p, |a.es|, mn, f.p, mine);
    FillKid(f, t, i);
    GrowKid(f, a, s, b, t, i);
    if i == |f.left| {
      SplitEntries(a.es, b.es, q.ki[1]);
    } else {
      TopLabel(t);
      KidsApart(f, t, i, t.p);
      EntryPages(Fill(f, t).kids[i], From(q, 1), 0);
      assert From(q', 1) == From(q, 1);
    }
  }

  /** The same for the whole stack. */
  lemma SplitKeeps(c: Ctx, f: Frame, t: LTree, a: LTree, s: Key, b: LTree, q: Cursor, mn: Cursor, mine: nat)
    requires t.LLeaf? && a.LLeaf? && b.LLeaf? && a.p == t.p && t.es == a.es + b.es && |f.left| <= |f.keys|
    requires Unique(CtxLabels(c + [f]) + Labels(t)) && |f.left| <= mine <= |f.left| + 1
    requires |mn.pg| == |mn.ki| == |c| + 1 && Follows(mn.pg, mn.ki, c) && mn.pg[|c|] == f.p && mn.ki[|c|] == |f.left| + 1
    ensures Kept(Plug(c + [f], t), q, Plug(c, Grow(f, a, s, b)), Resettled(q, |c| + 1, t.p, b.p, |a.es|, mn, f.p, mine))
  {
    hide Labels, CtxLabels, Follows, Plug, EntryOf, LabelsAll, FrameLabels;
    var n := |c|;
    var x, x' := Fill(f, t), Grow(f, a, s, b);
    var q' := Resettled(q, n + 1, t.p, b.p, |a.es|, mn, f.p, mine);
    PlugLast(c, f, t);
    LabelsLast(c, f);
    FillLabels(f, t);
    assert CtxLabels(c) + Labels(x) == CtxLabels(c + [f]) + Labels(t);
    if EntryOf(Plug(c, x), q).Some? {
      if Enters(c, x, q) {
        Enter(c, x, q);
        assert Labels(x) + CtxLabels(c) == CtxLabels(c) + Labels(x);
        Fewer(Labels(x), CtxLabels(c));
        SplitBelow(f, t, a, s, b, From(q, n), mine);
        FromResettled(q, n, t.p, b.p, |a.es|, mn, f.p, mine);
        ResettledFollows(c, q, t.p, b.p, |a.es|, mn, f.p, mine);
        Enter(c, x', q');
      } else {
        PassBy(c, x, x', q);
        if Enters(c + [f], t, q) {
          FollowsLess(q, c, f);
        } else {
          PassBy(c + [f], t, t, q);
        }
      }
    }
  }

  lemma FollowsLess(q: Cursor, c: Ctx, f: Frame)
    requires Follows(q.pg, q.ki, c + [f])
    ensures Follows(q.pg, q.ki, c) && q.pg[|c|] == f.p
  {
    var d := c + [f];
    assert d[|c|] == f;
    assert forall i :: 0 <= i < |c| ==> d[i] == c[i];
  }

  lemma FromResettled(q: Cursor, n: nat, mp: Pgno, rp: Pgno, nkeys: nat, mn: Cursor, parent: Pgno, mine: nat)
    requires n < |q.pg| == |q.ki| && |mn.pg| == |mn.ki| == n + 1
    ensures var q' := Resettled(q, n + 1, mp, rp, nkeys, mn, parent, mine);
            |q'.pg| == |q'.ki| == |q.pg| &&
            From(q', n) == Resettled(From(q, n), 1, mp, rp, nkeys, Cursor([mn.pg[n]], [mn.ki[n]]), parent, mine)
  {
    var q' := Resettled(q, n + 1, mp, rp, nkeys, mn, parent, mine);
    var u := From(q, n);
    assert n + 1 < |q.pg| ==> u.pg[1] == q.pg[n + 1] && u.ki[1] == q.ki[n + 1];
    assert u.pg[0] == q.pg[n] && u.ki[0] == q.ki[n];
    if n + 1 < |q.pg| && q.pg[n + 1] == mp && q.ki[n + 1] >= nkeys {
      assert q'.pg == mn.pg[..n + 1] + [rp] + q.pg[n + 2..] && q'.ki == mn.ki[..n + 1] + [q.ki[n + 1] - nkeys] + q.ki[n + 2..];
      assert u.pg[2..] == q.pg[n + 2..] && u.ki[2..] == q.ki[n + 2..];
      assert q'.pg[n..] == [mn.pg[n]] + [rp] + u.pg[2..];
      assert q'.ki[n..] == [mn.ki[n]] + [q.ki[n + 1] - nkeys] + u.ki[2..];
    }
  }

  lemma ResettledFollows(c: Ctx, q: Cursor, mp: Pgno, rp: Pgno, nkeys: nat, mn: Cursor, parent: Pgno, mine: nat)
    requires |c| < |q.pg| == |q.ki| && Follows(q.pg, q.ki, c) && q.pg[|c|] == parent
    requires |mn.pg| == |mn.ki| == |c| + 1 && Follows(mn.pg, mn.ki, c) && mn.pg[|c|] == parent
    ensures var q' := Resettled(q, |c| + 1, mp, rp, nkeys, mn, parent, mine);
            |q'.pg| == |q'.ki| == |q.pg| && Follows(q'.pg, q'.ki, c) && q'.pg[|c|] == parent
  {
  }

  /** A root page that is a leaf was split: Raised, Moved and Resettled, in this order. */
  lemma RootSplitKeeps(t: LTree, a: LTree, b: LTree, t': LTree, newindx: nat, inserts: bool, q: Cursor, mine: nat)
    requires t.LLeaf? && a.LLeaf? && b.LLeaf? && a.p == t.p && t.es == a.es + b.es
    requires t'.LBranch? && t'.kids == [a, b] && t'.p != t.p && mine <= 1
    ensures var mn := Cursor([t'.p], [1]);
            var q1 := Moved(Raised(q, t.p, t'.p, |a.es|), 1, t.p, newindx, inserts);
            Kept(t, Moved(q, 0, t.p, newindx, inserts), t', Resettled(q1, 1, t.p, b.p, |a.es|, mn, t'.p, mine))
  {
    var q0 := Moved(q, 0, t.p, newindx, inserts);
    if EntryOf(t, q0).Some? {
      SplitEntries(a.es, b.es, q0.ki[0]);
    }
  }

  // ---------------------------------------------------------------- when the leaf's parent is not split

  /** The leaf's parent, if there is one, has room for what becomes of the leaf. */
  predicate AboveKept(e: Env, c: Ctx, g: Grown) {
    c != [] ==> UpOne(e, c[|c| - 1], Shrunk(g, false)).g.One?
  }

  /** The same on values, before a put. */
  predicate ParentKept(e: Env, t: Tree, k: Key, v: Val, inPlace: bool)
    decreases t
  {
    match t
    case Leaf(_) => true
    case Branch(keys, kids) =>
      var i := KidPos(keys, k);
      if i < |kids| && kids[i].Branch? then ParentKept(e, kids[i], k, v, inPlace)
      else PutTree(e, t, k, v, inPlace).One?
  }

  lemma {:induction false} ParentKeptIs(e: Env, c: Ctx, t: LTree, k: Key, v: Val, inPlace: bool)
    requires Leads(c, k) && t.LLeaf?
    ensures ParentKept(e, Value(Plug(c, t)), k, v, inPlace) <==> AboveKept(e, c, PutLeaf(e, t.es, k, v, inPlace))
  {
    hide PutLeaf, Leads, KidPos, UpOne, Children, ReplaceKid, PutTree;
    if c != [] {
      var f, d := c[0], c[1..];
      LeadsRest(c, k);
      var kid := Value(Plug(d, t));
      ValueFill(f, Plug(d, t));
      ChildAt(f, kid);
      if d == [] {
        assert c == [f];
        PutIsUp(e, c, t, k, v, inPlace);
        UpSingle(e, f, Shrunk(PutLeaf(e, t.es, k, v, inPlace), false));
      } else {
        ValueFill(d[0], Plug(d[1..], t));
        ParentKeptIs(e, d, t, k, v, inPlace);
        assert c[|c| - 1] == d[|d| - 1];
      }
    }
  }

  lemma UpSingle(e: Env, f: Frame, r: Shrunk)
    ensures Up(e, [f], r) == UpOne(e, f, r)
  {
    assert [f][1..] == [];
  }

  // ---------------------------------------------------------------- all cursors

  function AllRetouched(cs: seq<Cursor>, top: nat, mp: Pgno, np: Pgno): seq<Cursor> {
    seq(|cs|, j requires 0 <= j < |cs| => Retouched(cs[j], top, mp, np))
  }

  function AllMoved(cs: seq<Cursor>, top: nat, mp: Pgno, newindx: nat, inserts: bool): seq<Cursor> {
    seq(|cs|, j requires 0 <= j < |cs| => Moved(cs[j], top, mp, newindx, inserts))
  }

  function AfterSplit(c: Cursor, newRoot: Option<Pgno>, top: nat, mp: Pgno, rp: Pgno, newindx: nat, inserts: bool,
                      nkeys: nat, mn: Cursor, parent: Pgno, mine: nat): Cursor
    requires 0 < top <= |mn.pg| && top <= |mn.ki|
  {
    var c1 := if newRoot.Some? then Raised(c, mp, newRoot.value, nkeys) else c;
    Resettled(Moved(c1, top, mp, newindx, inserts), top, mp, rp, nkeys, mn, parent, mine)
  }

  function AllSplit(cs: seq<Cursor>, newRoot: Option<Pgno>, top: nat, mp: Pgno, rp: Pgno, newindx: nat, inserts: bool,
                    nkeys: nat, mn: Cursor, parent: Pgno, mine: nat): seq<Cursor>
    requires 0 < top <= |mn.pg| && top <= |mn.ki|
  {
    seq(|cs|, j requires 0 <= j < |cs| => AfterSplit(cs[j], newRoot, top, mp, rp, newindx, inserts, nkeys, mn, parent, mine))
  }

  lemma NoneMoved(t: LTree, cs: seq<Cursor>)
    ensures AllKept(t, cs, t, cs)
  {
  }

  lemma AllTouchedKeep(c: Ctx, t: LTree, np: Pgno, cs: seq<Cursor>)
    requires Unique(CtxLabels(c) + Labels(t))
    ensures AllKept(Plug(c, t), cs, Plug(c, At(t, np)), AllRetouched(cs, |c|, t.p, np))
  {
    hide EntryOf, Plug, At, Kept, Unique, Retouched;
    var cs' := AllRetouched(cs, |c|, t.p, np);
    forall j | 0 <= j < |cs|
      ensures Kept(Plug(c, t), cs[j], Plug(c, At(t, np)), cs'[j])
    {
      TouchedKeeps(c, t, np, cs[j]);
    }
  }

  lemma AllMovedKeep(e: Env, c: Ctx, t: LTree, k: Key, v: Val, inPlace: bool, cs: seq<Cursor>)
    requires t.LLeaf? && SortedEntries(t.es) && Unique(CtxLabels(c) + Labels(t))
    ensures var i := LeafPos(t.es, k);
            var es := PutChange(e, t.es, i, k, v, inPlace).es;
            AllSame(Plug(c, t), cs, k, Plug(c, LLeaf(t.p, es)), AllMoved(cs, |c|, t.p, i, !FoundAt(t.es, i, k)))
  {
    hide EntryOf, Plug, StaysOn, Unique, Moved, PutChange, LeafPos, SortedEntries;
    var i := LeafPos(t.es, k);
    var es := PutChange(e, t.es, i, k, v, inPlace).es;
    var inserts := !FoundAt(t.es, i, k);
    forall j | 0 <= j < |t.es|
      ensures Same(t.es[j], k, EntryIn(es, Bumped(j, i, inserts)))
    {
      ChangeMoves(e, t.es, k, v, inPlace, j);
    }
    forall j | 0 <= j < |cs|
      ensures StaysOn(Plug(c, t), cs[j], k, Plug(c, LLeaf(t.p, es)), AllMoved(cs, |c|, t.p, i, inserts)[j])
    {
      MovedKeeps(c, t, es, i, inserts, k, cs[j]);
    }
  }

  lemma SameThenKept(t: LTree, cs: seq<Cursor>, k: Key, t1: LTree, cs1: seq<Cursor>, t2: LTree, cs2: seq<Cursor>)
    requires AllSame(t, cs, k, t1, cs1) && AllKept(t1, cs1, t2, cs2)
    ensures AllSame(t, cs, k, t2, cs2)
  {
    hide EntryOf;
    forall j | 0 <= j < |cs|
      ensures StaysOn(t, cs[j], k, t2, cs2[j])
    {
      assert StaysOn(t, cs[j], k, t1, cs1[j]) && Kept(t1, cs1[j], t2, cs2[j]);
    }
  }

  lemma AllRootSplitKeep(t: LTree, a: LTree, b: LTree, t': LTree, newindx: nat, inserts: bool, cs: seq<Cursor>, mine: nat)
    requires t.LLeaf? && a.LLeaf? && b.LLeaf? && a.p == t.p && t.es == a.es + b.es
    requires t'.LBranch? && t'.kids == [a, b] && t'.p != t.p && mine <= 1
    ensures AllKept(t, AllMoved(cs, 0, t.p, newindx, inserts), t',
                    AllSplit(cs, Some(t'.p), 1, t.p, b.p, newindx, inserts, |a.es|, Cursor([t'.p], [1]), t'.p, mine))
  {
    hide EntryOf, Kept, Moved, Raised, Resettled;
    var cs1, cs2 := AllMoved(cs, 0, t.p, newindx, inserts),
                    AllSplit(cs, Some(t'.p), 1, t.p, b.p, newindx, inserts, |a.es|, Cursor([t'.p], [1]), t'.p, mine);
    forall j | 0 <= j < |cs|
      ensures Kept(t, cs1[j], t', cs2[j])
    {
      RootSplitKeeps(t, a, b, t', newindx, inserts, cs[j], mine);
    }
  }

  lemma SplitKeepsOne(c: Ctx, t: LTree, a: LTree, s: Key, b: LTree, q: Cursor, mn: Cursor, mine: nat)
    requires c != [] && t.LLeaf? && a.LLeaf? && b.LLeaf? && a.p == t.p && t.es == a.es + b.es
    requires Unique(CtxLabels(c) + Labels(t)) && RightOf(c, mn)
    requires var f := c[|c| - 1]; |f.left| <= mine <= |f.left| + 1 && |f.left| <= |f.keys|
    ensures var l, f := |c|, c[|c| - 1];
            Kept(Plug(c, t), q, Plug(c[..l - 1], Grow(f, a, s, b)), Resettled(q, l, t.p, b.p, |a.es|, mn, f.p, mine))
  {
    hide EntryOf, Kept, Resettled, Plug, Grow, Follows, Unique, CtxLabels, Labels;
    var l := |c|;
    assert c == c[..l - 1] + [c[l - 1]];
    SplitKeeps(c[..l - 1], c[l - 1], t, a, s, b, q, mn, mine);
  }

  lemma AllSplitKeep(c: Ctx, t: LTree, a: LTree, s: Key, b: LTree, newindx: nat, inserts: bool, cs: seq<Cursor>, mn: Cursor, mine: nat)
    requires c != [] && t.LLeaf? && a.LLeaf? && b.LLeaf? && a.p == t.p && t.es == a.es + b.es
    requires Unique(CtxLabels(c) + Labels(t)) && RightOf(c, mn)
    requires var f := c[|c| - 1]; |f.left| <= mine <= |f.left| + 1 && |f.left| <= |f.keys|
    ensures var l := |c|;
            var f := c[l - 1];
            AllKept(Plug(c, t), AllMoved(cs, l, t.p, newindx, inserts), Plug(c[..l - 1], Grow(f, a, s, b)),
                    AllSplit(cs, None, l, t.p, b.p, newindx, inserts, |a.es|, mn, f.p, mine))
  {
    hide EntryOf, Kept, Moved, Resettled, Plug, Grow, Follows, Unique, CtxLabels, Labels;
    var l, f := |c|, c[|c| - 1];
    var cs1, cs2 := AllMoved(cs, l, t.p, newindx, inserts), AllSplit(cs, None, l, t.p, b.p, newindx, inserts, |a.es|, mn, f.p, mine);
    forall j | 0 <= j < |cs|
      ensures Kept(Plug(c, t), cs1[j], Plug(c[..l - 1], Grow(f, a, s, b)), cs2[j])
    {
      SplitKeepsOne(c, t, a, s, b, cs1[j], mn, mine);
    }
  }

  /** mn is the path to the node behind the last frame's hole. */
  predicate RightOf(c: Ctx, mn: Cursor)
    requires c != []
  {
    var l := |c| - 1;
    |mn.pg| == |mn.ki| == |c| && Follows(mn.pg, mn.ki, c[..l]) && mn.pg[l] == c[l].p && mn.ki[l] == |c[l].left| + 1
  }

  lemma RightPath(pg: seq<Pgno>, ki: seq<nat>, c: Ctx)
    requires c != [] && Follows(pg, ki, c)
    ensures var l := |c|; RightOf(c, Cursor(pg[..l], ki[..l - 1] + [ki[l - 1] + 1]))
  {
  }

  /** If the separator does not fit, the parent is split. */
  lemma NotAboveKept(e: Env, c: Ctx, a: LTree, s: Key, b: LTree)
    requires c != [] && |c[|c| - 1].keys| == |c[|c| - 1].left| + |c[|c| - 1].right|
    requires NoRoom(e, c[|c| - 1].keys, s)
    ensures !AboveKept(e, c, Two(Value(a), s, Value(b)))
  {
    hide NoRoom, Sum, KeySizes;
    GrowUp(e, c[|c| - 1], a, s, b);
  }

  /** What the trees say of the cursors holds of the pages in memory. */
  lemma AllSameRead(m: Mem, t: LTree, cs: seq<Cursor>, k: Key, m': Mem, t': LTree, cs': seq<Cursor>)
    requires Holds(m, t) && Holds(m', t') && AllSame(t, cs, k, t', cs')
    ensures |cs'| == |cs|
    ensures forall j :: 0 <= j < |cs| && Current(m, t.p, cs[j]).Some? ==>
              Same(Current(m, t.p, cs[j]).value, k, Current(m', t'.p, cs'[j]))
  {
    hide EntryOf, Current, Holds, Same;
    forall j | 0 <= j < |cs| && Current(m, t.p, cs[j]).Some?
      ensures Same(Current(m, t.p, cs[j]).value, k, Current(m', t'.p, cs'[j]))
    {
      CurrentIs(m, t, cs[j]);
      CurrentIs(m', t', cs'[j]);
      assert StaysOn(t, cs[j], k, t', cs'[j]);
    }
  }
}
