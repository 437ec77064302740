/** mdb_drop0 on a plain database: all its pages go to the transaction's free list. */
module DropTree {
  import opened Base
  import opened PageTree

  function PageNumbers(ts: seq<PTree>): seq<Pgno> {
    if ts == [] then [] else [ts[0].pgno] + PageNumbers(ts[1..])
  }

  /** The overflow pages of a level of leaves. */
  function OverAll(ts: seq<PTree>): seq<Pgno> {
    if ts == [] then [] else (if ts[0].PLeaf? then OverOf(ts[0].nodes) else []) + OverAll(ts[1..])
  }

  /** What a level's subtrees hold besides the level's own pages. */
  function Beneath(ts: seq<PTree>, h: nat): seq<Pgno> {
    if h == 0 then OverAll(ts) else AllPagesOf(Below(ts))
  }

  lemma {:induction false} AllPagesConcat(a: seq<PTree>, b: seq<PTree>)
    ensures AllPagesOf(a + b) == AllPagesOf(a) + AllPagesOf(b)
  {
    if a == [] {
      assert a + b == b;
    } else {
      assert (a + b)[1..] == a[1..] + b;
      AllPagesConcat(a[1..], b);
    }
  }

  /** The pages of a level and what lies beneath them. */
  lemma {:induction false} LevelPages(ts: seq<PTree>, h: nat)
    requires UniformAll(ts, h)
    ensures multiset(AllPagesOf(ts)) == multiset(PageNumbers(ts)) + multiset(Beneath(ts, h))
  {
    if ts != [] {
      assert Uniform(ts[0], h);
      LevelPages(ts[1..], h);
      AllPagesConcat(KidsOf(ts[0]), Below(ts[1..]));
    }
  }

  lemma OverStep(ns: seq<Node>, i: nat)
    requires i < |ns|
    ensures OverOf(ns[i..]) == (if ns[i].Big? then Range(ns[i].at, ns[i].pages) else []) + OverOf(ns[i + 1..])
    ensures NodesPages(ns[i..]) == NodePages(ns[i]) + NodesPages(ns[i + 1..])
  {
    assert ns[i..][1..] == ns[i + 1..];
  }

  lemma NoOverflow(ns: seq<Node>)
    requires NodesPages(ns) == 0
    ensures OverOf(ns) == []
  {
  }

  lemma Assoc(a: seq<Pgno>, b: seq<Pgno>, c: seq<Pgno>)
    ensures a + (b + c) == (a + b) + c && a + [] == a
  {
  }

  /** Adds the overflow pages of a leaf; with no more to come, the rest of the leaf is skipped. */
  method FreeOverflow(ns: seq<Node>, over: nat, ghost later: nat) returns (freed: seq<Pgno>, left: nat)
    requires over == NodesPages(ns) + later
    ensures freed == OverOf(ns) && left == later
  {
    hide OverOf, NodesPages;
    freed, left := [], over;
    var i := 0;
    assert ns[0..] == ns;
    while i < |ns|
      invariant i <= |ns|
      invariant OverOf(ns) == freed + OverOf(ns[i..])
      invariant left == NodesPages(ns[i..]) + later
    {
      OverStep(ns, i);
      if ns[i].Big? {
        Assoc(freed, Range(ns[i].at, ns[i].pages), OverOf(ns[i + 1..]));
        freed := freed + Range(ns[i].at, ns[i].pages);
        left := left - ns[i].pages;
        if left == 0 {
          NoOverflow(ns[i + 1..]);
          Assoc(freed, [], []);
          return;
        }
      }
      i := i + 1;
    }
    assert ns[i..] == [];
    NothingOver();
  }

  lemma NothingOver()
    ensures OverOf([]) == [] && NodesPages([]) == 0 && OverAll([]) == [] && PageNumbers([]) == []
  {
  }

  lemma {:induction false} NumbersConcat(a: seq<PTree>, b: seq<PTree>)
    ensures PageNumbers(a + b) == PageNumbers(a) + PageNumbers(b)
  {
    if a == [] {
      assert a + b == b;
    } else {
      assert (a + b)[1..] == a[1..] + b;
      NumbersConcat(a[1..], b);
    }
  }

  /** The children of one branch page. */
  method FreeChildren(t: PTree) returns (freed: seq<Pgno>)
    requires t.PBranch?
    ensures freed == PageNumbers(KidsOf(t))
  {
    freed := [];
    var i := 0;
    assert t.kids[0..] == t.kids;
    while i < |t.kids|
      invariant i <= |t.kids|
      invariant PageNumbers(t.kids) == freed + PageNumbers(t.kids[i..])
    {
      assert t.kids[i..][1..] == t.kids[i + 1..];
      freed := freed + [t.kids[i].pgno];
      i := i + 1;
    }
  }

  // ---------------------------------------------------------------- the cursor

  /** The pages pg[..snum] are a path from the root, along the indices ki. */
  predicate WalkPath(root: PTree, pg: seq<PTree>, ki: seq<nat>, snum: nat) {
    && 0 < snum <= |pg| == |ki| && pg[0] == root
    && forall l :: 0 <= l < snum - 1 ==> Leads(pg, ki, l)
  }

  predicate Leads(pg: seq<PTree>, ki: seq<nat>, l: nat)
    requires l + 1 < |pg| == |ki|
  {
    pg[l].PBranch? && ki[l] < |pg[l].kids| && pg[l + 1] == pg[l].kids[ki[l]]
  }

  /** How many pages of its level come before the page at level l. */
  function Pos(root: PTree, ki: seq<nat>, l: nat): nat
    requires l <= |ki|
  {
    if l == 0 then 0
    else
      var up, n := Level([root], l - 1), Pos(root, ki, l - 1);
      if n > |up| then 0 else |Below(up[..n])| + ki[l - 1]
  }

  lemma CutAt(ts: seq<PTree>, n: nat)
    requires n < |ts|
    ensures ts[..n + 1] == ts[..n] + [ts[n]]
    ensures ts == ts[..n + 1] + ts[n + 1..]
  {
  }

  /** The children of page n of a level are together in the next. */
  lemma KidsAt(ts: seq<PTree>, n: nat)
    requires n < |ts|
    ensures Below(ts[..n + 1]) == Below(ts[..n]) + KidsOf(ts[n])
    ensures Below(ts) == Below(ts[..n]) + KidsOf(ts[n]) + Below(ts[n + 1..])
  {
    hide Below, KidsOf;
    CutAt(ts, n);
    BelowConcat(ts[..n], [ts[n]]);
    BelowOne(ts[n]);
    BelowConcat(ts[..n + 1], ts[n + 1..]);
  }

  lemma BelowOne(t: PTree)
    ensures Below([t]) == KidsOf(t)
  {
    assert [t][1..] == [];
  }

  /** The page at level l is the one at its position. */
  lemma {:induction false} AtPos(root: PTree, pg: seq<PTree>, ki: seq<nat>, snum: nat, l: nat)
    requires WalkPath(root, pg, ki, snum) && l < snum
    ensures Pos(root, ki, l) < |Level([root], l)| && Level([root], l)[Pos(root, ki, l)] == pg[l]
  {
    hide Level, Pos, WalkPath, Leads, KidsOf, Below;
    if l > 0 {
      AtPos(root, pg, ki, snum, l - 1);
      LedTo(root, pg, ki, snum, l - 1);
      PosStep(root, ki, l);
      KidAtPos(Level([root], l - 1), Pos(root, ki, l - 1), ki[l - 1]);
    } else {
      LedFrom(root, pg, ki, snum);
    }
  }

  lemma LedFrom(root: PTree, pg: seq<PTree>, ki: seq<nat>, snum: nat)
    requires WalkPath(root, pg, ki, snum)
    ensures pg != [] && pg[0] == root && Level([root], 0) == [root] && Pos(root, ki, 0) == 0
  {
  }

  lemma KidAtPos(up: seq<PTree>, n: nat, i: nat)
    requires n < |up| && i < |KidsOf(up[n])|
    ensures |Below(up[..n])| + i < |Below(up)| && Below(up)[|Below(up[..n])| + i] == KidsOf(up[n])[i]
  {
    hide Below;
    KidsAt(up, n);
    InMiddle(Below(up[..n]), KidsOf(up[n]), Below(up[n + 1..]), i);
  }

  lemma PosStep(root: PTree, ki: seq<nat>, l: nat)
    requires 0 < l <= |ki| && Pos(root, ki, l - 1) <= |Level([root], l - 1)|
    ensures Level([root], l) == Below(Level([root], l - 1))
    ensures Pos(root, ki, l) == |Below(Level([root], l - 1)[..Pos(root, ki, l - 1)])| + ki[l - 1]
  {
  }

  lemma LedTo(root: PTree, pg: seq<PTree>, ki: seq<nat>, snum: nat, l: nat)
    requires WalkPath(root, pg, ki, snum) && l + 1 < snum
    ensures |pg| == |ki| >= snum && Leads(pg, ki, l)
    ensures pg[l].PBranch? && ki[l] < |KidsOf(pg[l])| && pg[l + 1] == KidsOf(pg[l])[ki[l]]
  {
  }

  lemma InMiddle(a: seq<PTree>, b: seq<PTree>, c: seq<PTree>, i: nat)
    requires i < |b|
    ensures |a| + i < |a + b + c| && (a + b + c)[|a| + i] == b[i]
  {
  }

  lemma {:induction false} PosFrame(root: PTree, ki: seq<nat>, ki': seq<nat>, l: nat)
    requires l <= |ki| && l <= |ki'| && forall i :: 0 <= i < l ==> ki[i] == ki'[i]
    ensures Pos(root, ki, l) == Pos(root, ki', l)
  {
    if l > 0 {
      hide Below, Level;
      PosFrame(root, ki, ki', l - 1);
    }
  }

  /** The next child of the same parent is the next page of the level. */
  lemma NextKid(root: PTree, pg: seq<PTree>, ki: seq<nat>, snum: nat)
    requires WalkPath(root, pg, ki, snum) && snum > 1
    ensures var l := snum - 1;
            var n := |KidsOf(pg[l - 1])|;
            && (ki[l - 1] + 1 < n ==> Pos(root, ki, l) + 1 < |Level([root], l)|
                                      && Pos(root, ki[l - 1 := ki[l - 1] + 1], l) == Pos(root, ki, l) + 1)
            && (ki[l - 1] + 1 == n && Pos(root, ki, l - 1) + 1 == |Level([root], l - 1)| ==>
                  Pos(root, ki, l) + 1 == |Level([root], l)|)
  {
    hide Below;
    var l := snum - 1;
    AtPos(root, pg, ki, snum, l - 1);
    assert Leads(pg, ki, l - 1);
    var up, n := Level([root], l - 1), Pos(root, ki, l - 1);
    KidsAt(up, n);
    PosFrame(root, ki, ki[l - 1 := ki[l - 1] + 1], l - 1);
    if n + 1 == |up| {
      assert up[n + 1..] == [];
      BelowNone();
    }
  }

  lemma BelowNone()
    ensures Below([]) == []
  {
  }

  /** The first child of the parent's right sibling is the next page of the level. */
  lemma FirstCousin(root: PTree, pg: seq<PTree>, ki: seq<nat>, snum: nat, pg': seq<PTree>, ki': seq<nat>)
    requires WalkPath(root, pg, ki, snum) && snum > 1 && ki[snum - 2] + 1 == |KidsOf(pg[snum - 2])|
    requires WalkPath(root, pg', ki', snum) && ki'[snum - 2] == 0
    requires Pos(root, ki', snum - 2) == Pos(root, ki, snum - 2) + 1
    ensures Pos(root, ki', snum - 1) == Pos(root, ki, snum - 1) + 1 < |Level([root], snum - 1)|
  {
    hide Below;
    var l := snum - 1;
    AtPos(root, pg, ki, snum, l - 1);
    AtPos(root, pg', ki', snum, l);
    assert Leads(pg, ki, l - 1);
    KidsAt(Level([root], l - 1), Pos(root, ki, l - 1));
  }

  lemma {:induction false} PageAtLevel(root: PTree, h: nat, pg: seq<PTree>, ki: seq<nat>, snum: nat, l: nat)
    requires Uniform(root, h) && Proper(root) && WalkPath(root, pg, ki, snum) && l < snum
    ensures l <= h && Uniform(pg[l], h - l) && Proper(pg[l]) && (pg[l].PBranch? <==> l < h)
  {
    if l > 0 {
      PageAtLevel(root, h, pg, ki, snum, l - 1);
      assert Leads(pg, ki, l - 1);
    }
  }

  lemma PathLength(root: PTree, pg: seq<PTree>, ki: seq<nat>, snum: nat)
    requires WalkPath(root, pg, ki, snum)
    ensures 0 < snum <= |pg| == |ki|
    ensures snum > 1 ==> WalkPath(root, pg, ki, snum - 1)
  {
  }

  /** To the next child of the same parent, and down to it. */
  lemma StepInside(root: PTree, pg: seq<PTree>, ki: seq<nat>, snum: nat)
    requires WalkPath(root, pg, ki, snum) && snum > 1
    requires pg[snum - 2].PBranch? && ki[snum - 2] + 1 < |pg[snum - 2].kids|
    ensures var l := snum - 1;
            var ki1 := ki[l - 1 := ki[l - 1] + 1];
            var ki' := ki1[l := 0];
            && WalkPath(root, pg[l := pg[l - 1].kids[ki1[l - 1]]], ki', snum)
            && Pos(root, ki', l) == Pos(root, ki, l) + 1 < |Level([root], l)|
  {
    hide Level, Pos, WalkPath, Leads;
    var l := snum - 1;
    PathLength(root, pg, ki, snum);
    var ki1 := ki[l - 1 := ki[l - 1] + 1];
    NextKid(root, pg, ki, snum);
    Nudged(root, pg, ki, l, ki[l - 1] + 1);
    PushedAt(root, pg, ki1, l);
    PosFrame(root, ki1, ki1[l := 0], l);
  }

  /** After the parent's level has been stepped along: down to the first child there. */
  lemma StepOver(root: PTree, pg: seq<PTree>, ki: seq<nat>, snum: nat, pg1: seq<PTree>, ki1: seq<nat>)
    requires WalkPath(root, pg, ki, snum) && snum > 1 && ki[snum - 2] + 1 == |KidsOf(pg[snum - 2])|
    requires WalkPath(root, pg1, ki1, snum - 1) && |pg1| == |pg| && ki1[snum - 2] == 0
    requires pg1[snum - 2].PBranch? && pg1[snum - 2].kids != []
    requires Pos(root, ki1, snum - 2) == Pos(root, ki, snum - 2) + 1
    ensures var l := snum - 1;
            && WalkPath(root, pg1[l := pg1[l - 1].kids[ki1[l - 1]]], ki1[l := 0], snum)
            && Pos(root, ki1[l := 0], l) == Pos(root, ki, l) + 1 < |Level([root], l)|
  {
    hide Level, Pos, WalkPath, Leads;
    var l := snum - 1;
    PathLength(root, pg, ki, snum);
    PathLength(root, pg1, ki1, l);
    PushedAt(root, pg1, ki1, l);
    PosFrame(root, ki1, ki1[l := 0], l - 1);
    FirstCousin(root, pg, ki, snum, pg1[l := pg1[l - 1].kids[ki1[l - 1]]], ki1[l := 0]);
  }

  /** The cursor of the walk. */
  class Walk {
    const root: PTree
    var pg: seq<PTree>   // mc_pg
    var ki: seq<nat>     // mc_ki
    var snum: nat        // mc_snum

    ghost predicate Valid(h: nat)
      reads this
    {
      Uniform(root, h) && Proper(root) && WalkPath(root, pg, ki, snum) && |pg| == |ki| == h + 1 && snum <= h + 1
    }

    /** mdb_page_search with MDB_PS_FIRST: the leftmost path. */
    constructor (root: PTree, ghost h: nat)
      requires Uniform(root, h) && Proper(root)
      ensures Valid(h) && snum == h + 1 && this.root == root && forall l :: 0 <= l < snum ==> ki[l] == 0
    {
      this.root := root;
      pg, ki, snum := [root], [0], 1;
      new;
      while pg[snum - 1].PBranch?
        invariant 0 < snum == |pg| == |ki| <= h + 1 && this.root == root
        invariant WalkPath(root, pg, ki, snum) && forall l :: 0 <= l < snum ==> ki[l] == 0
        decreases h + 1 - snum
      {
        PageAtLevel(root, h, pg, ki, snum, snum - 1);
        Pushed(root, pg, ki, snum);
        pg, ki, snum := pg + [pg[snum - 1].kids[0]], ki + [0], snum + 1;
        PageAtLevel(root, h, pg, ki, snum, snum - 1);
      }
      PageAtLevel(root, h, pg, ki, snum, snum - 1);
    }

    /** mdb_cursor_sibling to the right. */
    method Sibling(ghost h: nat) returns (ok: bool)
      requires Valid(h)
      modifies `pg, `ki, `snum
      ensures Valid(h) && snum == old(snum)
      ensures ok == (old(Pos(root, ki, snum - 1)) + 1 < |Level([root], snum - 1)|)
      ensures if ok then Pos(root, ki, snum - 1) == old(Pos(root, ki, snum - 1)) + 1 && ki[snum - 1] == 0
              else pg == old(pg) && ki == old(ki)
      decreases snum
    {
      hide Level, Pos, Uniform, Proper, WalkPath, Leads;
      PathLength(root, pg, ki, snum);
      if snum < 2 {
        OneRoot(root, ki);
        return false;
      }
      ghost var pg0, ki0 := pg, ki;
      PageAtLevel(root, h, pg, ki, snum, snum - 2);
      NextKid(root, pg, ki, snum);
      LedTo(root, pg, ki, snum, snum - 2);
      snum := snum - 1;
      if ki[snum - 1] + 1 >= |pg[snum - 1].kids| {
        ok := Sibling(h);
        if !ok {
          snum := snum + 1;
          AtPos(root, pg, ki, snum, snum - 2);
          return false;
        }
        PageAtLevel(root, h, pg, ki, snum, snum - 1);
        StepOver(root, pg0, ki0, snum + 1, pg, ki);
      } else {
        StepInside(root, pg, ki, snum + 1);
        ki := ki[snum - 1 := ki[snum - 1] + 1];
      }
      pg := pg[snum := pg[snum - 1].kids[ki[snum - 1]]];
      ki := ki[snum := 0];
      snum := snum + 1;
      ok := true;
    }

    /** mdb_cursor_pop, and back to the beginning of the level above. */
    method Pop(mx: seq<PTree>, ghost h: nat)
      requires Valid(h) && LeftMost(root, mx, h)
      modifies `pg, `ki, `snum
      ensures snum == old(snum) - 1 && (snum > 0 ==> Valid(h) && Pos(root, ki, snum - 1) == 0)
    {
      hide Uniform, Proper, Pos;
      snum := snum - 1;
      ki := ki[0 := 0];
      var i := 1;
      while i < snum
        invariant 1 <= i && |pg| == |ki| == h + 1 && (snum > 0 ==> i <= snum) && snum == old(snum) - 1
        invariant pg[0] == root && forall j :: 1 <= j < i && j < snum ==> pg[j] == mx[j]
        invariant forall j :: 0 <= j < i && j < |ki| ==> ki[j] == 0
      {
        ki := ki[i := 0];
        pg := pg[i := mx[i]];
        i := i + 1;
      }
      if snum > 0 {
        forall l | 0 <= l < snum - 1
          ensures Leads(pg, ki, l)
        {
          assert FirstKid(mx, l);
        }
        FirstPos(root, ki, snum - 1);
      }
    }
  }

  /** mx holds the leftmost path. */
  predicate LeftMost(root: PTree, mx: seq<PTree>, h: nat) {
    |mx| == h + 1 && mx[0] == root && forall l :: 0 <= l < h ==> FirstKid(mx, l)
  }

  predicate FirstKid(mx: seq<PTree>, l: nat)
    requires l + 1 < |mx|
  {
    mx[l].PBranch? && mx[l].kids != [] && mx[l + 1] == mx[l].kids[0]
  }

  lemma {:induction false} FirstPos(root: PTree, ki: seq<nat>, l: nat)
    requires l <= |ki| && forall i :: 0 <= i < l ==> ki[i] == 0
    ensures Pos(root, ki, l) == 0
  {
    if l > 0 {
      FirstPos(root, ki, l - 1);
      BelowNone();
      assert Level([root], l - 1)[..0] == [];
    }
  }

  lemma Pushed(root: PTree, pg: seq<PTree>, ki: seq<nat>, snum: nat)
    requires WalkPath(root, pg, ki, snum) && snum == |pg| && pg[snum - 1].PBranch? && pg[snum - 1].kids != []
    requires forall l :: 0 <= l < snum ==> ki[l] == 0
    ensures WalkPath(root, pg + [pg[snum - 1].kids[0]], ki + [0], snum + 1)
  {
    var pg', ki' := pg + [pg[snum - 1].kids[0]], ki + [0];
    forall l | 0 <= l < snum
      ensures Leads(pg', ki', l)
    {
      assert l < snum - 1 ==> Leads(pg, ki, l);
    }
  }

  lemma Nudged(root: PTree, pg: seq<PTree>, ki: seq<nat>, snum: nat, i: nat)
    requires WalkPath(root, pg, ki, snum + 1) && snum > 0
    ensures WalkPath(root, pg, ki[snum - 1 := i], snum)
  {
    var ki' := ki[snum - 1 := i];
    forall l | 0 <= l < snum - 1
      ensures Leads(pg, ki', l)
    {
      assert Leads(pg, ki, l);
    }
  }

  lemma PushedAt(root: PTree, pg: seq<PTree>, ki: seq<nat>, snum: nat)
    requires WalkPath(root, pg, ki, snum) && snum < |pg|
    requires pg[snum - 1].PBranch? && ki[snum - 1] < |pg[snum - 1].kids|
    ensures WalkPath(root, pg[snum := pg[snum - 1].kids[ki[snum - 1]]], ki[snum := 0], snum + 1)
  {
    var pg', ki' := pg[snum := pg[snum - 1].kids[ki[snum - 1]]], ki[snum := 0];
    forall l | 0 <= l < snum
      ensures Leads(pg', ki', l)
    {
      assert l < snum - 1 ==> Leads(pg, ki, l);
    }
  }

  lemma OneRoot(root: PTree, ki: seq<nat>)
    ensures Pos(root, ki, 0) == 0 && |Level([root], 0)| == 1
  {
  }

  // ---------------------------------------------------------------- the walk

  /** What has been freed when the pages before position n of level l have been visited. */
  ghost function Visited(root: PTree, h: nat, l: nat, n: nat): multiset<Pgno>
    requires l <= h && n <= |Level([root], l)|
  {
    if l == h then multiset(OverAll(Level([root], l)[..n]))
    else multiset(Beneath(Level([root], l + 1), h - l - 1)) + multiset(PageNumbers(Below(Level([root], l)[..n])))
  }

  lemma {:induction false} OverConcat(a: seq<PTree>, b: seq<PTree>)
    ensures OverAll(a + b) == OverAll(a) + OverAll(b)
  {
    hide OverOf;
    if a == [] {
      assert a + b == b;
    } else {
      assert (a + b)[1..] == a[1..] + b;
      OverConcat(a[1..], b);
    }
  }

  lemma OverOne(t: PTree)
    requires t.PLeaf?
    ensures OverAll([t]) == OverOf(t.nodes)
  {
    assert [t][1..] == [];
  }

  /** Leaf n of the lowest level is visited. */
  lemma VisitLeaf(root: PTree, h: nat, n: nat)
    requires n < |Level([root], h)| && Level([root], h)[n].PLeaf?
    ensures var ts := Level([root], h);
            && Visited(root, h, h, n + 1) == Visited(root, h, h, n) + multiset(OverOf(ts[n].nodes))
            && |OverAll(ts[n..])| == NodesPages(ts[n].nodes) + |OverAll(ts[n + 1..])|
  {
    hide OverAll, OverOf, Level;
    var ts := Level([root], h);
    assert ts[..n + 1] == ts[..n] + [ts[n]];
    OverConcat(ts[..n], [ts[n]]);
    assert ts[n..] == [ts[n]] + ts[n + 1..];
    OverConcat([ts[n]], ts[n + 1..]);
    OverOne(ts[n]);
  }

  /** Branch n of level l is visited. */
  lemma VisitBranch(root: PTree, h: nat, l: nat, n: nat)
    requires l < h && n < |Level([root], l)|
    ensures Visited(root, h, l, n + 1) == Visited(root, h, l, n) + multiset(PageNumbers(KidsOf(Level([root], l)[n])))
  {
    hide Below, Level, Beneath, PageNumbers;
    var ts := Level([root], l);
    KidsAt(ts, n);
    NumbersConcat(Below(ts[..n]), KidsOf(ts[n]));
  }

  /** Nothing of the lowest level is visited at first. */
  lemma VisitNone(root: PTree, h: nat)
    ensures Visited(root, h, h, 0) == multiset{}
  {
    assert Level([root], h)[..0] == [];
  }

  /** A level is done when all its pages are visited, or when no overflow pages are left. */
  lemma LevelDone(root: PTree, h: nat, l: nat, n: nat)
    requires Uniform(root, h) && l <= h && n <= |Level([root], l)|
    requires n == |Level([root], l)| || (l == h && OverAll(Level([root], l)[n..]) == [])
    ensures Visited(root, h, l, n) == multiset(Beneath(Level([root], l), h - l))
  {
    hide Uniform, OverAll, Below, AllPagesOf, PageNumbers, Level;
    var ts := Level([root], l);
    assert ts == ts[..n] + ts[n..];
    if l == h {
      OverConcat(ts[..n], ts[n..]);
      if n == |ts| {
        assert ts[n..] == [];
        NothingOver();
      }
    } else {
      assert ts[..n] == ts;
      NextLevel(root, l + 1);
      UniformLevel(root, h, l + 1);
      LevelPages(Level([root], l + 1), h - l - 1);
    }
  }

  /** The walk then goes on at the beginning of the level above. */
  lemma LevelBegins(root: PTree, h: nat, l: nat)
    requires 0 < l <= h
    ensures Visited(root, h, l - 1, 0) == multiset(Beneath(Level([root], l), h - l))
  {
    hide Level, Beneath;
    assert Level([root], l - 1)[..0] == [];
    BelowNone();
    NothingOver();
  }

  /** At position n of a level, or past the root when snum is 0. */
  ghost predicate Halfway(w: Walk, h: nat, freed: seq<Pgno>, left: nat)
    reads w
  {
    if w.snum == 0 then multiset(freed) == multiset(Beneath(Level([w.root], 0), h))
    else
      w.Valid(h) &&
      var l, n := w.snum - 1, Pos(w.root, w.ki, w.snum - 1);
      && l <= h && n < |Level([w.root], l)|
      && multiset(freed) == Visited(w.root, h, l, n)
      && (l == h ==> left == |OverAll(Level([w.root], l)[n..])| > 0)
  }

  /** A level is done: on to the beginning of the level above. */
  method BackToAbove(w: Walk, mx: seq<PTree>, ghost h: nat, ghost freed: seq<Pgno>, ghost left: nat)
    requires w.Valid(h) && LeftMost(w.root, mx, h) && w.snum <= h + 1
    requires multiset(freed) == multiset(Beneath(Level([w.root], w.snum - 1), h - (w.snum - 1)))
    modifies w`pg, w`ki, w`snum
    ensures w.snum == old(w.snum) - 1 && Halfway(w, h, freed, left)
  {
    hide Level, Pos, OverAll, Uniform, Proper, Visited, Beneath, WalkPath;
    if w.snum > 1 {
      LevelBegins(w.root, h, w.snum - 1);
    }
    w.Pop(mx, h);
    if w.snum > 0 {
      AtPos(w.root, w.pg, w.ki, w.snum, w.snum - 1);
    }
  }

  lemma Begins(root: PTree, h: nat, pg: seq<PTree>, ki: seq<nat>)
    requires Uniform(root, h) && Proper(root) && WalkPath(root, pg, ki, h + 1) && |pg| == h + 1
    requires forall l :: 0 <= l <= h ==> ki[l] == 0
    ensures LeftMost(root, pg, h) && Pos(root, ki, h) == 0 && 0 < |Level([root], h)|
    ensures Level([root], h)[0..] == Level([root], h) && Visited(root, h, h, 0) == multiset{}
  {
    hide Level, Uniform, Proper;
    forall l | 0 <= l < h
      ensures FirstKid(pg, l)
    {
      assert Leads(pg, ki, l);
    }
    FirstPos(root, ki, h);
    AtPos(root, pg, ki, h + 1, h);
    VisitNone(root, h);
  }

  /** The page the cursor is on. */
  method Visit(w: Walk, freed0: seq<Pgno>, left0: nat, ghost h: nat) returns (freed: seq<Pgno>, left: nat, pop: bool)
    requires w.snum > 0 && Halfway(w, h, freed0, left0)
    ensures var l, n := w.snum - 1, Pos(w.root, w.ki, w.snum - 1);
            && multiset(freed) == Visited(w.root, h, l, n + 1)
            && (pop ==> l == h && OverAll(Level([w.root], l)[n + 1..]) == [])
            && (l == h && !pop ==> left == |OverAll(Level([w.root], l)[n + 1..])| > 0)
  {
    hide Level, Pos, OverAll, OverOf, PageNumbers, Uniform, Proper, Visited, NodesPages;
    ghost var l, n := w.snum - 1, Pos(w.root, w.ki, w.snum - 1);
    PageAtLevel(w.root, h, w.pg, w.ki, w.snum, l);
    AtPos(w.root, w.pg, w.ki, w.snum, l);
    var mp := w.pg[w.snum - 1];
    left, pop := left0, false;
    var more;
    if mp.PLeaf? {
      VisitLeaf(w.root, h, n);
      more, left := FreeOverflow(mp.nodes, left, |OverAll(Level([w.root], l)[n + 1..])|);
      pop := left == 0;
    } else {
      VisitBranch(w.root, h, l, n);
      more := FreeChildren(mp);
    }
    freed := freed0 + more;
  }

  /**
   mdb_drop0: up from the lowest level, each level from its first page to the right. The leaves are
   skipped if the counter says that there are no overflow pages, and the remaining ones once there
   are no more. Every page of the tree is freed exactly once.
   */
  method Drop(root: PTree, ghost h: nat, overflowPages: nat) returns (freed: seq<Pgno>)
    requires Uniform(root, h) && Proper(root) && overflowPages == |OverAll(Level([root], h))|
    ensures multiset(freed) == multiset(AllPages(root))
    ensures Distinct(AllPages(root)) ==> forall p :: multiset(freed)[p] == if p in AllPages(root) then 1 else 0
  {
    hide Uniform, Proper, AllPages, AllPagesOf, OverAll, PageNumbers, Level, Pos, Beneath, Visited, Distinct, WalkPath;
    freed := [];
    var left := overflowPages;
    var w := new Walk(root, h);
    var mx := w.pg;
    Begins(root, h, w.pg, w.ki);
    if overflowPages == 0 {
      LevelDone(root, h, h, 0);
      BackToAbove(w, mx, h, freed, left);
    }
    while w.snum > 0
      invariant fresh(w) && w.root == root && LeftMost(root, mx, h) && Halfway(w, h, freed, left)
      decreases w.snum, if w.snum == 0 then 0 else |Level([root], w.snum - 1)| - Pos(root, w.ki, w.snum - 1)
    {
      ghost var l, n := w.snum - 1, Pos(root, w.ki, w.snum - 1);
      var pop;
      freed, left, pop := Visit(w, freed, left, h);
      if !pop && w.snum == 1 {
        OneRoot(root, w.ki);
        LevelDone(root, h, 0, 1);
        break;
      }
      if !pop {
        var ok := w.Sibling(h);
        pop := !ok;
      }
      if pop {
        LevelDone(root, h, l, n + 1);
        BackToAbove(w, mx, h, freed, left);
      }
    }
    AllFreed(root, h, freed);
    freed := freed + [root.pgno];
  }

  /** With the root page itself, all pages have been freed. */
  lemma AllFreed(root: PTree, h: nat, freed: seq<Pgno>)
    requires Uniform(root, h) && multiset(freed) == multiset(Beneath(Level([root], 0), h))
    ensures multiset(freed + [root.pgno]) == multiset(AllPages(root))
    ensures Distinct(AllPages(root)) ==> forall p :: multiset(freed + [root.pgno])[p] == if p in AllPages(root) then 1 else 0
  {
    hide Uniform, AllPages, Level, Beneath, Distinct;
    RootLevel(root, h);
    if Distinct(AllPages(root)) {
      forall p
        ensures multiset(freed + [root.pgno])[p] == if p in AllPages(root) then 1 else 0
      {
        DistinctOnce(AllPages(root), p);
      }
    }
  }

  lemma NextLevel(root: PTree, l: nat)
    requires l > 0
    ensures Level([root], l) == Below(Level([root], l - 1))
  {
  }

  lemma OneTree(root: PTree)
    ensures AllPagesOf([root]) == AllPages(root) && PageNumbers([root]) == [root.pgno]
  {
    hide AllPages;
    assert [root][1..] == [];
    Assoc(AllPages(root), [], []);
  }

  lemma RootLevel(root: PTree, h: nat)
    requires Uniform(root, h)
    ensures Level([root], 0) == [root]
    ensures multiset(AllPages(root)) == multiset(Beneath([root], h)) + multiset{root.pgno}
  {
    hide AllPages, AllPagesOf, PageNumbers, Beneath, Uniform;
    LevelPages([root], h);
    OneTree(root);
  }

  lemma {:induction false} DistinctOnce(s: seq<Pgno>, p: Pgno)
    requires Distinct(s)
    ensures multiset(s)[p] == if p in s then 1 else 0
  {
    if s != [] {
      DistinctOnce(s[1..], p);
      assert s == [s[0]] + s[1..];
      assert s[0] in s[1..] ==> false;
    }
  }
}
