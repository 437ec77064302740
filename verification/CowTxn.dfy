/**
 A write transaction on one database: mdb_cursor_put and mdb_cursor_del as they change pages.
 Pages are copied before they are changed (mdb_page_touch), so what other snapshots point to
 stays as it is, and every page number is accounted for.
 */
module CowTxn {
  import opened Base
  import opened Sizes
  import opened BTree
  import opened BTreePut
  import opened BTreeDelete
  import opened BTreeDeleteProofs
  import PageTree
  import opened PageMemory
  import opened PathUpdate
  import opened PageSteps
  import opened PageRebalance
  import opened TrackedCursors

  datatype Result = Success | PageFull | MapFull

  function Opt(t: Option<LTree>): Option<Tree> {
    if t.None? then None else Some(Value(t.value))
  }

  datatype Op = PutOp(k: Key, v: Val, inPlace: bool) | DelOp(k: Key)

  /** What the operations make of a map. */
  function Applied(m: map<Key, Val>, ops: seq<Op>): map<Key, Val> {
    if ops == [] then m
    else
      var m', op := Applied(m, ops[..|ops| - 1]), ops[|ops| - 1];
      if op.PutOp? then m'[op.k := op.v] else m' - {op.k}
  }

  // ---------------------------------------------------------------- the search from the root

  /** The stack is the key's path as far as t, in the context c. */
  ghost predicate Searching(e: Env, m: Mem, whole: LTree, k: Key, pg: seq<Pgno>, ki: seq<nat>, c: Ctx, t: LTree, h: nat) {
    && |pg| == |c| + 1 && |ki| == |c| && pg[|c|] == t.p && Follows(pg, ki, c)
    && CtxHolds(m, c, t.p) && Holds(m, t) && Plug(c, t) == whole
    && Leads(c, k) && CtxShape(c, h) && Sound(e, Value(t), h, true)
  }

  lemma SearchBegins(e: Env, m: Mem, t: LTree, k: Key, h: nat)
    requires CtxHolds(m, [], t.p) && Plug([], t) == t && Leads([], k) && CtxShape([], h)
    requires Holds(m, t) && Sound(e, Value(t), h, true)
    ensures Searching(e, m, t, k, [t.p], [], [], t, h)
  {
    hide Sound, Holds, CtxHolds, Plug, Leads, CtxShape;
    FollowsNone([t.p], []);
  }

  /** Down to the child that the key leads to. */
  lemma SearchGoesOn(e: Env, m: Mem, whole: LTree, k: Key, pg: seq<Pgno>, ki: seq<nat>, c: Ctx, t: LTree, h: nat)
    requires Searching(e, m, whole, k, pg, ki, c, t, h) && t.p in m && m[t.p].BranchPg?
    ensures t.LBranch? && |t.kids| == |t.keys| + 1 && h > 0
    ensures var i := KidPos(m[t.p].keys, k);
            && i < |m[t.p].kids| == |t.kids| && m[t.p].kids[i] == t.kids[i].p && t.kids[i].p in m
            && Searching(e, m, whole, k, pg + [m[t.p].kids[i]], ki + [i], c + [Toward(t, k)], t.kids[i], h - 1)
  {
    hide Sound, CtxShape, Leads, KidPos, Holds, HoldAll, CtxHolds, Image, Plug, Toward, Follows, CtxLabels, Labels;
    HoldsParts(m, t);
    ImageKids(t);
    TowardStep(e, c, t, k, h);
    var i, f := KidPos(t.keys, k), Toward(t, k);
    Descend(m, c, f, t.kids[i]);
    ImageKid(t, i);
    FollowsOn(pg, ki, c, f, t.kids[i].p);
    HoldsParts(m, t.kids[i]);
  }

  lemma SearchIsOver(e: Env, m: Mem, whole: LTree, k: Key, pg: seq<Pgno>, ki: seq<nat>, c: Ctx, t: LTree, h: nat)
    requires Searching(e, m, whole, k, pg, ki, c, t, h) && t.p in m && !m[t.p].BranchPg?
    ensures t.LLeaf? && m[t.p] == LeafPg(t.es) && |pg| == |c| + 1 && |ki| == |c| && pg[|c|] == t.p && Plug(c, t) == whole
    ensures Follows(pg, ki + [LeafPos(t.es, k)], c) && Leads(c, k) && CtxShape(c, 0) && SortedEntries(t.es)
  {
    hide CtxShape, Leads, LeafPos, Holds, HoldAll, CtxHolds, Plug, Follows, Sound;
    HoldsParts(m, t);
    ImageKids(t);
    FollowsTop(pg, ki, c, LeafPos(t.es, k));
    LeafHeight(e, t, h);
    SoundLeaf(e, t.es, h, true);
  }

  /** The accounts when page q has taken the place of t's own, which is freed. */
  lemma CopyAccounted(c: Ctx, t: LTree, q: Pgno, freed: seq<Pgno>, loose: seq<Pgno>, pool: seq<Pgno>, others: set<Pgno>, next: Pgno)
    requires Accounted(CtxLabels(c) + Labels(t) + multiset{q}, freed, loose, pool, others, next) && q !in CtxLabels(c) + Labels(t)
    ensures Unique(CtxLabels(c) + Labels(t)) && (c != [] ==> q != c[|c| - 1].p)
    ensures Accounted(CtxLabels(c) + Labels(At(t, q)), freed + [t.p], loose, pool, others, next)
  {
    hide CtxLabels, Labels, Accounted, Unique;
    AccountedOnce(CtxLabels(c) + Labels(t) + multiset{q}, freed, loose, pool, others, next);
    Fewer(CtxLabels(c) + Labels(t), multiset{q});
    AtLabelsIn(CtxLabels(c), t, q);
    PutAway(CtxLabels(c) + Labels(At(t, q)), t.p, freed, loose, pool, others, next);
    if c != [] {
      LastInCtx(c);
    }
  }

  class Txn {
    const e: Env
    const maxpg: nat                // me_maxpg
    var pages: Mem                  // the map, and the dirty pages in front of it
    var dirty: set<Pgno>            // P_DIRTY
    var freed: seq<Pgno>            // mt_free_pgs
    var loose: seq<Pgno>            // mt_loose_pgs
    var pool: seq<Pgno>             // me_pghead
    var next: Pgno                  // mt_next_pgno
    var root: Option<Pgno>          // md_root
    var depth: nat                  // md_depth
    var error: bool                 // MDB_TXN_ERROR
    var pg: seq<Pgno>               // mc_pg
    var ki: seq<nat>                // mc_ki
    var cursors: seq<Cursor>        // mt_cursors: the other cursors on this database

    ghost var tree: Option<LTree>
    ghost const frozen: Mem         // the pages that other snapshots may point to
    ghost const others: set<Pgno>   // pages of other trees and of freeDB records
    ghost const pool0: seq<Pgno>    // me_pghead and mt_next_pgno as they were at the beginning
    ghost const next0: Pgno

    // ---------------------------------------------------------------- invariants

    /** Only pages of this transaction's own may change. */
    ghost predicate Safe()
      reads `next, `dirty, `pool, `pages, `loose
    {
      && next >= NUM_METAS
      && (forall p :: p in dirty ==> p < next && p !in frozen && p !in others && p !in pool)
      && (forall p :: p in frozen ==> p < next && p !in pool && p in pages && pages[p] == frozen[p])
      && (forall p :: p in loose ==> p in dirty)
      && next0 <= next && (forall p :: p in pool ==> p in pool0)
      && (forall p :: p in dirty <==> (p in pool0 && p !in pool) || next0 <= p < next)
    }

    ghost predicate Accounts(live: multiset<Pgno>)
      reads `freed, `loose, `pool, `next
    {
      Accounted(live, freed, loose, pool, others, next)
    }

    /** mdb_page_alloc has nowhere left to take a page from. */
    ghost predicate Exhausted()
      reads `loose, `pool, `next
    {
      loose == [] && pool == [] && next + 1 >= maxpg
    }

    /** t is the whole tree. */
    ghost predicate Installed(t: Option<LTree>)
      reads `root, `pages, `freed, `loose, `pool, `next
    {
      match t
      case None => root == None && Accounts(multiset{})
      case Some(u) => root == Some(u.p) && Holds(pages, u) && Accounts(Labels(u))
    }

    /** The database as a value. */
    ghost function Database(): Db
      reads `tree, `depth
    {
      Db(Opt(tree), depth)
    }

    /** The entry that a cursor's stack is a path to; None if it is not a path to an entry. */
    ghost function EntryAt(c: Cursor): Option<Entry>
      reads `pages, `root
    {
      if root.None? then None else Current(pages, root.value, c)
    }

    ghost predicate Valid()
      reads `error, `tree, `depth, `dirty, `root, `pages, `freed, `loose, `pool, `next
    {
      Safe() && !error && Installed(tree) && DbOk(e, Database())
    }

    /** The tree is t in the context c. */
    ghost predicate Tied(c: Ctx, t: LTree)
      reads `root, `pages, `freed, `loose, `pool, `next
    {
      && CtxHolds(pages, c, t.p) && Holds(pages, t)
      && Accounts(CtxLabels(c) + Labels(t)) && root == Some(Top(c, t.p))
    }

    /** As Tied, but t's own page is yet to be written. */
    ghost predicate Ready(c: Ctx, t: LTree)
      reads `root, `dirty, `pages, `freed, `loose, `pool, `next
    {
      && CtxHolds(pages, c, t.p) && KidsHold(pages, t) && t.p in dirty
      && Accounts(CtxLabels(c) + Labels(t)) && root == Some(Top(c, t.p))
    }

    /** The page stack of the cursor is this path, and all its pages may be written. */
    ghost predicate OnStack(c: Ctx)
      reads `pg, `ki, `dirty
    {
      Follows(pg, ki, c) && forall i :: 0 <= i < |c| ==> c[i].p in dirty
    }

    /** What an operation reports, and what it has made of the database: r at the root. */
    ghost predicate Ended(res: Result, t: Option<LTree>, r: Shrunk, depth0: nat)
      reads `depth, `dirty, `root, `pages, `freed, `loose, `pool, `next
    {
      && Safe()
      && (res.Success? ==> Installed(t) && Some(Db(Opt(t), depth)) == Finish(r, depth0))
      && (res.PageFull? ==> Finish(r, depth0) == None)
      && (res.MapFull? ==> Exhausted())
    }

    /**
     The transaction begins with the newest snapshot's tree, `base`. `snapshots` are all pages
     that this or other snapshots may point to.
     */
    constructor (e: Env, maxpg: nat, snapshots: Mem, pool: seq<Pgno>, next: Pgno, root: Option<Pgno>, depth: nat,
                 ghost base: Option<LTree>, ghost others: set<Pgno>)
      requires next >= NUM_METAS && forall p :: p in snapshots ==> p < next && p !in pool
      requires DbOk(e, Db(Opt(base), depth))
      requires match base case None => root == None case Some(t) => root == Some(t.p) && Holds(snapshots, t)
      requires Accounted(if base.None? then multiset{} else Labels(base.value), [], [], pool, others, next)
      ensures Valid() && tree == base && frozen == snapshots && this.others == others && this.maxpg == maxpg
      ensures pool0 == pool && next0 == next
    {
      this.e, this.maxpg := e, maxpg;
      this.pages, this.dirty, this.freed, this.loose, this.pool, this.next := snapshots, {}, [], [], pool, next;
      this.root, this.depth, this.error, this.pg, this.ki := root, depth, false, [], [];
      this.cursors := [];
      this.tree, this.frozen, this.others, this.pool0, this.next0 := base, snapshots, others, pool, next;
    }

    // ---------------------------------------------------------------- what is kept

    /** Every snapshot stays readable, even after an operation has failed. */
    lemma SnapshotsStay(s: LTree)
      requires Safe() && Holds(frozen, s)
      ensures Holds(pages, s)
    {
      HoldsSame(frozen, pages, s);
    }

    /** Each page number below `next` is in exactly one place. */
    lemma EveryPageOnce(p: Pgno)
      requires Valid() && tree.Some? && NUM_METAS <= p < next
      ensures Labels(tree.value)[p] + multiset(freed)[p] + multiset(loose)[p] + multiset(pool)[p] + multiset(others)[p] == 1
    {
      hide Labels, DbOk;
      var all := Labels(tree.value) + multiset(freed) + multiset(loose) + multiset(pool) + multiset(others);
      assert all[p] == multiset(PageTree.InUse(next))[p];
    }

    /**
     A page of the old tree is still part of the new one or is listed in mt_free_pgs, for readers
     of older snapshots to be done with first; it is not up for reuse in this transaction.
     */
    lemma OldPagesKept(p: Pgno)
      requires Valid() && tree.Some? && p in frozen && p !in others && p >= NUM_METAS
      ensures p in Labels(tree.value) || p in freed
      ensures p !in pool && p !in loose
    {
      hide Labels, DbOk;
      AccountedOnce(Labels(tree.value), freed, loose, pool, others, next);
    }

    // ---------------------------------------------------------------- pages

    lemma IsSafe()
      requires Safe()
      ensures next >= NUM_METAS
    {
    }

    /** The three places that mdb_page_alloc takes a page from. */
    method UseLoose()
      requires Safe() && loose != []
      modifies `loose, `dirty
      ensures Safe() && loose == old(loose)[1..] && dirty == old(dirty) + {old(loose)[0]}
    {
      dirty := dirty + {loose[0]};
      loose := loose[1..];
    }

    method UsePool()
      requires Safe() && pool != []
      requires var n := |pool| - 1; pool[n] !in pool[..n] && pool[n] !in others && pool[n] < next
      modifies `pool, `dirty
      ensures Safe() && pool == old(pool)[..|old(pool)| - 1] && dirty == old(dirty) + {old(pool)[|old(pool)| - 1]}
    {
      var n := |pool| - 1;
      dirty := dirty + {pool[n]};
      ghost var was := pool;
      pool := pool[..n];
      assert was == pool + [was[n]];
    }

    method UseNext()
      requires Safe() && next !in pool && next !in others
      modifies `next, `dirty
      ensures Safe() && next == old(next) + 1 && dirty == old(dirty) + {old(next)}
    {
      dirty := dirty + {next};
      next := next + 1;
    }

    /** mdb_page_alloc of one page. */
    method Alloc(ghost live: multiset<Pgno>) returns (q: Option<Pgno>)
      requires Safe() && Accounts(live)
      modifies `loose, `pool, `next, `dirty
      ensures Safe() && old(dirty) <= dirty
      ensures q.Some? ==> q.value in dirty && q.value !in live && Accounts(live + multiset{q.value})
      ensures q.None? <==> old(Exhausted())
      ensures q == if old(loose) != [] then Some(old(loose)[0])
                   else if old(pool) != [] then Some(old(pool)[|old(pool)| - 1])
                   else if old(next) + 1 < maxpg then Some(old(next))
                   else None
      ensures loose == if old(loose) != [] then old(loose)[1..] else []
      ensures pool == if old(loose) == [] != old(pool) then old(pool)[..|old(pool)| - 1] else old(pool)
      ensures next == if q.Some? && old(loose) == [] == old(pool) then old(next) + 1 else old(next)
      ensures dirty == if q.Some? then old(dirty) + {q.value} else old(dirty)
    {
      hide Accounted, Safe;
      var p: Pgno;
      if loose != [] {
        p := loose[0];
        assert loose == [p] + loose[1..];
        TakeLoose(live, freed, p, loose[1..], pool, others, next);
        UseLoose();
      } else if pool != [] {
        p := pool[|pool| - 1];
        assert pool == pool[..|pool| - 1] + [p];
        TakePool(live, freed, loose, pool[..|pool| - 1], p, others, next);
        UsePool();
      } else if next + 1 >= maxpg {
        return None;
      } else {
        p := next;
        IsSafe();
        TakeNext(live, freed, loose, pool, others, p);
        UseNext();
      }
      LiveOnce(live, p, freed, loose, pool, others, next);
      q := Some(p);
    }

    /** Changes a page of this transaction's own. */
    method Write(p: Pgno, img: Page)
      requires Safe() && p in dirty
      modifies `pages
      ensures Safe() && pages == old(pages)[p := img]
    {
      pages := pages[p := img];
    }

    method Free(p: Pgno)
      requires Safe()
      modifies `freed
      ensures Safe() && freed == old(freed) + [p]
    {
      freed := freed + [p];
    }

    method SetRoot(p: Option<Pgno>, d: nat)
      requires Safe()
      modifies `root, `depth
      ensures Safe() && root == p && depth == d
    {
      root, depth := p, d;
    }

    /** mdb_page_loose */
    method Loosen(p: Pgno, ghost live: multiset<Pgno>)
      requires Safe() && Accounts(live + multiset{p})
      modifies `loose, `freed
      ensures Safe() && Accounts(live)
      ensures p in dirty ==> loose == [p] + old(loose) && freed == old(freed)
      ensures p !in dirty ==> freed == old(freed) + [p] && loose == old(loose)
    {
      hide Accounted;
      PutAway(live, p, freed, loose, pool, others, next);
      if p in dirty {
        loose := [p] + loose;
      } else {
        freed := freed + [p];
      }
    }

    // ---------------------------------------------------------------- other cursors

    /** The loop over mt_cursors at the end of mdb_page_touch. */
    method FixTouched(top: nat, mp: Pgno, np: Pgno)
      modifies `cursors
      ensures cursors == AllRetouched(old(cursors), top, mp, np)
    {
      var i := 0;
      while i < |cursors|
        invariant i <= |cursors| == |old(cursors)|
        invariant forall j :: 0 <= j < i ==> cursors[j] == Retouched(old(cursors)[j], top, mp, np)
        invariant forall j :: i <= j < |cursors| ==> cursors[j] == old(cursors)[j]
      {
        cursors := cursors[i := Retouched(cursors[i], top, mp, np)];
        i := i + 1;
      }
    }

    /** The loop over mt_cursors after mdb_node_add. */
    method FixMoved(top: nat, mp: Pgno, newindx: nat, inserts: bool)
      modifies `cursors
      ensures cursors == AllMoved(old(cursors), top, mp, newindx, inserts)
    {
      var i := 0;
      while i < |cursors|
        invariant i <= |cursors| == |old(cursors)|
        invariant forall j :: 0 <= j < i ==> cursors[j] == Moved(old(cursors)[j], top, mp, newindx, inserts)
        invariant forall j :: i <= j < |cursors| ==> cursors[j] == old(cursors)[j]
      {
        cursors := cursors[i := Moved(cursors[i], top, mp, newindx, inserts)];
        i := i + 1;
      }
    }

    /**
     The loop over mt_cursors at the end of mdb_page_split, if the parent was not split. The split
     page mp is at level top of the stacks, above the new root if there is one.
     */
    method FixSplit(newRoot: Option<Pgno>, top: nat, mp: Pgno, rp: Pgno, newindx: nat, inserts: bool, nkeys: nat,
                    mn: Cursor, parent: Pgno, mine: nat)
      requires 0 < top <= |mn.pg| && top <= |mn.ki|
      modifies `cursors
      ensures cursors == AllSplit(old(cursors), newRoot, top, mp, rp, newindx, inserts, nkeys, mn, parent, mine)
    {
      var i := 0;
      while i < |cursors|
        invariant i <= |cursors| == |old(cursors)|
        invariant forall j :: 0 <= j < i ==>
                    cursors[j] == AfterSplit(old(cursors)[j], newRoot, top, mp, rp, newindx, inserts, nkeys, mn, parent, mine)
        invariant forall j :: i <= j < |cursors| ==> cursors[j] == old(cursors)[j]
      {
        var c := cursors[i];
        if newRoot.Some? {
          c := Raised(c, mp, newRoot.value, nkeys);
        }
        c := Moved(c, top, mp, newindx, inserts);
        cursors := cursors[i := Resettled(c, top, mp, rp, nkeys, mn, parent, mine)];
        i := i + 1;
      }
    }

    /** The pointer to a page that was copied, in the page above it or in the database's record. */
    method PointTo(up: Option<(Pgno, nat)>, q: Pgno, ghost c: Ctx, ghost t: LTree, ghost m: Mem)
      requires Safe() && CtxHolds(m, c, t.p) && pages == m[q := Image(t)] && root == Some(Top(c, t.p))
      requires if c == [] then up == None
               else up == Some((c[|c| - 1].p, |c[|c| - 1].left|)) && c[|c| - 1].p in dirty && q != c[|c| - 1].p
      modifies `pages, `root, `depth
      ensures Safe() && pages == Touched(m, c, t, q) && root == Some(Top(c, q)) && depth == old(depth)
    {
      hide CtxHolds, Image, Safe;
      match up {
        case None =>
          SetRoot(Some(q), depth);
        case Some((above, i)) =>
          LastFrame(m, c, t.p);
          var par := pages[above];
          ghost var f := c[|c| - 1];
          assert par.kids[i := q] == Roots(f.left) + [q] + Roots(f.right);
          Write(above, BranchPg(par.keys, par.kids[i := q]));
      }
    }

    /** mdb_page_touch of a page that other snapshots may point to. */
    method CopyPage(top: nat, up: Option<(Pgno, nat)>, p: Pgno, ghost c: Ctx, ghost t: LTree) returns (got: Option<Pgno>)
      requires Safe() && Tied(c, t) && p == t.p && top == |c|
      requires if c == [] then up == None else up == Some((c[|c| - 1].p, |c[|c| - 1].left|)) && c[|c| - 1].p in dirty
      modifies `pages, `loose, `pool, `next, `dirty, `freed, `root, `depth, `cursors
      ensures Safe() && depth == old(depth)
      ensures got.Some? ==> Tied(c, At(t, got.value)) && dirty == old(dirty) + {got.value} && freed == old(freed) + [p]
      ensures got.Some? ==> cursors == AllRetouched(old(cursors), top, p, got.value)
      ensures got.None? ==> Exhausted() && dirty == old(dirty)
    {
      hide CtxHolds, CtxLabels, LabelsAll, Holds, HoldAll, Labels, FrameLabels, Accounted, Unique, FrameHolds, Image, Safe;
      hide AllRetouched, Plug, Exhausted;
      ghost var live, m := CtxLabels(c) + Labels(t), pages;
      HoldsParts(m, t);
      got := Alloc(live);
      if got.None? {
        return;
      }
      var q := got.value;
      CopyAccounted(c, t, q, freed, loose, pool, others, next);
      TouchKeeps(m, c, t, q);
      Free(p);
      Write(q, pages[p]);
      PointTo(up, q, c, t, m);
      FixTouched(top, p, q);
    }

    /** mdb_page_touch: the page to write to instead of p, which the page above points to then. */
    method PageTouch(top: nat, up: Option<(Pgno, nat)>, p: Pgno, ghost c: Ctx, ghost t: LTree) returns (ok: bool, q: Pgno)
      requires Safe() && Tied(c, t) && p == t.p && top == |c|
      requires if c == [] then up == None else up == Some((c[|c| - 1].p, |c[|c| - 1].left|)) && c[|c| - 1].p in dirty
      modifies `pages, `loose, `pool, `next, `dirty, `freed, `root, `depth, `cursors
      ensures Safe() && old(dirty) <= dirty && depth == old(depth)
      ensures ok ==> Tied(c, At(t, q)) && q in dirty
      ensures ok ==> AllKept(Plug(c, t), old(cursors), Plug(c, At(t, q)), cursors)
      ensures p in old(dirty) ==> ok && q == p && dirty == old(dirty) && freed == old(freed) && loose == old(loose) && pool == old(pool)
      ensures ok && p !in old(dirty) ==> freed == old(freed) + [p] && dirty == old(dirty) + {q}
      ensures !ok ==> Exhausted()
    {
      hide Safe, Accounted, Holds, CtxHolds, Labels, CtxLabels, AllKept, AllRetouched, Plug, Exhausted, Unique;
      if p in dirty {
        NoneMoved(Plug(c, t), cursors);
        return true, p;
      }
      AccountedOnce(CtxLabels(c) + Labels(t), freed, loose, pool, others, next);
      ghost var cs := cursors;
      var got := CopyPage(top, up, p, c, t);
      if got.None? {
        return false, p;
      }
      AllTouchedKeep(c, t, got.value, cs);
      ok, q := true, got.value;
    }

    /** Writing the page in the hole completes the tree; the pages above stay as they are. */
    lemma EndOnPage(c: Ctx, t: LTree, img: Page, h: nat)
      requires Ready(c, t) && img == Image(t) && CtxShape(c, h)
      ensures var m, u := pages[t.p := img], Plug(c, t);
              && Holds(m, u) && u.p == Top(c, t.p) && Labels(u) == CtxLabels(c) + Labels(t)
              && Finish(Up(e, c, Shrunk(One(Value(t)), false)), depth) == Some(Db(Some(Value(u)), depth))
    {
      hide CtxHolds, CtxLabels, LabelsAll, Holds, HoldAll, Labels, FrameLabels, Up, CtxShape, Value, Plug;
      AccountedOnce(CtxLabels(c) + Labels(t), freed, loose, pool, others, next);
      HoleOnce(c, t);
      WriteHole(pages, c, t);
      PlugHolds(pages[t.p := img], c, t);
      PlugLabels(c, t);
      PlugTop(c, t);
      UpDone(e, c, t, h);
    }

    // ---------------------------------------------------------------- split

    /** The two pages of a split, before the separator goes up. */
    method SplitPage(l: nat, big: Page, newindx: nat, ghost c: Ctx, ghost t: LTree, ghost h: nat)
      returns (res: Result, rp: Pgno, s: Key, nkeys: nat, ghost a: LTree, ghost b: LTree)
      requires Safe() && Ready(c, t) && l < |pg| && pg[l] == t.p && big == Image(t)
      requires CtxShape(c, h) && (t.LBranch? ==> |t.kids| == |t.keys| + 1) && newindx < ImageNodes(big)
      modifies `pages, `loose, `pool, `next, `dirty
      ensures Safe() && old(dirty) <= dirty && (res.MapFull? ==> Exhausted())
      ensures res.PageFull? ==> Finish(Up(e, c, Shrunk(SplitTree(e, Value(t), newindx), false)), depth) == None
      ensures res.Success? ==>
                && a.p == t.p && b.p == rp && nkeys == ImageNodes(Image(a))
                && CtxHolds(pages, c, a.p) && Holds(pages, a) && Holds(pages, b)
                && CtxLabels(c) + Labels(a) + Labels(b) == CtxLabels(c) + Labels(t) + multiset{rp}
                && Accounts(CtxLabels(c) + Labels(a) + Labels(b))
                && SplitTree(e, Value(t), newindx) == Two(Value(a), s, Value(b))
                && (t.LLeaf? ==> a.LLeaf? && b.LLeaf? && t.es == a.es + b.es)
    {
      hide CtxHolds, CtxLabels, LabelsAll, Holds, HoldAll, Labels, FrameLabels, Up, SplitTree, SplitImage, CtxShape, Image, Finish, Value, Safe, Accounted, Unique, LeftPart, RightPart, CutOf;
      rp, s, nkeys, a, b := 0, 0, 0, t, t;
      ImageIs(e, t);
      SplitFails(e, t, newindx);
      ImageKids(t);
      ghost var live := CtxLabels(c) + Labels(t);
      var right := Alloc(live);
      if right.None? {
        res := MapFull;
        return;
      }
      rp := right.value;
      var halves := SplitImage(e, big, newindx);
      if halves.None? {
        UpFull(e, c);
        FinishFull(depth);
        res := PageFull;
        return;
      }
      AccountedOnce(live + multiset{rp}, freed, loose, pool, others, next);
      s, nkeys := halves.value.sep, ImageNodes(halves.value.left);
      SplitWritten(e, pages, c, t, newindx, rp);
      a, b := LeftPart(t, CutOf(e, t, newindx)), RightPart(t, CutOf(e, t, newindx), rp);
      Write(pg[l], halves.value.left);
      Write(rp, halves.value.right);
      res := Success;
    }

    /**
     mdb_page_split of the page at level l, whose nodes would be those of `big`: t, if it had room.
     The page has a right sibling afterwards, and its parent, or a new root, points to that.
     */
    method PageSplit(l: nat, big: Page, newindx: nat, inserts: bool, ghost c: Ctx, ghost t: LTree, ghost h: nat)
      returns (res: Result, ghost t': LTree)
      requires Safe() && Ready(c, t) && OnStack(c) && l == |c| < |pg| && pg[l] == t.p && big == Image(t)
      requires CtxShape(c, h) && (t.LBranch? ==> |t.kids| == |t.keys| + 1) && newindx < ImageNodes(big)
      modifies `pages, `loose, `pool, `next, `dirty, `root, `depth, `cursors
      ensures Ended(res, Some(t'), Up(e, c, Shrunk(SplitTree(e, Value(t), newindx), false)), old(depth))
      ensures res.Success? && t.LLeaf? && AboveKept(e, c, SplitTree(e, Value(t), newindx)) ==>
                AllKept(Plug(c, t), AllMoved(old(cursors), l, t.p, newindx, inserts), t', cursors)
      decreases l, 0
    {
      hide CtxHolds, CtxLabels, LabelsAll, Holds, HoldAll, Labels, FrameLabels, Up, SplitTree, SplitImage, CtxShape, Image, Finish, Value, Safe, Accounted, Unique;
      hide AllKept, AllMoved, Plug, Grow, NoRoom, AboveKept;
      t' := t;
      ImageIs(e, t);
      var rp, s, nkeys;
      ghost var a, b;
      res, rp, s, nkeys, a, b := SplitPage(l, big, newindx, c, t, h);
      if !res.Success? {
        return;
      }
      AccountedOnce(CtxLabels(c) + Labels(t) + multiset{rp}, freed, loose, pool, others, next);
      Fewer(CtxLabels(c) + Labels(t), multiset{rp});
      if l == 0 {
        AtRoot(e, Labels(a), Shrunk(SplitTree(e, Value(t), newindx), false));
        assert CtxLabels(c) + Labels(a) + Labels(b) == Labels(a) + Labels(b);
        var pp;
        res, pp, t' := NewRoot(s, rp, a, b);
        if res.Success? {
          TopLabel(a);
          SettleAtRoot(pp, pg[0], rp, newindx, inserts, nkeys, t, a, b, t');
        }
      } else {
        var above;
        res, above, t' := AddToParent(l - 1, s, rp, c, a, b, h);
        FrameLens(c, h);
        if res.Success? && !above {
          Settle(l, rp, newindx, inserts, nkeys, c, t, a, s, b);
        } else if res.Success? {
          NotAboveKept(e, c, a, s, b);
        }
      }
    }

    /** The other cursors after a split of the root page mp, below the new root pp. */
    method SettleAtRoot(pp: Pgno, mp: Pgno, rp: Pgno, newindx: nat, inserts: bool, nkeys: nat,
                        ghost t: LTree, ghost a: LTree, ghost b: LTree, ghost t': LTree)
      requires mp == t.p == a.p && rp == b.p && t'.p == pp != mp && nkeys == ImageNodes(Image(a))
      requires t'.LBranch? && t'.kids == [a, b] && (t.LLeaf? ==> a.LLeaf? && b.LLeaf? && t.es == a.es + b.es)
      modifies `cursors
      ensures t.LLeaf? ==> AllKept(Plug([], t), AllMoved(old(cursors), 0, t.p, newindx, inserts), t', cursors)
    {
      hide AllKept, AllMoved, AllSplit;
      var side := if newindx >= nkeys then 1 else 0;  // where the new node is
      FixSplit(Some(pp), 1, mp, rp, newindx, inserts, nkeys, Cursor([pp], [1]), pp, side);
      if t.LLeaf? {
        AllRootSplitKeep(t, a, b, t', newindx, inserts, old(cursors), side);
      }
    }

    /** The other cursors after a split of the page at level l whose parent had room. */
    method Settle(l: nat, rp: Pgno, newindx: nat, inserts: bool, nkeys: nat,
                  ghost c: Ctx, ghost t: LTree, ghost a: LTree, ghost s: Key, ghost b: LTree)
      requires 0 < l == |c| < |pg| && pg[l] == t.p == a.p && rp == b.p && Follows(pg, ki, c) && nkeys == ImageNodes(Image(a))
      requires var f := c[l - 1]; |f.left| <= |f.keys|
      requires t.LLeaf? ==> a.LLeaf? && b.LLeaf? && t.es == a.es + b.es && Unique(CtxLabels(c) + Labels(t))
      modifies `cursors
      ensures t.LLeaf? ==> AllKept(Plug(c, t), AllMoved(old(cursors), l, t.p, newindx, inserts),
                                   Plug(c[..l - 1], Grow(c[l - 1], a, s, b)), cursors)
    {
      hide AllKept, AllMoved, AllSplit, Unique, Plug, Grow, Labels, CtxLabels, RightOf;
      var mn := Cursor(pg[..l], ki[..l - 1] + [ki[l - 1] + 1]);
      var mine := if newindx >= nkeys then ki[l - 1] + 1 else ki[l - 1];
      FixSplit(None, l, pg[l], rp, newindx, inserts, nkeys, mn, pg[l - 1], mine);
      RightPath(pg, ki, c);
      if t.LLeaf? {
        AllSplitKeep(c, t, a, s, b, newindx, inserts, old(cursors), mn, mine);
      }
    }

    /** A new root page above a and b, the halves of the old one. */
    method NewRoot(s: Key, rp: Pgno, ghost a: LTree, ghost b: LTree) returns (res: Result, pp: Pgno, ghost t': LTree)
      requires Safe() && Holds(pages, a) && Holds(pages, b) && rp == b.p && root == Some(a.p)
      requires Accounts(Labels(a) + Labels(b))
      modifies `pages, `loose, `pool, `next, `dirty, `root, `depth
      ensures Ended(res, Some(t'), Shrunk(Two(Value(a), s, Value(b)), false), old(depth))
      ensures res.Success? ==> t' == LBranch(pp, [s], [a, b]) && pp !in Labels(a)
    {
      hide LabelsAll, Holds, HoldAll, Labels, Image, Safe, Accounted, Value;
      ghost var live := Labels(a) + Labels(b);
      var top := Alloc(live);
      if top.None? {
        return MapFull, 0, a;
      }
      pp := top.value;
      t' := LBranch(pp, [s], [a, b]);
      EndAtRoot(t', a, s, b, depth);
      HoldsSame(pages, pages[pp := Image(t')], a);
      HoldsSame(pages, pages[pp := Image(t')], b);
      Write(pp, BranchPg([s], [root.value, rp]));
      HoldsIf(pages, t');
      SetRoot(Some(pp), depth + 1);
      res := Success;
      assert Accounts(Labels(t')) by { assert Labels(t') == live + multiset{pp}; }
    }

    /** The page at level l, on top of c, gets a separator and a pointer to page rp. */
    method AddToParent(l: nat, s: Key, rp: Pgno, ghost c: Ctx, ghost a: LTree, ghost b: LTree, ghost h: nat)
      returns (res: Result, split: bool, ghost t': LTree)
      requires Safe() && OnStack(c) && l + 1 == |c| && CtxShape(c, h) && rp == b.p
      requires CtxHolds(pages, c, a.p) && Holds(pages, a) && Holds(pages, b)
      requires Accounts(CtxLabels(c) + Labels(a) + Labels(b)) && root == Some(Top(c, a.p))
      modifies `pages, `loose, `pool, `next, `dirty, `root, `depth, `cursors
      ensures Ended(res, Some(t'), Up(e, c, Shrunk(Two(Value(a), s, Value(b)), false)), old(depth))
      ensures split == NoRoom(e, c[l].keys, s)
      ensures !split ==> t' == Plug(c[..l], Grow(c[l], a, s, b)) && cursors == old(cursors)
      decreases l, 1
    {
      hide CtxHolds, CtxLabels, LabelsAll, Holds, HoldAll, Labels, FrameLabels, Up, SplitTree, CtxShape, Image, UpOne, Sum, KeySizes, Finish, Value;
      ghost var c0, f := c[..l], c[l];
      assert c == c0 + [f];
      ShapeLast(c0, f, h);
      ghost var t := Grow(f, a, s, b);
      ParentGrown(pages, c0, f, a, s, b);
      GrowUp(e, f, a, s, b);
      UpLast(e, c0, f, Shrunk(Two(Value(a), s, Value(b)), false));
      var above, i := pg[l], ki[l];
      var par := pages[above];
      var grown := WithKid(par, i, s, rp);
      split := NoRoom(e, par.keys, s);
      if split {
        ImageIs(e, t);
        res, t' := PageSplit(l, grown, i + 1, true, c0, t, h + 1);
      } else {
        EndOnPage(c0, t, grown, h + 1);
        Write(above, grown);
        t' := Plug(c0, t);
        res := Success;
      }
    }

    // ---------------------------------------------------------------- search and touch

    /** The stack holds the path c and, on top, the page of t. */
    ghost predicate Stacked(c: Ctx, t: LTree, k: Key)
      reads `pg, `ki
    {
      && |pg| == |ki| == |c| + 1 && pg[|c|] == t.p && t.LLeaf? && ki[|c|] == LeafPos(t.es, k)
      && Follows(pg, ki, c)
    }

    lemma Parts()
      requires Valid() && tree.Some?
      ensures Safe() && root == Some(tree.value.p) && Holds(pages, tree.value)
      ensures DbOk(e, Db(Some(Value(tree.value)), depth))
    {
    }

    lemma SearchEnd(c: Ctx, t: LTree)
      requires Valid() && tree == Some(Plug(c, t))
      ensures Tied(c, t)
    {
      PlugHolds(pages, c, t);
      PlugLabels(c, t);
      PlugTop(c, t);
    }

    /** mdb_cursor_set without a position to start from: down from the root to a leaf. */
    method Search(k: Key) returns (ghost c: Ctx, ghost t: LTree)
      requires Valid() && tree.Some?
      modifies `pg, `ki
      ensures Valid() && Stacked(c, t, k) && Tied(c, t) && Plug(c, t) == tree.value
      ensures Leads(c, k) && CtxShape(c, 0) && SortedEntries(t.es)
    {
      hide Sound, CtxShape, Leads, KidPos, LeafPos, Holds, HoldAll, CtxHolds, DbOk, Valid, Tied, Plug, Follows, Searching;
      Parts();
      c, t := [], tree.value;
      ghost var h := SearchStart(e, pages, t, k, depth);
      var p := root.value;
      pg, ki := [p], [];
      SearchBegins(e, pages, t, k, h);
      while pages[p].BranchPg?
        invariant p == t.p && p in pages && Searching(e, pages, tree.value, k, pg, ki, c, t, h)
        decreases h
      {
        SearchGoesOn(e, pages, tree.value, k, pg, ki, c, t, h);
        var i := KidPos(pages[p].keys, k);
        c, t, h := c + [Toward(t, k)], t.kids[i], h - 1;
        ki := ki + [i];
        p := pages[p].kids[i];
        pg := pg + [p];
      }
      SearchIsOver(e, pages, tree.value, k, pg, ki, c, t, h);
      ki := ki + [LeafPos(pages[p].es, k)];
      SearchEnd(c, t);
    }

    lemma FromTop(c: Ctx, t: LTree)
      requires Tied(c, t)
      ensures Tied([], Plug(c, t))
    {
      PlugHolds(pages, c, t);
      PlugLabels(c, t);
      PlugTop(c, t);
      NoCtx(pages, Plug(c, t).p);
    }

    lemma StepDown(c: Ctx, f: Frame, t: LTree)
      requires Tied(c, Fill(f, t))
      ensures Tied(c + [f], t)
    {
      Descend(pages, c, f, t);
    }

    /** mdb_cursor_touch: every page of the path, from the root down. */
    method TouchPath(ghost c: Ctx, ghost t: LTree, k: Key) returns (ok: bool, ghost c': Ctx, ghost t': LTree)
      requires Safe() && Stacked(c, t, k) && Tied(c, t)
      modifies `pages, `loose, `pool, `next, `dirty, `freed, `root, `depth, `pg, `cursors
      ensures Safe() && depth == old(depth)
      ensures ok ==> SamePath(c, c') && t' == At(t, t'.p) && t'.p in dirty
      ensures ok ==> Tied(c', t') && OnStack(c') && Stacked(c', t', k)
      ensures ok ==> AllKept(Plug(c, t), old(cursors), Plug(c', t'), cursors)
      ensures !ok ==> Exhausted()
    {
      hide Safe, Tied, Plug, SamePath, Follows, LeafPos, AllKept;
      FromTop(c, t);
      PathStart(pg, ki, c);
      PlugNone(Plug(c, t));
      NoneMoved(Plug(c, t), cursors);
      assert c[0..] == c;
      ghost var d: Ctx := [];
      var l := 0;
      while l + 1 < |pg|
        invariant 0 <= l <= |c| && |pg| == |ki| == |c| + 1 && pg[|c|] == t.p
        invariant |d| == l && SamePath(c[..l], d) && Follows(pg, ki, d + c[l..])
        invariant forall i :: 0 <= i < l ==> d[i].p in dirty
        invariant Safe() && Tied(d, Plug(c[l..], t)) && depth == old(depth)
        invariant AllKept(Plug(c, t), old(cursors), Plug(d, Plug(c[l..], t)), cursors)
      {
        ghost var cs := cursors;
        PlugFrom(c, l, t);
        var q;
        ghost var below := Plug(c[l + 1..], t);
        PathMoved(pg, ki, c, d, 0);
        ok, q := PageTouch(l, if l == 0 then None else Some((pg[l - 1], ki[l - 1])), pg[l], d, Fill(c[l], below));
        if !ok {
          return false, c, t;
        }
        PathMoved(pg, ki, c, d, q);
        ghost var f := Frame(q, c[l].keys, c[l].left, c[l].right);
        StepDown(d, f, below);
        PlugLast(d, f, below);
        KeptThenKept(Plug(c, t), old(cursors), Plug(d, Fill(c[l], below)), cs, Plug(d, Fill(f, below)), cursors);
        pg := pg[l := q];
        d := d + [f];
        l := l + 1;
      }
      assert c[l..] == [];
      PathEnd(pg, ki, c, d, 0);
      PlugNone(t);
      ghost var cs := cursors;
      var q;
      ok, q := PageTouch(l, if l == 0 then None else Some((pg[l - 1], ki[l - 1])), pg[l], d, t);
      PathEnd(pg, ki, c, d, q);
      if ok {
        KeptThenKept(Plug(c, t), old(cursors), Plug(d, t), cs, Plug(d, At(t, q)), cursors);
      }
      pg := pg[l := q];
      c', t' := d, At(t, q);
    }

    /** mdb_cursor_open and mdb_cursor_get with MDB_SET: one more cursor to keep track of. */
    method Track(k: Key) returns (found: bool)
      requires Valid()
      modifies `pg, `ki, `cursors
      ensures Valid() && Database() == old(Database()) && found == (k in Contents(Database()))
      ensures |cursors| == |old(cursors)| + 1 && cursors[..|old(cursors)|] == old(cursors)
      ensures found ==> EntryAt(cursors[|old(cursors)|]).Some? && EntryAt(cursors[|old(cursors)|]).value.key == k
    {
      hide Safe, Installed, DbOk, Contents, Value, Leads, Lookup, LeafPos, Follows, CtxShape, Current, EntryOf, SortedEntries;
      GetIsLookup(e, Database(), k);
      NoTree();
      var c := Cursor([], []);
      found := false;
      if root.Some? {
        ghost var path, t := Search(k);
        LookupIsBelow(path, t, k);
        LookupLeaf(t.es, k);
        TiedLeaf(path, t);
        Parts();
        var l := |pg| - 1;
        found := FoundAt(pages[pg[l]].es, ki[l], k);
        if found {
          c := Cursor(pg, ki);
          Enter(path, t, c);
          LeafEntry(t, From(c, l));
          CurrentIs(pages, tree.value, c);
        }
      }
      cursors := cursors + [c];
    }

    // ---------------------------------------------------------------- put

    /** The rest of mdb_cursor_put, with the cursor where the key belongs. */
    method PutOnLeaf(k: Key, v: Val, inPlace: bool, ghost c: Ctx, ghost t: LTree) returns (res: Result, ghost t': LTree)
      requires Safe() && Stacked(c, t, k) && Tied(c, t) && OnStack(c) && t.p in dirty && CtxShape(c, 0)
      modifies `pages, `loose, `pool, `next, `dirty, `root, `depth, `cursors
      ensures Ended(res, Some(t'), Up(e, c, Shrunk(PutLeaf(e, t.es, k, v, inPlace), false)), old(depth))
      ensures res.Success? && SortedEntries(t.es) && AboveKept(e, c, PutLeaf(e, t.es, k, v, inPlace)) ==>
                AllSame(Plug(c, t), old(cursors), k, t', cursors)
    {
      hide Safe, CtxHolds, CtxLabels, LabelsAll, Labels, Accounted, Up, CtxShape, PutLeaf, SplitTree, Finish, PutChange, LeafPos, HoldAll, SortedEntries;
      hide AllSame, AllKept, AllMoved, AboveKept, Plug, Unique;
      var l := |pg| - 1;
      HoldsParts(pages, t);
      var ch := PutChange(e, pages[pg[l]].es, ki[l], k, v, inPlace);
      PutChangeIs(e, t.es, k, v, inPlace);
      ghost var u := LLeaf(t.p, ch.es);
      LeafAt(pages, t, ch.es);
      var inserts := !FoundAt(pages[pg[l]].es, ki[l], k);
      if SortedEntries(t.es) {
        AccountedOnce(CtxLabels(c) + Labels(t), freed, loose, pool, others, next);
        AllMovedKeep(e, c, t, k, v, inPlace, cursors);
      }
      match ch {
        case Fits(es) =>
          EndOnPage(c, u, LeafPg(es), 0);
          Write(pg[l], LeafPg(es));
          FixMoved(l, pg[l], ki[l], inserts);
          res, t' := Success, Plug(c, u);
        case Over(es, i) =>
          LeafSplits(e, u, i);
          ghost var cs := AllMoved(cursors, l, t.p, i, inserts);
          res, t' := PageSplit(l, LeafPg(es), i, inserts, c, u, 0);
          if res.Success? && SortedEntries(t.es) && AboveKept(e, c, PutLeaf(e, t.es, k, v, inPlace)) {
            SameThenKept(Plug(c, t), old(cursors), k, Plug(c, u), cs, t', cursors);
          }
      }
    }

    lemma LeafSplits(e: Env, u: LTree, i: nat)
      requires u.LLeaf? && i < |u.es|
      ensures SplitTree(e, Value(u), i) == SplitLeaf(e, u.es, i)
    {
    }

    /** The first key of an empty database: a new leaf page is its root. */
    method FirstPage(k: Key, v: Val) returns (res: Result, ghost t': LTree)
      requires Safe() && Installed(None) && depth == 0
      modifies `pages, `loose, `pool, `next, `dirty, `root, `depth
      ensures Safe()
      ensures res.Success? ==> Installed(Some(t')) && t' == LLeaf(t'.p, [NewEntry(e, k, v)]) && depth == 1
      ensures res.MapFull? ==> Exhausted()
      ensures res != PageFull
    {
      hide Safe, Accounted, NewEntry;
      t' := LLeaf(0, []);
      var got := Alloc(multiset{});
      if got.None? {
        return MapFull, t';
      }
      var p := got.value;
      t' := LLeaf(p, [NewEntry(e, k, v)]);
      Write(p, LeafPg([NewEntry(e, k, v)]));
      SetRoot(Some(p), 1);
      res := Success;
      assert multiset{} + multiset{p} == Labels(t');
    }

    /** mdb_cursor_put in a database that has a root page. */
    method PutInTree(k: Key, v: Val, inPlace: bool) returns (res: Result, ghost t': LTree)
      requires Valid() && tree.Some?
      modifies `pages, `loose, `pool, `next, `dirty, `freed, `root, `depth, `cursors, `pg, `ki
      ensures Ended(res, Some(t'), Shrunk(PutTree(e, Value(tree.value), k, v, inPlace), false), old(depth))
      ensures res.Success? && ParentKept(e, Value(tree.value), k, v, inPlace) ==>
                AllSame(tree.value, old(cursors), k, t', cursors)
    {
      hide Safe, Installed, Tied, OnStack, Stacked, DbOk, PutTree, Finish, Up, Value, CtxShape, Leads, AllKept, AllSame, Plug;
      hide ParentKept, AboveKept, SortedEntries;
      ghost var c0, t0 := Search(k);
      assert Safe() by { Parts(); }
      var ok;
      ghost var c, t;
      ok, c, t := TouchPath(c0, t0, k);
      if !ok {
        return MapFull, t0;
      }
      SamePathKeeps(c0, c, k, 0);
      AtValue(t0, t);
      SameValue(c0, c, t0, t);
      StackedLeaf(c, t, k);
      AtLeaf(t0, t);
      ghost var cs := cursors;
      res, t' := PutOnLeaf(k, v, inPlace, c, t);
      PutIsUp(e, c, t, k, v, inPlace);
      ParentKeptIs(e, c, t, k, v, inPlace);
      if res.Success? && ParentKept(e, Value(tree.value), k, v, inPlace) {
        KeptThenSame(tree.value, old(cursors), Plug(c, t), cs, k, t', cursors);
      }
    }

    lemma InstalledParts(t: LTree)
      requires Installed(Some(t))
      ensures root == Some(t.p) && Holds(pages, t)
    {
    }

    lemma AtLeaf(t: LTree, t': LTree)
      requires t' == At(t, t'.p) && t.LLeaf?
      ensures t'.LLeaf? && t'.es == t.es
    {
    }

    /**
     mdb_put without flags. The database becomes the one that BTree.Put makes of it, so that its
     contents are the old ones with k set to v. An operation that fails leaves the transaction
     unusable; in either case no page of another snapshot has changed. If the leaf's parent need not
     be split, every other cursor on an entry is on the same one afterwards, by a path of pages from
     the root, or on the new entry if it was on the key that is replaced.
     */
    method Put(k: Key, v: Val, inPlace: bool) returns (res: Result)
      requires Valid()
      modifies this
      ensures Safe() && error == !res.Success?
      ensures res.Success? ==> Valid() && Some(Database()) == BTree.Put(e, old(Database()), k, v, inPlace)
      ensures res.Success? ==> Contents(Database()) == old(Contents(Database()))[k := v]
      ensures res.PageFull? ==> BTree.Put(e, old(Database()), k, v, inPlace) == None
      ensures res.MapFull? ==> Exhausted()
      ensures res.Success? && (old(root).None? || ParentKept(e, old(Database()).root.value, k, v, inPlace)) ==>
                && |cursors| == |old(cursors)|
                && forall j :: 0 <= j < |cursors| && old(EntryAt(cursors[j])).Some? ==>
                     Same(old(EntryAt(cursors[j])).value, k, EntryAt(cursors[j]))
    {
      hide Safe, Installed, DbOk, PutTree, Finish, BTree.Put, Contents, Value, AllSame, ParentKept, Current, Holds, Same;
      ghost var db := Database();
      PutRefinesUpdate(e, db, k, v, inPlace);
      ghost var t';
      if root.None? {
        assert tree.None? && depth == 0 by { NoTree(); }
        res, t' := FirstPage(k, v);
        if res.Success? {
          PutFirst(e, t', k, v, inPlace);
        }
      } else {
        assert tree.Some? by { NoTree(); }
        ghost var t, cs, m := tree.value, cursors, pages;
        Parts();
        res, t' := PutInTree(k, v, inPlace);
        PutAtRoot(e, t, db.depth, k, v, inPlace);
        if res.Success? && ParentKept(e, db.root.value, k, v, inPlace) {
          InstalledParts(t');
          AllSameRead(m, t, cs, k, pages, t', cursors);
        }
      }
      tree := Some(t');
      error := !res.Success?;
    }

    lemma NoTree()
      requires Valid()
      ensures tree.None? <==> root.None?
      ensures if tree.None? then depth == 0 && Installed(None) else depth > 0
    {
    }

    lemma StackedLeaf(c: Ctx, t: LTree, k: Key)
      requires Stacked(c, t, k)
      ensures t.LLeaf?
    {
    }

    // ---------------------------------------------------------------- rebalance

    lemma StepUp(c: Ctx, f: Frame, t: LTree)
      requires Tied(c + [f], t)
      ensures Tied(c, Fill(f, t))
    {
      Descend(pages, c, f, t);
    }

    /** mdb_page_search_lowest: the first key below page p. */
    method LowestKey(p: Pgno, ghost t: LTree) returns (k: Key)
      requires Holds(pages, t) && p == t.p
      ensures k == Lowest(Value(t))
    {
      var q := p;
      ghost var u := t;
      while pages[q].BranchPg? && pages[q].kids != []
        invariant Holds(pages, u) && q == u.p && Lowest(Value(u)) == Lowest(Value(t))
        decreases u
      {
        assert u.LBranch? && Holds(pages, u.kids[0]);
        u := u.kids[0];
        q := pages[q].kids[0];
      }
      // an empty page has no key to return; there is none below a sound page
      k := if pages[q].BranchPg? || pages[q].es == [] then 0 else pages[q].es[0].key;
    }

    /** mdb_update_key of separator lp on the page at level l, which may split it. */
    method UpdateKeyOnPage(l: nat, lp: nat, s: Key, ghost c: Ctx, ghost keys: seq<Key>, ghost u: LTree, ghost h: nat)
      returns (res: Result, ghost t': LTree)
      requires Safe() && OnStack(c) && l == |c| < |pg| && pg[l] == u.p && Ready(c, u) && CtxShape(c, h)
      requires u.p in pages && pages[u.p].BranchPg? && pages[u.p].keys == keys && lp < |keys|
      requires Image(u) == BranchPg(keys[lp := s], pages[u.p].kids) && u.LBranch? && |u.kids| == |u.keys| + 1
      modifies `pages, `loose, `pool, `next, `dirty, `root, `depth, `cursors
      ensures Ended(res, Some(t'), Up(e, c, Shrunk(if KeyFits(e, keys, lp, s) then One(Value(u)) else SplitTree(e, Value(u), lp + 1), false)),
                    old(depth))
    {
      hide Safe, CtxHolds, CtxLabels, LabelsAll, Labels, Accounted, Up, CtxShape, Finish, Holds, HoldAll, Value, SplitTree, KeyFits, Unique, Image;
      ImageKids(u);
      var par := pages[pg[l]];
      var g := BranchPg(par.keys[lp := s], par.kids);
      if KeyFits(e, par.keys, lp, s) {
        EndOnPage(c, u, g, h);
        Write(pg[l], g);
        res, t' := Success, Plug(c, u);
      } else {
        res, t' := PageSplit(l, g, lp + 1, false, c, u, h);
      }
    }

    /** mdb_node_move between children lp and lp + 1 of the page at level l, on top of c. */
    method NodeMove(l: nat, lp: nat, fromLeft: bool, ghost c: Ctx, ghost f: Frame, ghost a: LTree, ghost b: LTree, ghost h: nat)
      returns (res: Result, ghost t': LTree)
      requires Safe() && OnStack(c) && l == |c| < |pg| && pg[l] == f.p && f.p in dirty && a.p in dirty && b.p in dirty
      requires Tied(c, Join(f, a, b)) && CtxShape(c, h + 1) && PairShape(f, h) && Shape(a, h) && Shape(b, h)
      requires lp == |f.left| && Alike(Value(a), Value(b)) && NumKeys(Value(if fromLeft then a else b)) >= 2
      modifies `pages, `loose, `pool, `next, `dirty, `root, `depth, `cursors
      ensures Ended(res, Some(t'), Up(e, c, MoveResult(e, f, Value(a), Value(b), fromLeft)), old(depth))
    {
      hide Safe, CtxHolds, CtxLabels, LabelsAll, Labels, Accounted, Up, CtxShape, ShapeAll, Shape, Finish, Holds, HoldAll;
      hide NewLeft, NewRight, Movable, Value, Lowest, MoveLeft, MoveRight, MovedLeft, MovedRight, UpdateKey, SplitTree, KeyFits, PairValues, Unique, Image;
      t' := a;
      JoinHolds(pages, f, a, b);
      HoldsParts(pages, a);
      HoldsParts(pages, b);
      MoveParts(e, a, b, h, fromLeft);
      MoveHolds(a, b, fromLeft);
      ghost var x, y := NewLeft(a, b, fromLeft), NewRight(a, b, fromLeft);
      var par := pages[pg[l]];
      var ap, bp := par.kids[lp], par.kids[lp + 1];
      var low := LowestKey(bp, b);
      var halves := if fromLeft then MoveRight(e, pages[ap], pages[bp], low) else MoveLeft(e, pages[ap], pages[bp], low);
      if halves.None? {
        UpFull(e, c);
        FinishFull(depth);
        return PageFull, t';
      }
      var s := halves.value.sep;
      AccountedOnce(CtxLabels(c) + Labels(Join(f, a, b)), freed, loose, pool, others, next);
      ghost var keys := f.keys[lp := s];
      ghost var u := Join(Frame(f.p, keys, f.left, f.right), x, y);
      PairWritten(pages, c, f, a, b, x, y, keys);
      ImageKids(u);
      UpdateKeyIs(e, f, x, y, s);
      Write(ap, halves.value.left);
      Write(bp, halves.value.right);
      res, t' := UpdateKeyOnPage(l, lp, s, c, f.keys, u, h + 1);
    }

    /** The pages of a merge: all nodes go to the left page, the right one is given up, its node is deleted. */
    method JoinPages(l: nat, lp: nat, merged: Page, ghost c: Ctx, ghost f: Frame, ghost a: LTree, ghost b: LTree, ghost h: nat)
      requires Safe() && OnStack(c) && l == |c| < |pg| && pg[l] == f.p && f.p in dirty && a.p in dirty
      requires Tied(c, Join(f, a, b)) && PairShape(f, h) && Shape(a, h) && Shape(b, h)
      requires lp == |f.left| && Alike(Value(a), Value(b)) && merged == Image(MergeL(a, b))
      modifies `pages, `loose, `freed
      ensures Safe() && Tied(c, Joined(f, MergeL(a, b)))
      ensures b.p in dirty ==> loose == [b.p] + old(loose) && freed == old(freed)
      ensures b.p !in dirty ==> freed == old(freed) + [b.p] && loose == old(loose)
    {
      hide Safe, CtxHolds, CtxLabels, LabelsAll, Labels, Accounted, ShapeAll, Shape, Holds, HoldAll;
      hide Value, Lowest, MergeL, Unique, Image;
      JoinHolds(pages, f, a, b);
      HoldsParts(pages, a);
      HoldsParts(pages, b);
      MergeIs(a, b, h);
      var ap, bp := pages[pg[l]].kids[lp], pages[pg[l]].kids[lp + 1];
      AccountedOnce(CtxLabels(c) + Labels(Join(f, a, b)), freed, loose, pool, others, next);
      ghost var u := Joined(f, MergeL(a, b));
      MergeWritten(pages, c, f, a, b, MergeL(a, b));
      Write(ap, merged);
      Loosen(bp, CtxLabels(c) + Labels(u));
      HoleIsFree(c, u);
      WriteHole(pages, c, u);
      Write(pg[l], WithoutNode(pages[pg[l]], lp));
    }

    /** mdb_page_merge of child lp + 1 of the page at level l into child lp. */
    method PageMerge(l: nat, lp: nat, ghost c: Ctx, ghost f: Frame, ghost a: LTree, ghost b: LTree, ghost h: nat)
      returns (res: Result, ghost t': Option<LTree>)
      requires Safe() && OnStack(c) && l == |c| < |pg| && pg[l] == f.p && f.p in dirty && a.p in dirty && depth > 0
      requires Tied(c, Join(f, a, b)) && CtxShape(c, h + 1) && PairShape(f, h) && Shape(a, h) && Shape(b, h)
      requires lp == |f.left| && Alike(Value(a), Value(b))
      modifies `pages, `loose, `pool, `next, `dirty, `freed, `root, `depth, `cursors
      ensures Ended(res, t', Up(e, c, MergeResult(e, f, Value(a), Value(b))), old(depth))
      decreases l, 1
    {
      hide Safe, CtxHolds, CtxLabels, LabelsAll, Labels, Accounted, Up, CtxShape, ShapeAll, Shape, Finish, Holds, HoldAll;
      hide Value, Lowest, MergeL, MergeImage, Merged, WithoutKid, PairValues, Unique, Image, Sum, KeySizes, LeafSizes;
      t' := None;
      JoinHolds(pages, f, a, b);
      HoldsParts(pages, a);
      HoldsParts(pages, b);
      MergeIs(a, b, h);
      ghost var t := MergeL(a, b);
      var par := pages[pg[l]];
      var ap, bp := par.kids[lp], par.kids[lp + 1];
      var low := LowestKey(bp, b);
      ImageIs(e, a);
      ImageIs(e, b);
      ImageIs(e, t);
      var merged := MergeImage(pages[ap], pages[bp], low);
      if ImageUsed(e, merged) > PageMax(e) {
        UpFull(e, c);
        FinishFull(depth);
        return PageFull, t';
      }
      JoinedValue(e, f, Value(a), Value(b), t);
      JoinedShape(f, t, h);
      JoinPages(l, lp, merged, c, f, a, b, h);
      res, t' := Rebalance(l, c, Joined(f, t), h + 1);
    }

    lemma HoleIsFree(c: Ctx, t: LTree)
      requires Accounts(CtxLabels(c) + Labels(t))
      ensures t.p !in CtxLabels(c) && t.p !in KidLabelsOf(t)
    {
      AccountedOnce(CtxLabels(c) + Labels(t), freed, loose, pool, others, next);
      HoleOnce(c, t);
    }

    /** mdb_rebalance of the page at level l, which lost a node: t in the context c. */
    method Rebalance(l: nat, ghost c: Ctx, ghost t: LTree, ghost h: nat) returns (res: Result, ghost t': Option<LTree>)
      requires Safe() && OnStack(c) && l == |c| < |pg| && pg[l] == t.p && t.p in dirty && depth > 0
      requires Tied(c, t) && CtxShape(c, h) && Shape(t, h)
      modifies `pages, `loose, `pool, `next, `dirty, `freed, `root, `depth, `cursors
      ensures Ended(res, t', Up(e, c, Shrunk(One(Value(t)), true)), old(depth))
      decreases l, 0
    {
      hide Safe, CtxHolds, CtxLabels, LabelsAll, Labels, Accounted, Up, CtxShape, Shape, Finish, Holds, HoldAll;
      hide Value, Unique, Image, Shell, NeedsNoRebalance, CanSpareNode, Plug, Follows;
      HoldsParts(pages, t);
      ShellIs(e, t);
      if NeedsNoRebalance(e, Shell(pages[pg[l]])) {
        NothingToDo(e, c, t, h, depth);
        Whole(c, t);
        return Success, Some(Plug(c, t));
      }
      if l == 0 {
        res, t' := ShrinkRootPage(t);
      } else {
        res, t' := RebalanceBelow(l - 1, c, t, h);
      }
    }

    lemma Whole(c: Ctx, t: LTree)
      requires Tied(c, t)
      ensures Installed(Some(Plug(c, t)))
    {
      PlugHolds(pages, c, t);
      PlugLabels(c, t);
      PlugTop(c, t);
    }

    /** mdb_rebalance of a root page: an empty one goes, and one with a single child gives way to it. */
    method ShrinkRootPage(ghost t: LTree) returns (res: Result, ghost t': Option<LTree>)
      requires Safe() && Tied([], t) && 0 < |pg| && pg[0] == t.p && depth > 0
      modifies `freed, `root, `depth
      ensures Ended(res, t', Up(e, [], Shrunk(One(Value(t)), true)), old(depth))
      ensures freed == if t' == Some(t) then old(freed) else old(freed) + [pg[0]]
    {
      hide Safe, Accounted, Up, Finish, Value, Labels, LabelsAll, Holds, HoldAll, CtxHolds, CtxLabels, Image, ImageSizes, NodeSizes, NumKeys;
      RootShrinks(e, t, depth);
      HoldsParts(pages, t);
      ImageKids(t);
      ImageIs(e, t);
      AtRoot(e, Labels(t), Shrunk(One(Value(t)), true));
      var g := pages[pg[0]];
      res := Success;
      if ImageNodes(g) == 0 {
        EmptyRoot(t);
        assert multiset{} + multiset{t.p} == Labels(t);
        PutAway(multiset{}, t.p, freed, loose, pool, others, next);
        Free(pg[0]);
        SetRoot(None, 0);
        t' := None;
      } else if g.BranchPg? && ImageNodes(g) == 1 {
        OnlyChild(pages, t);
        PutAway(Labels(t.kids[0]), t.p, freed, loose, pool, others, next);
        Free(pg[0]);
        SetRoot(Some(g.kids[0]), depth - 1);
        t' := Some(t.kids[0]);
      } else {
        t' := Some(t);
      }
    }

    /** mdb_rebalance of a page other than the root, below the page at level l. */
    method RebalanceBelow(l: nat, ghost c: Ctx, ghost t: LTree, ghost h: nat) returns (res: Result, ghost t': Option<LTree>)
      requires Safe() && OnStack(c) && l + 1 == |c| < |pg| && t.p in dirty && depth > 0
      requires Tied(c, t) && CtxShape(c, h) && Shape(t, h) && !NeedsNoRebalance(e, Value(t))
      modifies `pages, `loose, `pool, `next, `dirty, `freed, `root, `depth, `cursors
      ensures Ended(res, t', Up(e, c, Shrunk(One(Value(t)), true)), old(depth))
      decreases l, 2
    {
      hide Safe, CtxHolds, CtxLabels, LabelsAll, Labels, Accounted, Up, CtxShape, Shape, ShapeAll, Finish, Holds, HoldAll;
      hide PairFrame, LeftOfPair, RightOfPair, Value, Unique, Image, Shell, NeedsNoRebalance, CanSpareNode, Plug, BTreeDelete.Rebalance, Children, MoveResult, MergeResult, Alike, NumKeys, Tied;
      ghost var c0, f := c[..l], c[l];
      assert c == c0 + [f];
      ShapeLast(c0, f, h);
      RebalanceUp(e, c0, f, t, h);
      StepUp(c0, f, t);
      ChooseNeighbour(f, t, h);
      ghost var pair, a, b := PairFrame(f), LeftOfPair(f, t), RightOfPair(f, t);
      MergeIs(a, b, h);
      ValuesOf(f, t, pair, a, b);
      var above, i := pg[l], ki[l];
      RebalanceIs(e, pair, Value(a), Value(b), i);
      var j, lp := if i == 0 then 1 else i - 1, if i == 0 then 0 else i - 1;
      PairInMemory(c0, pair, a, b);
      var np := pages[above].kids[j];
      var spare := CanSpareNode(e, Shell(pages[np]));
      ShellIs(e, if i == 0 then b else a);
      if spare || i > 0 {
        var ok;
        ghost var a', b';
        ok, a', b' := TouchNeighbour(l + 1, above, j, np, i == 0, c0, pair, a, b);
        if !ok {
          return MapFull, None;
        }
        AtShape(a, a', h);
        AtShape(b, b', h);
        a, b := a', b';
      }
      if spare {
        ghost var u;
        res, u := NodeMove(l, lp, i > 0, c0, pair, a, b, h);
        t' := Some(u);
      } else {
        res, t' := PageMerge(l, lp, c0, pair, a, b, h);
      }
    }

    lemma PairInMemory(c: Ctx, f: Frame, a: LTree, b: LTree)
      requires Tied(c, Join(f, a, b))
      ensures f.p in pages && pages[f.p].BranchPg? && |pages[f.p].kids| == |f.left| + 2 + |f.right|
      ensures pages[f.p].kids[|f.left|] == a.p && pages[f.p].kids[|f.left| + 1] == b.p
      ensures a.p in pages && pages[a.p] == Image(a) && b.p in pages && pages[b.p] == Image(b)
    {
      JoinHolds(pages, f, a, b);
      HoldsParts(pages, a);
      HoldsParts(pages, b);
    }

    /** mdb_page_touch of a page's right or left neighbour. */
    method TouchNeighbour(l: nat, above: Pgno, j: nat, np: Pgno, right: bool, ghost c: Ctx, ghost f: Frame, ghost a: LTree, ghost b: LTree)
      returns (ok: bool, ghost a': LTree, ghost b': LTree)
      requires Safe() && Tied(c, Join(f, a, b)) && above == f.p && f.p in dirty && l == |c| + 1
      requires if right then j == |f.left| + 1 && np == b.p else j == |f.left| && np == a.p
      modifies `pages, `loose, `pool, `next, `dirty, `freed, `root, `depth, `cursors
      ensures Safe() && old(dirty) <= dirty && depth == old(depth)
      ensures ok ==> Tied(c, Join(f, a', b'))
      ensures ok ==> a' == At(a, a'.p) && b' == At(b, b'.p)
      ensures ok ==> if right then a' == a && b'.p in dirty else b' == b && a'.p in dirty
      ensures !ok ==> Exhausted()
    {
      hide Safe, Tied;
      a', b' := a, b;
      var q;
      ghost var n := if right then b else a;
      ghost var nf := if right then Frame(f.p, f.keys, f.left + [a], f.right) else Frame(f.p, f.keys, f.left, [b] + f.right);
      JoinFills(f, a, b);
      StepDown(c, nf, n);
      ok, q := PageTouch(l, Some((above, j)), np, c + [nf], n);
      if ok {
        StepUp(c, nf, At(n, q));
        if right {
          b' := At(b, q);
        } else {
          a' := At(a, q);
        }
        JoinFills(f, a', b');
      }
    }

    // ---------------------------------------------------------------- delete

    /** mdb_cursor_del0, with the cursor on the entry to delete. */
    method DelOnLeaf(k: Key, ghost c: Ctx, ghost t: LTree) returns (res: Result, ghost t': Option<LTree>)
      requires Safe() && Stacked(c, t, k) && Tied(c, t) && OnStack(c) && t.p in dirty && CtxShape(c, 0) && depth > 0
      requires FoundAt(t.es, LeafPos(t.es, k), k)
      modifies `pages, `loose, `pool, `next, `dirty, `freed, `root, `depth, `cursors
      ensures Ended(res, t', Up(e, c, Shrunk(One(Leaf(Without1(t.es, LeafPos(t.es, k)))), true)), old(depth))
    {
      hide Safe, CtxHolds, CtxLabels, LabelsAll, Labels, Accounted, Up, CtxShape, Finish, LeafPos, HoldAll;
      var l := |pg| - 1;
      HoldsParts(pages, t);
      var es := Without1(pages[pg[l]].es, ki[l]);
      ghost var u := LLeaf(t.p, es);
      LeafAt(pages, t, es);
      HoleIsFree(c, u);
      WriteHole(pages, c, u);
      Write(pg[l], LeafPg(es));
      res, t' := Rebalance(l, c, u, 0);
    }

    /** mdb_del0 in a database that has a root page. */
    method DelInTree(k: Key) returns (res: Result, found: bool, ghost t': Option<LTree>)
      requires Valid() && tree.Some?
      modifies `pages, `loose, `pool, `next, `dirty, `freed, `root, `depth, `cursors, `pg, `ki
      ensures found == Lookup(Value(tree.value), k).Some?
      ensures found ==> Ended(res, t', DelTree(e, Value(tree.value), k), old(depth))
      ensures !found ==> res.Success? && Valid() && depth == old(depth)
    {
      hide Safe, Installed, Tied, OnStack, DbOk, DelTree, Finish, Up, Value, CtxShape, Leads, Lookup, LeafPos, Follows, Plug;
      t' := tree;
      ghost var c0, t0 := Search(k);
      LookupIsBelow(c0, t0, k);
      LookupLeaf(t0.es, k);
      TiedLeaf(c0, t0);
      var l := |pg| - 1;
      found := FoundAt(pages[pg[l]].es, ki[l], k);
      if !found {
        return Success, false, t';
      }
      assert Safe() && depth > 0 by { Parts(); DepthIs(); }
      var ok;
      ghost var c, t;
      ok, c, t := TouchPath(c0, t0, k);
      if !ok {
        return MapFull, true, t';
      }
      SamePathKeeps(c0, c, k, 0);
      AtValue(t0, t);
      SameValue(c0, c, t0, t);
      DelIsUp(e, c, t, k);
      res, t' := DelOnLeaf(k, c, t);
    }

    lemma DepthIs()
      requires Valid() && tree.Some?
      ensures depth > 0
    {
    }

    /**
     mdb_del. The database becomes the one that BTreeDelete.Del makes of it, so that its contents
     are the old ones without k; `found` says whether k was there.
     */
    method Del(k: Key) returns (res: Result, found: bool)
      requires Valid()
      modifies this
      ensures Safe() && error == !res.Success? && found == (k in old(Contents(Database())))
      ensures res.Success? ==> Valid() && Contents(Database()) == old(Contents(Database())) - {k}
      ensures res.Success? && found ==> Deleted(Database()) == BTreeDelete.Del(e, old(Database()), k)
      ensures !found ==> res.Success? && Database() == old(Database())
      ensures res.PageFull? ==> BTreeDelete.Del(e, old(Database()), k) == Failed
      ensures res.MapFull? ==> Exhausted()
    {
      hide Safe, Installed, DbOk, DelTree, Finish, BTreeDelete.Del, Contents, Value, Lookup;
      ghost var db := Database();
      DelRefinesRemoval(e, db, k);
      GetIsLookup(e, db, k);
      NoTree();
      if root.None? {
        return Success, false;
      }
      ghost var t, t' := tree.value, tree;
      res, found, t' := DelInTree(k);
      if found {
        DelAtRoot(e, t, db.depth, k);
        tree := t';
        error := !res.Success?;
      }
    }

    lemma TiedLeaf(c: Ctx, t: LTree)
      requires Tied(c, t) && t.LLeaf?
      ensures t.p in pages && pages[t.p] == LeafPg(t.es)
    {
    }

    // ---------------------------------------------------------------- a whole transaction

    /** A run of puts and deletions, up to the first that fails. */
    method Run(ops: seq<Op>) returns (res: Result)
      requires Valid()
      modifies this
      ensures Safe() && (res.Success? ==> Valid() && Contents(Database()) == Applied(old(Contents(Database())), ops))
    {
      hide Contents, DbOk, Safe, Installed;
      res := Success;
      var i := 0;
      assert ops[..0] == [];
      while i < |ops|
        invariant i <= |ops| && Valid() && Contents(Database()) == Applied(old(Contents(Database())), ops[..i])
      {
        assert ops[..i + 1][..i] == ops[..i];
        match ops[i] {
          case PutOp(k, v, inPlace) =>
            res := Put(k, v, inPlace);
          case DelOp(k) =>
            var found;
            res, found := Del(k);
        }
        if !res.Success? {
          return;
        }
        i := i + 1;
      }
      assert ops[..i] == ops;
    }
  }
}
