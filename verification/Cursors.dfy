/** Cursors over a plain database: search, mdb_cursor_set, first, next, last and prev. */
module Cursors {
  import opened Base
  import opened Sizes
  import opened BTree
  import opened BTreePut
  import opened BTreeDeleteProofs
  import opened CursorPath

  const CURSOR_STACK: nat := 32

  // ---------------------------------------------------------------- one page

  /** The key of node i; node 0 of a branch has none. */
  function NodeKey(t: Tree, i: nat): Key
    requires if t.Leaf? then i < |t.es| else 0 < i <= |t.keys|
  {
    if t.Leaf? then t.es[i].key else t.keys[i - 1]
  }

  predicate SortedPage(t: Tree) {
    match t
    case Leaf(es) => SortedEntries(es)
    case Branch(keys, kids) => SortedKeys(keys) && |kids| == |keys| + 1
  }

  /** mdb_node_search: the first node whose key is not less, and whether it is equal. */
  method NodeSearch(t: Tree, key: Key) returns (i: nat, exact: bool)
    requires SortedPage(t)
    ensures t.Leaf? ==> i == LeafPos(t.es, key) && exact == FoundAt(t.es, i, key)
    ensures t.Branch? ==> KidPos(t.keys, key) == if i >= |t.kids| then |t.kids| - 1 else if exact then i else i - 1
    ensures t.Branch? ==> i > 0 || exact
  {
    i := 0;
    var nkeys: int := NumKeys(t);
    var low: int, high: int := if t.Leaf? then 0 else 1, nkeys - 1;
    var first := low;
    var rc: int := 0;
    while low <= high
      invariant first <= low <= high + 1 <= nkeys
      invariant forall j :: first <= j < low ==> NodeKey(t, j) < key
      invariant forall j :: high < j < nkeys ==> key < NodeKey(t, j)
      invariant rc == 0 ==> low == first && high == nkeys - 1 && i == 0
      invariant rc < 0 ==> i == high + 1
      invariant rc > 0 ==> i + 1 == low
    {
      i := (low + high) / 2;
      var nodeKey := NodeKey(t, i);
      rc := if key < nodeKey then -1 else if key > nodeKey then 1 else 0;
      if rc == 0 { break; }
      if rc > 0 {
        low := i + 1;
      } else {
        high := i - 1;
      }
    }
    if rc > 0 {
      i := i + 1;
    }
    exact := rc == 0 && nkeys > 0;
    if t.Leaf? {
      assert forall j :: 0 <= j < |t.es| ==> t.es[j].key == NodeKey(t, j);
      LeafFound(t.es, key, i, exact);
    } else {
      assert forall j :: 0 <= j < |t.keys| ==> t.keys[j] == NodeKey(t, j + 1);
      KidFound(t.keys, key, i, exact);
    }
  }

  lemma LeafFound(es: seq<Entry>, key: Key, i: nat, exact: bool)
    requires SortedEntries(es) && i <= |es|
    requires exact ==> i < |es| && es[i].key == key
    requires !exact ==> (forall j :: 0 <= j < i ==> es[j].key < key) && (forall j :: i <= j < |es| ==> key < es[j].key)
    ensures i == LeafPos(es, key) && exact == FoundAt(es, i, key)
  {
    LeafPosIs(es, key, i);
  }

  /** KidPos is the only index whose separators admit the key. */
  lemma {:induction false} KidPosIs(keys: seq<Key>, key: Key, i: nat)
    requires i <= |keys| && (forall j :: 0 <= j < i ==> keys[j] <= key) && (i < |keys| ==> key < keys[i])
    ensures KidPos(keys, key) == i
  {
    if i > 0 {
      assert forall j :: 0 <= j < i - 1 ==> keys[1..][j] == keys[j + 1];
      KidPosIs(keys[1..], key, i - 1);
    }
  }

  lemma KidFound(keys: seq<Key>, key: Key, i: nat, exact: bool)
    requires SortedKeys(keys) && i <= |keys| + 1
    requires exact ==> i == |keys| == 0 || (0 < i <= |keys| && keys[i - 1] == key)
    requires !exact ==> i > 0 && (forall j :: 0 <= j < i - 1 ==> keys[j] < key) && (forall j :: i - 1 <= j < |keys| ==> key < keys[j])
    ensures KidPos(keys, key) == if i >= |keys| + 1 then |keys| else if exact then i else i - 1
  {
    KidPosIs(keys, key, if i >= |keys| + 1 then |keys| else if exact then i else i - 1);
  }

  // ---------------------------------------------------------------- siblings

  /** Where the page on top ends. */
  ghost function End(pg: seq<Tree>, ki: seq<nat>, l: nat): nat
    requires l < |pg| == |ki|
  {
    Start(pg, ki, l) + |Flat(pg[l])|
  }

  /** A cursor on a database: the path is sound on every level. */
  ghost predicate OnPath(e: Env, root: Tree, h: nat, pg: seq<Tree>, ki: seq<nat>, snum: nat) {
    Sound(e, root, h, true) && Path(root, pg, ki, snum)
  }

  lemma PageOnPath(e: Env, root: Tree, h: nat, pg: seq<Tree>, ki: seq<nat>, snum: nat, l: nat)
    requires OnPath(e, root, h, pg, ki, snum) && l < snum
    ensures l <= h && Sound(e, pg[l], h - l, true) && |Flat(pg[l])| > 0 && NumKeys(pg[l]) > 0
    ensures pg[l].Leaf? <==> l == h
    ensures pg[l].Branch? ==> |pg[l].kids| == |pg[l].keys| + 1 && |pg[l].kids| >= 2
    ensures SortedPage(pg[l])
    ensures Start(pg, ki, l) < End(pg, ki, l) <= |Flat(root)|
  {
    hide FlatAll, Sum, LeafSizes, KeySizes, Start, Separated, AllSound;
    Weaken(e, root, h);
    PathSound(e, root, h, pg, ki, snum, l);
    SoundIsNonEmpty(e, pg[l], h - l);
    Window(root, pg, ki, snum, l);
    if pg[l].Branch? {
      KidsOf(e, pg[l], h - l, true);
      KidBounds(pg[l].keys, pg[l].kids, 0);
    } else {
      SoundLeaf(e, pg[l].es, h - l, true);
    }
  }

  /** The page on top replaced by its parent's child i. */
  ghost predicate Turned(pg: seq<Tree>, ki: seq<nat>, snum: nat, i: nat, pg': seq<Tree>, ki': seq<nat>)
    requires 1 < snum <= |pg| == |ki|
  {
    && |pg'| == |ki'| == |pg|
    && pg[snum - 2].Branch? && i < |pg[snum - 2].kids|
    && pg' == pg[snum - 1 := pg[snum - 2].kids[i]]
    && ki'[snum - 2] == i
    && forall l :: 0 <= l < snum - 2 ==> ki'[l] == ki[l]
  }

  lemma TurnedTo(e: Env, root: Tree, h: nat, pg: seq<Tree>, ki: seq<nat>, snum: nat, i: nat, pg': seq<Tree>, ki': seq<nat>)
    requires 1 < snum <= |pg| == |ki| && OnPath(e, root, h, pg, ki, snum - 1) && Turned(pg, ki, snum, i, pg', ki')
    ensures OnPath(e, root, h, pg', ki', snum)
    ensures Start(pg', ki', snum - 1) == Start(pg, ki, snum - 2) + |FlatAll(pg[snum - 2].kids[..i])|
    ensures End(pg', ki', snum - 1) == Start(pg, ki, snum - 2) + |FlatAll(pg[snum - 2].kids[..i + 1])|
    ensures i + 1 == |pg[snum - 2].kids| ==> End(pg', ki', snum - 1) == End(pg, ki, snum - 2)
    ensures i == 0 ==> Start(pg', ki', snum - 1) == Start(pg, ki, snum - 2)
    ensures Start(pg', ki', snum - 1) < End(pg', ki', snum - 1) <= |Flat(root)|
  {
    hide Sound;
    Pushed(root, pg, ki, snum - 1, i, pg', ki');
    NextKid(pg[snum - 2].kids, i);
    PageOnPath(e, root, h, pg', ki', snum, snum - 1);
  }

  /** The page on top as a child of its parent. */
  lemma AsKid(e: Env, root: Tree, h: nat, pg: seq<Tree>, ki: seq<nat>, snum: nat)
    requires OnPath(e, root, h, pg, ki, snum) && snum > 1
    ensures OnPath(e, root, h, pg, ki, snum - 1)
    ensures pg[snum - 2].Branch? && ki[snum - 2] < |pg[snum - 2].kids|
    ensures Start(pg, ki, snum - 1) == Start(pg, ki, snum - 2) + |FlatAll(pg[snum - 2].kids[..ki[snum - 2]])|
    ensures End(pg, ki, snum - 1) == Start(pg, ki, snum - 2) + |FlatAll(pg[snum - 2].kids[..ki[snum - 2] + 1])|
    ensures ki[snum - 2] + 1 == |pg[snum - 2].kids| ==> End(pg, ki, snum - 1) == End(pg, ki, snum - 2)
    ensures ki[snum - 2] == 0 ==> Start(pg, ki, snum - 1) == Start(pg, ki, snum - 2)
  {
    hide Sound;
    Popped(root, pg, ki, snum);
    NextKid(pg[snum - 2].kids, ki[snum - 2]);
  }

  /** What mdb_cursor_sibling makes of the page at level l: its neighbour, if there is one. */
  ghost predicate SiblingOf(root: Tree, pg: seq<Tree>, ki: seq<nat>, l: nat, right: bool,
                            ok: bool, pg': seq<Tree>, ki': seq<nat>)
    requires l < |pg| == |ki|
  {
    && l < |pg'| == |ki'|
    && (ok <==> if right then End(pg, ki, l) < |Flat(root)| else Start(pg, ki, l) > 0)
    && (!ok ==> pg' == pg && ki' == ki)
    && (ok && right ==> Start(pg', ki', l) == End(pg, ki, l) && ki'[l] == 0)
    && (ok && !right ==> End(pg', ki', l) == Start(pg, ki, l) && ki'[l] == NumKeys(pg'[l]) - 1)
  }

  lemma OnlyRoot(e: Env, root: Tree, h: nat, pg: seq<Tree>, ki: seq<nat>, snum: nat, right: bool)
    requires OnPath(e, root, h, pg, ki, snum) && snum == 1
    ensures SiblingOf(root, pg, ki, 0, right, false, pg, ki)
  {
  }

  /** At the edge of the parent, there is a sibling exactly if the parent has one. */
  lemma ViaParent(e: Env, root: Tree, h: nat, pg: seq<Tree>, ki: seq<nat>, snum: nat, right: bool,
                  ok: bool, pg1: seq<Tree>, ki1: seq<nat>)
    requires OnPath(e, root, h, pg, ki, snum) && 1 < snum <= |pg| == |ki| == |pg1| == |ki1|
    requires if right then ki[snum - 2] + 1 >= NumKeys(pg[snum - 2]) else ki[snum - 2] == 0
    requires SiblingOf(root, pg, ki, snum - 2, right, ok, pg1, ki1) && OnPath(e, root, h, pg1, ki1, snum - 1)
    ensures if right then ok == (End(pg, ki, snum - 1) < |Flat(root)|) else ok == (Start(pg, ki, snum - 1) > 0)
    ensures !ok ==> SiblingOf(root, pg, ki, snum - 1, right, false, pg1, ki1) && pg1 == pg && ki1 == ki
    ensures ok ==> pg1[snum - 2].Branch? && ki1[snum - 2] < |pg1[snum - 2].kids|
  {
    hide OnPath, Start, End, Flat, FlatAll, SortedPage, Sound, Path;
    AsKid(e, root, h, pg, ki, snum);
    PageOnPath(e, root, h, pg, ki, snum - 1, snum - 2);
    PageOnPath(e, root, h, pg1, ki1, snum - 1, snum - 2);
  }

  /** The page turned to is the neighbour. */
  lemma NewSibling(e: Env, root: Tree, h: nat, pg: seq<Tree>, ki: seq<nat>, snum: nat, right: bool,
                   pg1: seq<Tree>, ki1: seq<nat>, edge: bool, i: nat, pg2: seq<Tree>, ki2: seq<nat>)
    requires OnPath(e, root, h, pg, ki, snum) && 1 < snum <= |pg| == |pg1| == |ki1|
    requires OnPath(e, root, h, pg1, ki1, snum - 1) && Turned(pg1, ki1, snum, i, pg2, ki2)
    requires if right then ki2[snum - 1] == 0 else ki2[snum - 1] == NumKeys(pg2[snum - 1]) - 1
    requires edge == if right then ki[snum - 2] + 1 >= NumKeys(pg[snum - 2]) else ki[snum - 2] == 0
    requires edge ==> i == ki1[snum - 2] && SiblingOf(root, pg, ki, snum - 2, right, true, pg1, ki1)
    requires !edge ==> pg1 == pg && ki1 == ki && i == if right then ki[snum - 2] + 1 else ki[snum - 2] - 1
    ensures SiblingOf(root, pg, ki, snum - 1, right, true, pg2, ki2)
  {
    hide OnPath, Start, End, Flat, FlatAll;
    AsKid(e, root, h, pg, ki, snum);
    TurnedTo(e, root, h, pg1, ki1, snum, i, pg2, ki2);
  }

  class Cursor {
    ghost const e: Env
    const d: Db
    var pg: seq<Tree>    // mc_pg
    var ki: seq<nat>     // mc_ki
    var snum: nat        // mc_snum; mc_top is one less
    var initialized: bool
    var eof: bool

    ghost predicate Stacked()
      reads this
    {
      && d.root.Some? && 0 < d.depth <= CURSOR_STACK == |pg| == |ki|
      && 0 < snum <= CURSOR_STACK
      && OnPath(e, d.root.value, d.depth - 1, pg, ki, snum)
    }

    /** Goes down to child i of the page on top, to its first or its last node. */
    method Descend(i: nat, toFirst: bool)
      requires Stacked() && snum < CURSOR_STACK
      requires pg[snum - 1].Branch? && i < |pg[snum - 1].kids|
      modifies this`pg, this`ki, this`snum
      ensures Stacked() && snum == old(snum) + 1
      ensures ki[snum - 1] == if toFirst then 0 else NumKeys(pg[snum - 1]) - 1
      ensures Turned(old(pg), old(ki), snum, i, pg, ki) && pg[snum - 1] == old(pg[snum - 1].kids)[i]
    {
      hide OnPath, Sound;
      ghost var root, h, pg0, ki0 := d.root.value, d.depth - 1, pg, ki;
      pg := pg[snum := pg[snum - 1].kids[i]];
      ki := ki[snum - 1 := i][snum := 0];
      snum := snum + 1;
      TurnedTo(e, root, h, pg0, ki0, snum, i, pg, ki);
      if !toFirst {
        PageOnPath(e, root, h, pg, ki, snum, snum - 1);
        ki := ki[snum - 1 := NumKeys(pg[snum - 1]) - 1];
        TurnedTo(e, root, h, pg0, ki0, snum, i, pg, ki);
      }
    }

    /** mdb_cursor_sibling */
    method Sibling(moveRight: bool) returns (ok: bool)
      requires Stacked()
      modifies this`pg, this`ki, this`snum
      ensures Stacked() && snum == old(snum)
      ensures SiblingOf(d.root.value, old(pg), old(ki), snum - 1, moveRight, ok, pg, ki)
      decreases snum
    {
      hide OnPath, SiblingOf, SortedPage, Turned, Start, End, Sound, Flat, FlatAll;
      ghost var root, h, pg0, ki0 := d.root.value, d.depth - 1, pg, ki;
      if snum < 2 {
        OnlyRoot(e, root, h, pg, ki, snum, moveRight);
        return false;
      }
      AsKid(e, root, h, pg, ki, snum);
      snum := snum - 1;
      var top := snum - 1;
      PageOnPath(e, root, h, pg, ki, snum, top);
      var i := ki[top];
      var edge := if moveRight then i + 1 >= NumKeys(pg[top]) else i == 0;
      if edge {
        ok := Sibling(moveRight);
        ViaParent(e, root, h, pg0, ki0, snum + 1, moveRight, ok, pg, ki);
        if !ok {
          snum := snum + 1;
          return;
        }
        i := ki[top];
      } else {
        ok := true;
        i := if moveRight then i + 1 else i - 1;
      }
      ghost var pg1, ki1 := pg, ki;
      Descend(i, moveRight);
      NewSibling(e, root, h, pg0, ki0, snum, moveRight, pg1, ki1, edge, i, pg, ki);
    }

    // -------------------------------------------------------------- search

    /** The database's entries, in order. */
    ghost function All(): seq<Entry> {
      if d.root.None? then [] else Flat(d.root.value)
    }

    ghost predicate Valid()
      reads this
    {
      && DbOk(e, d) && d.depth <= CURSOR_STACK == |pg| == |ki|
      && (initialized ==> Stacked() && snum == d.depth && ki[snum - 1] <= NumKeys(pg[snum - 1]))
      && (initialized && eof ==> End(pg, ki, snum - 1) == |All()|)
    }

    ghost predicate AtLeaf()
      reads this
    {
      DbOk(e, d) && Stacked() && snum == d.depth && pg[snum - 1].Leaf?
    }

    /** How many entries come before the cursor. */
    ghost function Pos(): nat
      requires Valid() && initialized
      reads this
    {
      Start(pg, ki, snum - 1) + ki[snum - 1]
    }

    predicate OnEntry()
      requires 0 < snum <= |pg| == |ki|
      reads this
    {
      ki[snum - 1] < NumKeys(pg[snum - 1])
    }

    constructor (ghost e: Env, d: Db)
      requires DbOk(e, d) && d.depth <= CURSOR_STACK
      ensures Valid() && !initialized && this.d == d
    {
      this.e := e;
      this.d := d;
      pg := seq(CURSOR_STACK, _ => Leaf([]));
      ki := seq(CURSOR_STACK, _ => 0);
      snum := 0;
      initialized, eof := false, false;
    }

    /** mdb_page_search as far as the root page. */
    method ToRoot()
      requires DbOk(e, d) && d.root.Some? && d.depth <= CURSOR_STACK == |pg| == |ki|
      modifies this`pg, this`snum
      ensures Stacked() && snum == 1 && pg == old(pg)[0 := d.root.value]
      ensures Start(pg, ki, 0) == 0 && End(pg, ki, 0) == |All()|
    {
      hide Sound;
      pg := pg[0 := d.root.value];
      snum := 1;
    }

    /** The place of a key in the database, from its place among the entries of the page on top. */
    ghost predicate Localized(es: seq<Entry>, key: Key)
      requires 0 < snum <= |pg| == |ki|
      reads this
    {
      && LeafPos(All(), key) == Start(pg, ki, snum - 1) + LeafPos(es, key)
      && LookupFlat(All(), key) == LookupFlat(es, key)
    }

    /** mdb_page_search_root for a key. */
    method SearchKey(key: Key)
      requires DbOk(e, d) && d.root.Some? && d.depth <= CURSOR_STACK == |pg| == |ki|
      modifies this
      ensures AtLeaf() && initialized && !eof
      ensures Localized(pg[snum - 1].es, key)
    {
      hide OnPath, Start, End, Flat, FlatAll, SortedPage, DbOk, LeafPos, KidPos, Sound, Turned, LookupFlat;
      ghost var root, h := d.root.value, d.depth - 1;
      ToRoot();
      PageOnPath(e, root, h, pg, ki, snum, 0);
      while pg[snum - 1].Branch?
        invariant Stacked()
        invariant Localized(Flat(pg[snum - 1]), key)
        decreases CURSOR_STACK - snum
      {
        PageOnPath(e, root, h, pg, ki, snum, snum - 1);
        var i, exact := NodeSearch(pg[snum - 1], key);
        if i >= NumKeys(pg[snum - 1]) {
          i := NumKeys(pg[snum - 1]) - 1;
        } else if !exact {
          i := i - 1;
        }
        SearchStep(e, root, h, pg, ki, snum, key);
        ghost var pg0, ki0 := pg, ki;
        Descend(i, true);
        TurnedTo(e, root, h, pg0, ki0, snum, i, pg, ki);
      }
      PageOnPath(e, root, h, pg, ki, snum, snum - 1);
      LeafEntries(pg[snum - 1]);
      initialized, eof := true, false;
    }

    /** mdb_page_search_root with MDB_PS_FIRST. */
    method SearchFirst()
      requires DbOk(e, d) && d.root.Some? && d.depth <= CURSOR_STACK == |pg| == |ki|
      modifies this
      ensures AtLeaf() && initialized && !eof && Start(pg, ki, snum - 1) == 0
    {
      hide OnPath, Start, End, Flat, FlatAll, SortedPage, DbOk, Sound, Turned;
      ghost var root, h := d.root.value, d.depth - 1;
      ToRoot();
      PageOnPath(e, root, h, pg, ki, snum, 0);
      while pg[snum - 1].Branch?
        invariant Stacked() && Start(pg, ki, snum - 1) == 0
        decreases CURSOR_STACK - snum
      {
        PageOnPath(e, root, h, pg, ki, snum, snum - 1);
        ghost var pg0, ki0 := pg, ki;
        Descend(0, true);
        TurnedTo(e, root, h, pg0, ki0, snum, 0, pg, ki);
      }
      PageOnPath(e, root, h, pg, ki, snum, snum - 1);
      initialized, eof := true, false;
    }

    /** mdb_page_search_root with MDB_PS_LAST, which keeps the pages it is already on. */
    method SearchLast()
      requires Valid() && d.root.Some?
      modifies this
      ensures AtLeaf() && initialized && !eof && End(pg, ki, snum - 1) == |All()|
    {
      hide OnPath, Start, End, Flat, FlatAll, SortedPage, DbOk, Sound, Turned;
      ghost var root, h := d.root.value, d.depth - 1;
      if initialized { RootOnPath(e, root, h, pg, ki, snum); }
      ToRoot();
      PageOnPath(e, root, h, pg, ki, snum, 0);
      while pg[snum - 1].Branch?
        invariant Stacked() && End(pg, ki, snum - 1) == |All()|
        invariant initialized ==> OnPath(e, root, h, pg, ki, d.depth) || (snum > 1 && ki[snum - 1] == 0)
        decreases CURSOR_STACK - snum
      {
        PageOnPath(e, root, h, pg, ki, snum, snum - 1);
        var i := NumKeys(pg[snum - 1]) - 1;
        ghost var pg0, ki0 := pg, ki;
        if initialized && ki[snum - 1] == i {
          PathPrefix(e, root, h, pg, ki, d.depth, snum + 1);
          snum := snum + 1;
          AsKid(e, root, h, pg, ki, snum);
        } else {
          Descend(i, true);
          TurnedTo(e, root, h, pg0, ki0, snum, i, pg, ki);
        }
      }
      PageOnPath(e, root, h, pg, ki, snum, snum - 1);
      initialized, eof := true, false;
    }

    // -------------------------------------------------------------- moving

    /** Stores the index of the page on top. */
    method SetIndex(j: nat)
      requires Stacked()
      modifies this`ki
      ensures Stacked() && ki[snum - 1] == j
      ensures Start(pg, ki, snum - 1) == old(Start(pg, ki, snum - 1)) && End(pg, ki, snum - 1) == old(End(pg, ki, snum - 1))
    {
      hide OnPath, Sound, Flat;
      ghost var was := ki;
      ki := ki[snum - 1 := j];
      SamePath(e, d.root.value, d.depth - 1, pg, was, ki, snum);
    }

    /** mdb_cursor_first */
    method First() returns (ok: bool)
      requires Valid()
      modifies this
      ensures Valid() && ok == (All() != [])
      ensures ok ==> initialized && OnEntry() && Pos() == 0
      ensures !ok ==> initialized == old(initialized)
    {
      hide OnPath, Start, End, Flat, FlatAll, SortedPage, Sound, DbOk;
      EmptyOrNot(e, d);
      if d.root.None? {
        return false;
      }
      if !initialized || snum > 1 {
        SearchFirst();
      } else {
        OnlyPage(e, d.root.value, d.depth - 1, pg, ki);
      }
      PageOnPath(e, d.root.value, d.depth - 1, pg, ki, snum, snum - 1);
      initialized, eof := true, false;
      SetIndex(0);
      ok := true;
    }

    /** mdb_cursor_last */
    method Last() returns (ok: bool)
      requires Valid()
      modifies this
      ensures Valid() && ok == (All() != [])
      ensures ok ==> initialized && OnEntry() && Pos() == |All()| - 1
      ensures !ok ==> initialized == old(initialized)
    {
      hide OnPath, Start, Flat, FlatAll, SortedPage, Sound, DbOk;
      EmptyOrNot(e, d);
      if d.root.None? {
        return false;
      }
      if !initialized || snum > 1 {
        SearchLast();
      } else {
        OnlyPage(e, d.root.value, d.depth - 1, pg, ki);
      }
      PageOnPath(e, d.root.value, d.depth - 1, pg, ki, snum, snum - 1);
      LeafEntries(pg[snum - 1]);
      SetIndex(NumKeys(pg[snum - 1]) - 1);
      initialized, eof := true, true;
      ok := true;
    }

    /** The place that mdb_cursor_next goes to: a cursor past its page's last entry is already there. */
    ghost function NextPos(): nat
      requires Valid()
      reads this
    {
      if !initialized then 0 else if OnEntry() then Pos() + 1 else Pos()
    }

    /** mdb_cursor_next */
    method Next() returns (ok: bool)
      requires Valid()
      modifies this
      ensures Valid() && ok == (old(NextPos()) < |All()|)
      ensures ok ==> initialized && OnEntry() && Pos() == old(NextPos())
      ensures !ok ==> initialized == old(initialized) && (initialized ==> eof && Pos() == old(if initialized then Pos() else 0))
    {
      hide OnPath, Start, Flat, FlatAll, SortedPage, Sound, DbOk;
      if !initialized {
        ok := First();
        return;
      }
      var top := snum - 1;
      PageOnPath(e, d.root.value, d.depth - 1, pg, ki, snum, top);
      LeafEntries(pg[top]);
      if eof {
        if ki[top] >= NumKeys(pg[top]) - 1 {
          return false;
        }
        eof := false;
      }
      if ki[top] + 1 >= NumKeys(pg[top]) {
        ok := Sibling(true);
        if !ok {
          eof := true;
          return;
        }
        PageOnPath(e, d.root.value, d.depth - 1, pg, ki, snum, top);
      } else {
        SetIndex(ki[top] + 1);
        ok := true;
      }
    }

    /** mdb_cursor_prev */
    method Prev() returns (ok: bool)
      requires Valid()
      modifies this
      ensures Valid()
      ensures old(initialized) ==> ok == (old(if initialized then Pos() else 0) > 0)
      ensures !old(initialized) ==> ok == (All() != [])
      ensures ok ==> initialized && OnEntry()
      ensures ok ==> Pos() == (if old(initialized) then old(if initialized then Pos() else 0) else |All()|) - 1
      ensures !ok ==> initialized == old(initialized) && (initialized ==> Pos() == 0)
    {
      hide OnPath, Start, Flat, FlatAll, SortedPage, Sound, DbOk;
      if !initialized {
        ok := Last();
        if !ok {
          return;
        }
        SetIndex(ki[snum - 1] + 1);
      }
      var top := snum - 1;
      PageOnPath(e, d.root.value, d.depth - 1, pg, ki, snum, top);
      LeafEntries(pg[top]);
      eof := false;
      if ki[top] == 0 {
        ok := Sibling(false);
        if !ok {
          return;
        }
        PageOnPath(e, d.root.value, d.depth - 1, pg, ki, snum, top);
        LeafEntries(pg[top]);
        SetIndex(NumKeys(pg[top]) - 1);
      } else {
        SetIndex(ki[top] - 1);
        ok := true;
      }
    }

    // -------------------------------------------------------------- mdb_cursor_set

    /** The end of mdb_cursor_set: looks for the key on the page on top, or right of it. */
    method SetOnPage(key: Key, exactOnly: bool) returns (ok: bool)
      requires AtLeaf() && initialized && !eof && Localized(pg[snum - 1].es, key)
      modifies this
      ensures Valid()
      ensures ok == if exactOnly then LookupFlat(All(), key).Some? else LeafPos(All(), key) < |All()|
      ensures ok ==> initialized && OnEntry() && Pos() == LeafPos(All(), key)
    {
      hide OnPath, Start, Flat, FlatAll, Sound, DbOk, LeafPos, SortedEntries;
      var top := snum - 1;
      PageOnPath(e, d.root.value, d.depth - 1, pg, ki, snum, top);
      LeafEntries(pg[top]);
      var i, exact := NodeSearch(pg[top], key);
      SetIndex(i);
      if exactOnly && !exact {
        return false;
      }
      ok := true;
      if i >= NumKeys(pg[top]) {
        ok := Sibling(true);
        eof := !ok;
        if ok {
          PageOnPath(e, d.root.value, d.depth - 1, pg, ki, snum, top);
        }
      }
    }

    /** Whether no page on the path has a right sibling. */
    method OnLastPage() returns (last: bool)
      requires AtLeaf()
      ensures last ==> End(pg, ki, snum - 1) == |All()|
      ensures snum == 1 ==> last
    {
      hide OnPath, Start, End, Flat, FlatAll, Sound, DbOk;
      ghost var root, h := d.root.value, d.depth - 1;
      var i: nat := 0;
      PathPrefix(e, root, h, pg, ki, snum, 1);
      OnlyPage(e, root, h, pg, ki);
      while i < snum - 1
        invariant i <= snum - 1
        invariant End(pg, ki, i) == |All()|
      {
        PathPrefix(e, root, h, pg, ki, snum, i + 2);
        AsKid(e, root, h, pg, ki, i + 2);
        if ki[i] < NumKeys(pg[i]) - 1 {
          return false;
        }
        i := i + 1;
      }
      last := true;
    }

    /**
     mdb_cursor_set: MDB_SET and MDB_SET_KEY want the key itself (`exactOnly`), MDB_SET_RANGE
     the first one that is not less. The page the cursor is on is tried first.
     */
    method Set(key: Key, exactOnly: bool) returns (ok: bool)
      requires Valid()
      modifies this
      ensures Valid()
      ensures ok == if exactOnly then LookupFlat(All(), key).Some? else LeafPos(All(), key) < |All()|
      ensures ok ==> initialized && OnEntry() && Pos() == LeafPos(All(), key)
    {
      hide OnPath, Start, Flat, FlatAll, Sound, DbOk, LeafPos, LookupFlat, SortedEntries;
      if initialized {
        var done;
        done, ok := SetHere(key, exactOnly);
        if done { return; }
      }
      NoEntries(key);
      if d.root.None? {
        return false;
      }
      SearchKey(key);
      ok := SetOnPage(key, exactOnly);
    }

    /** The key is entry i of this page. */
    method Settle(key: Key, i: nat)
      requires AtLeaf() && initialized && i < |pg[snum - 1].es| && pg[snum - 1].es[i].key == key
      modifies this`ki, this`eof
      ensures Valid() && OnEntry() && Pos() == LeafPos(All(), key) < |All()| && LookupFlat(All(), key).Some?
    {
      hide OnPath, Start, Flat, FlatAll, Sound, DbOk, LeafPos, LookupFlat, SortedEntries, End;
      Hit(e, d.root.value, d.depth - 1, pg, ki, snum, key, i);
      SetIndex(i);
      eof := false;
    }

    /** The start of mdb_cursor_set: whether the page on top, or there being no other, settles it. */
    method SetHere(key: Key, exactOnly: bool) returns (done: bool, ok: bool)
      requires Valid() && initialized
      modifies this
      ensures Valid()
      ensures done ==> ok == if exactOnly then LookupFlat(All(), key).Some? else LeafPos(All(), key) < |All()|
      ensures done && ok ==> initialized && OnEntry() && Pos() == LeafPos(All(), key)
    {
      hide OnPath, Start, Flat, FlatAll, Sound, DbOk, LeafPos, LookupFlat, SortedEntries;
      ghost var root, h := d.root.value, d.depth - 1;
      var top := snum - 1;
      PageOnPath(e, root, h, pg, ki, snum, top);
      LeafEntries(pg[top]);
      var es := pg[top].es;
      var n := |es|;
      if key == es[0].key {
        Settle(key, 0);
        return true, true;
      }
      if key > es[0].key {
        if n > 1 {
          if key == es[n - 1].key {
            Settle(key, n - 1);
            return true, true;
          }
          if key < es[n - 1].key {
            eof := false;
            if ki[top] < n && key == es[ki[top]].key {
              Settle(key, ki[top]);
              return true, true;
            }
            Inner(e, root, h, pg, ki, snum, key);
            done := true;
            ok := SetOnPage(key, exactOnly);
            return;
          }
        }
        var last := OnLastPage();
        if last {
          Beyond(e, root, h, pg, ki, snum, key);
          SetIndex(n);
          return true, false;
        }
      }
      if top == 0 {
        OnlyPage(e, root, h, pg, ki);
        Before(e, root, h, pg, ki, snum, key);
        SetIndex(0);
        eof := eof && exactOnly;
        return true, !exactOnly;
      }
      return false, false;
    }
  }

  /** Where a key belongs that lies within the window of the page on top, or beyond an end of the database. */
  lemma InWindow(all: seq<Entry>, s: nat, es: seq<Entry>, key: Key)
    requires SortedEntries(all) && |es| > 0 && s + |es| <= |all| && all[s..s + |es|] == es
    requires es[0].key <= key || s == 0
    requires key <= es[|es| - 1].key || s + |es| == |all|
    ensures LeafPos(all, key) == s + LeafPos(es, key) && LookupFlat(all, key) == LookupFlat(es, key)
  {
    hide LeafPos;
    assert forall i :: 0 <= i < |es| ==> es[i] == all[s + i];
    var p := LeafPos(es, key);
    WindowSplits(all, s, es, key, p);
    hide SortedEntries;
    LeafPosIs(all, key, s + p);
  }

  lemma WindowSplits(all: seq<Entry>, s: nat, es: seq<Entry>, key: Key, p: nat)
    requires SortedEntries(all) && |es| > 0 && s + |es| <= |all| && p == LeafPos(es, key)
    requires forall i :: 0 <= i < |es| ==> es[i] == all[s + i]
    requires es[0].key <= key || s == 0
    requires key <= es[|es| - 1].key || s + |es| == |all|
    ensures Below(all[..s + p], key) && (s + p < |all| ==> all[s + p].key >= key)
  {
    hide LeafPos;
    var n := |es|;
    LeafPosSplits(es, key);
    assert p > 0 ==> es[..p][p - 1] == es[p - 1];
    assert p < n ==> es[p..][0] == es[p];
    assert p == n ==> es[n - 1].key < key;
    BelowPrefix(all, s, es, key, p);
  }

  lemma BelowPrefix(all: seq<Entry>, s: nat, es: seq<Entry>, key: Key, p: nat)
    requires SortedEntries(all) && p <= |es| && 0 < |es| && s + |es| <= |all|
    requires forall i :: 0 <= i < |es| ==> es[i] == all[s + i]
    requires if p > 0 then es[p - 1].key < key else s == 0 || es[0].key <= key
    ensures Below(all[..s + p], key)
  {
    if p > 0 {
      assert all[s + p - 1] == es[p - 1];
    } else if s > 0 {
      assert all[s] == es[0];
    }
  }

  lemma FoundOn(es: seq<Entry>, key: Key, i: nat)
    requires SortedEntries(es) && i < |es| && es[i].key == key
    ensures LeafPos(es, key) == i && LookupFlat(es, key).Some?
  {
    LeafPosIs(es, key, i);
  }

  lemma TopWindow(e: Env, root: Tree, h: nat, pg: seq<Tree>, ki: seq<nat>, snum: nat)
    requires OnPath(e, root, h, pg, ki, snum) && pg[snum - 1].Leaf?
    ensures var es, s := pg[snum - 1].es, Start(pg, ki, snum - 1);
            && |es| > 0 && s + |es| == End(pg, ki, snum - 1) <= |Flat(root)| && Flat(root)[s..s + |es|] == es
            && SortedEntries(Flat(root)) && SortedEntries(es) && es[0].key <= es[|es| - 1].key
  {
    hide Sound, Start, SortedEntries, FlatAll;
    PageOnPath(e, root, h, pg, ki, snum, snum - 1);
    LeafEntries(pg[snum - 1]);
    Window(root, pg, ki, snum, snum - 1);
    Weaken(e, root, h);
    FlatIsSorted(e, root, h);
    FirstToLast(pg[snum - 1].es);
  }

  /** The key is entry i of this page. */
  lemma Hit(e: Env, root: Tree, h: nat, pg: seq<Tree>, ki: seq<nat>, snum: nat, key: Key, i: nat)
    requires OnPath(e, root, h, pg, ki, snum) && pg[snum - 1].Leaf? && i < |pg[snum - 1].es| && pg[snum - 1].es[i].key == key
    ensures LeafPos(Flat(root), key) == Start(pg, ki, snum - 1) + i < |Flat(root)| && LookupFlat(Flat(root), key).Some?
  {
    hide Sound, Start, Flat, LeafPos;
    TopWindow(e, root, h, pg, ki, snum);
    var all, s := Flat(root), Start(pg, ki, snum - 1);
    assert all[s..s + |pg[snum - 1].es|][i] == all[s + i];
    FoundOn(all, key, s + i);
  }

  /** The key belongs inside this page. */
  lemma Inner(e: Env, root: Tree, h: nat, pg: seq<Tree>, ki: seq<nat>, snum: nat, key: Key)
    requires OnPath(e, root, h, pg, ki, snum) && pg[snum - 1].Leaf? && |pg[snum - 1].es| > 0
    requires pg[snum - 1].es[0].key <= key <= pg[snum - 1].es[|pg[snum - 1].es| - 1].key
    ensures LeafPos(Flat(root), key) == Start(pg, ki, snum - 1) + LeafPos(pg[snum - 1].es, key)
    ensures LookupFlat(Flat(root), key) == LookupFlat(pg[snum - 1].es, key)
  {
    hide Sound, Start, Flat, LeafPos, LookupFlat;
    TopWindow(e, root, h, pg, ki, snum);
    InWindow(Flat(root), Start(pg, ki, snum - 1), pg[snum - 1].es, key);
  }

  /** The key belongs after this page, which is the last one. */
  lemma Beyond(e: Env, root: Tree, h: nat, pg: seq<Tree>, ki: seq<nat>, snum: nat, key: Key)
    requires OnPath(e, root, h, pg, ki, snum) && pg[snum - 1].Leaf? && |pg[snum - 1].es| > 0
    requires pg[snum - 1].es[|pg[snum - 1].es| - 1].key < key && End(pg, ki, snum - 1) == |Flat(root)|
    ensures LeafPos(Flat(root), key) == |Flat(root)| && LookupFlat(Flat(root), key).None?
  {
    hide Sound, Start, Flat, LeafPos, LookupFlat;
    TopWindow(e, root, h, pg, ki, snum);
    InWindow(Flat(root), Start(pg, ki, snum - 1), pg[snum - 1].es, key);
    Ends(pg[snum - 1].es, key);
  }

  /** The key belongs before this page, which is the first one. */
  lemma Before(e: Env, root: Tree, h: nat, pg: seq<Tree>, ki: seq<nat>, snum: nat, key: Key)
    requires OnPath(e, root, h, pg, ki, snum) && pg[snum - 1].Leaf? && |pg[snum - 1].es| > 0
    requires key < pg[snum - 1].es[0].key && Start(pg, ki, snum - 1) == 0
    ensures LeafPos(Flat(root), key) == 0 < |Flat(root)| && LookupFlat(Flat(root), key).None?
  {
    hide Sound, Start, Flat, LeafPos, LookupFlat;
    TopWindow(e, root, h, pg, ki, snum);
    InWindow(Flat(root), Start(pg, ki, snum - 1), pg[snum - 1].es, key);
    Ends(pg[snum - 1].es, key);
  }

  lemma FirstToLast(es: seq<Entry>)
    requires SortedEntries(es) && |es| > 0
    ensures es[0].key <= es[|es| - 1].key
  {
  }

  lemma NoEntries(key: Key)
    ensures LeafPos([], key) == 0 && LookupFlat([], key).None?
  {
  }

  lemma Ends(es: seq<Entry>, key: Key)
    requires SortedEntries(es) && |es| > 0
    ensures key < es[0].key ==> LeafPos(es, key) == 0 && LookupFlat(es, key).None?
    ensures key > es[|es| - 1].key ==> LeafPos(es, key) == |es| && LookupFlat(es, key).None?
  {
    if key < es[0].key {
      LeafPosIs(es, key, 0);
    } else if key > es[|es| - 1].key {
      LeafPosIs(es, key, |es|);
    }
  }

  lemma EmptyOrNot(e: Env, d: Db)
    requires DbOk(e, d)
    ensures d.root.Some? ==> d.depth > 0 && |Flat(d.root.value)| > 0
  {
    if d.root.Some? {
      SoundIsNonEmpty(e, d.root.value, d.depth - 1);
    }
  }

  lemma OnlyPage(e: Env, root: Tree, h: nat, pg: seq<Tree>, ki: seq<nat>)
    requires OnPath(e, root, h, pg, ki, 1)
    ensures Start(pg, ki, 0) == 0 && End(pg, ki, 0) == |Flat(root)| && pg[0] == root
  {
  }

  /** The index on top is not part of the path. */
  lemma SamePath(e: Env, root: Tree, h: nat, pg: seq<Tree>, ki: seq<nat>, ki': seq<nat>, snum: nat)
    requires OnPath(e, root, h, pg, ki, snum) && |ki'| == |ki|
    requires forall l :: 0 <= l < snum - 1 ==> ki'[l] == ki[l]
    ensures OnPath(e, root, h, pg, ki', snum)
    ensures Start(pg, ki', snum - 1) == Start(pg, ki, snum - 1)
    ensures End(pg, ki', snum - 1) == End(pg, ki, snum - 1)
  {
    hide Sound;
    forall l | 0 <= l < snum - 1
      ensures Linked(pg, ki', l)
    {
      assert Linked(pg, ki, l);
    }
    StartFrame(pg, ki, pg, ki', snum - 1);
  }

  lemma RootOnPath(e: Env, root: Tree, h: nat, pg: seq<Tree>, ki: seq<nat>, snum: nat)
    requires OnPath(e, root, h, pg, ki, snum)
    ensures pg[0 := root] == pg
  {
  }

  lemma PathPrefix(e: Env, root: Tree, h: nat, pg: seq<Tree>, ki: seq<nat>, snum: nat, l: nat)
    requires OnPath(e, root, h, pg, ki, snum) && 0 < l <= snum
    ensures OnPath(e, root, h, pg, ki, l)
  {
  }

  lemma LeafEntries(t: Tree)
    requires t.Leaf?
    ensures Flat(t) == t.es && NumKeys(t) == |t.es|
  {
  }

  /** Only the chosen child matters to where the key belongs. */
  lemma SearchStep(e: Env, root: Tree, h: nat, pg: seq<Tree>, ki: seq<nat>, snum: nat, key: Key)
    requires OnPath(e, root, h, pg, ki, snum) && pg[snum - 1].Branch?
    ensures snum <= h
    ensures var t, i := pg[snum - 1], KidPos(pg[snum - 1].keys, key);
            && i < |t.kids|
            && LeafPos(Flat(t), key) == |FlatAll(t.kids[..i])| + LeafPos(Flat(t.kids[i]), key)
            && LookupFlat(Flat(t), key) == LookupFlat(Flat(t.kids[i]), key)
  {
    hide LeafPos, LookupFlat, DelFlat, KidPos, FlatAll, Start, Separated, AllSound, SortedEntries, Below, After, KeySizes, Sum, Sound, Between;
    PageOnPath(e, root, h, pg, ki, snum, snum - 1);
    var t := pg[snum - 1];
    KidsOf(e, t, h - (snum - 1), true);
    KidAround(e, t.keys, t.kids, h - snum, key);
    var i := KidPos(t.keys, key);
    LeafPosInside(FlatAll(t.kids[..i]), Flat(t.kids[i]), FlatAll(t.kids[i + 1..]), key);
    KidMatters(e, t.keys, t.kids, h - snum, key);
    FlatAt(t.kids, i);
  }

  // ---------------------------------------------------------------- reading

  /** The node under the cursor is the entry at its place in the database. */
  lemma CurrentEntry(c: Cursor)
    requires c.Valid() && c.initialized && c.OnEntry()
    ensures c.pg[c.snum - 1].Leaf? && c.ki[c.snum - 1] < |c.pg[c.snum - 1].es| && c.Pos() < |c.All()|
    ensures c.pg[c.snum - 1].es[c.ki[c.snum - 1]] == c.All()[c.Pos()]
  {
    hide Sound, Start, OnPath, Flat, DbOk;
    ghost var root, l := c.d.root.value, c.snum - 1;
    PageOnPath(c.e, root, c.d.depth - 1, c.pg, c.ki, c.snum, l);
    LeafEntries(c.pg[l]);
    WindowOnPath(c.e, root, c.d.depth - 1, c.pg, c.ki, c.snum);
    assert Flat(root)[Start(c.pg, c.ki, l)..End(c.pg, c.ki, l)][c.ki[l]] == c.pg[l].es[c.ki[l]];
  }

  lemma WindowOnPath(e: Env, root: Tree, h: nat, pg: seq<Tree>, ki: seq<nat>, snum: nat)
    requires OnPath(e, root, h, pg, ki, snum)
    ensures End(pg, ki, snum - 1) <= |Flat(root)|
    ensures Flat(root)[Start(pg, ki, snum - 1)..End(pg, ki, snum - 1)] == Flat(pg[snum - 1])
  {
    hide Sound, Start, Flat;
    Window(root, pg, ki, snum, snum - 1);
  }

  /** First, then Next until it fails, lists every entry once, in order. */
  method List(ghost e: Env, d: Db) returns (entries: seq<Entry>)
    requires DbOk(e, d) && d.depth <= CURSOR_STACK
    ensures entries == if d.root.None? then [] else Flat(d.root.value)
  {
    hide DbOk, Flat, Start, OnPath, Sound;
    var c := new Cursor(e, d);
    ghost var all := c.All();
    entries := [];
    var more := c.First();
    while more
      invariant fresh(c) && c.Valid() && c.d == d && |entries| <= |all| && entries == all[..|entries|]
      invariant more ==> c.initialized && c.OnEntry() && c.Pos() == |entries| < |all|
      invariant !more ==> |entries| == |all|
      decreases |all| - |entries|, more
    {
      CurrentEntry(c);
      var top := c.snum - 1;
      entries := entries + [c.pg[top].es[c.ki[top]]];
      more := c.Next();
    }
  }

  /** What a search of the entries finds is what the map holds. */
  lemma SearchIsMap(e: Env, d: Db, key: Key)
    requires DbOk(e, d)
    ensures LookupFlat(if d.root.None? then [] else Flat(d.root.value), key) ==
            if key in Contents(d) then Some(Contents(d)[key]) else None
  {
    hide Sound, Flat, LookupFlat;
    if d.root.None? {
      NoEntries(key);
    } else {
      DbRoot(e, d);
      LookupFlatIsMap(Flat(d.root.value), key);
    }
  }
}
