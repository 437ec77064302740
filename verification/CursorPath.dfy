/** The page stack of a cursor as a path from the root, and the place it denotes. */
module CursorPath {
  import opened Sizes
  import opened BTree
  import opened BTreePut
  import opened BTreeDeleteProofs

  /** Each page is the child that the page above it points to. */
  ghost predicate Linked(pg: seq<Tree>, ki: seq<nat>, l: nat)
    requires l + 1 < |pg| == |ki|
  {
    pg[l].Branch? && ki[l] < |pg[l].kids| && pg[l + 1] == pg[l].kids[ki[l]]
  }

  ghost predicate Path(root: Tree, pg: seq<Tree>, ki: seq<nat>, snum: nat) {
    && 0 < snum <= |pg| == |ki|
    && pg[0] == root
    && forall l :: 0 <= l < snum - 1 ==> Linked(pg, ki, l)
  }

  /** How many entries of the tree come before the page at level l. */
  ghost function Start(pg: seq<Tree>, ki: seq<nat>, l: nat): nat
    requires l < |pg| == |ki|
  {
    if l == 0 || !pg[l - 1].Branch? || ki[l - 1] > |pg[l - 1].kids| then 0
    else Start(pg, ki, l - 1) + |FlatAll(pg[l - 1].kids[..ki[l - 1]])|
  }

  lemma {:induction false} StartFrame(pg: seq<Tree>, ki: seq<nat>, pg': seq<Tree>, ki': seq<nat>, l: nat)
    requires l < |pg| == |ki| == |pg'| == |ki'|
    requires forall i :: 0 <= i < l ==> pg[i] == pg'[i] && ki[i] == ki'[i]
    ensures Start(pg, ki, l) == Start(pg', ki', l)
  {
    if l > 0 {
      StartFrame(pg, ki, pg', ki', l - 1);
    }
  }

  /** Every page on the path is sound, at its height. */
  lemma {:induction false} PathSound(e: Env, root: Tree, h: nat, pg: seq<Tree>, ki: seq<nat>, snum: nat, l: nat)
    requires Sound(e, root, h, false) && Path(root, pg, ki, snum) && l < snum
    ensures l <= h && Sound(e, pg[l], h - l, false) && (l > 0 ==> Sound(e, pg[l], h - l, true))
  {
    hide Separated, KeySizes, Sum, FlatAll, Sound, AllSound;
    if l > 0 {
      PathSound(e, root, h, pg, ki, snum, l - 1);
      assert Linked(pg, ki, l - 1);
      var t := pg[l - 1];
      KidsOf(e, t, h - (l - 1), false);
      KidIsSound(e, t.kids, h - l, ki[l - 1]);
      Weaken(e, pg[l], h - l);
    }
  }

  lemma SubWindow(all: seq<Entry>, s: nat, w: seq<Entry>, a: seq<Entry>, k: seq<Entry>, b: seq<Entry>)
    requires s + |w| <= |all| && all[s..s + |w|] == w && w == a + k + b
    ensures s + |a| + |k| <= |all| && all[s + |a|..s + |a| + |k|] == k
  {
    forall i | 0 <= i < |k|
      ensures all[s + |a|..s + |a| + |k|][i] == k[i]
    {
      assert all[s..s + |w|][|a| + i] == w[|a| + i];
    }
  }

  /** The entries of the page at level l lie together in the tree's, from Start(l) on. */
  lemma {:induction false} Window(root: Tree, pg: seq<Tree>, ki: seq<nat>, snum: nat, l: nat)
    requires Path(root, pg, ki, snum) && l < snum
    ensures Start(pg, ki, l) + |Flat(pg[l])| <= |Flat(root)|
    ensures Flat(root)[Start(pg, ki, l)..Start(pg, ki, l) + |Flat(pg[l])|] == Flat(pg[l])
  {
    if l > 0 {
      hide FlatAll;
      Window(root, pg, ki, snum, l - 1);
      assert Linked(pg, ki, l - 1);
      var kids, i := pg[l - 1].kids, ki[l - 1];
      FlatAt(kids, i);
      SubWindow(Flat(root), Start(pg, ki, l - 1), FlatAll(kids), FlatAll(kids[..i]), Flat(kids[i]), FlatAll(kids[i + 1..]));
    }
  }

  /** Descending to child i from the page on top. */
  lemma Pushed(root: Tree, pg: seq<Tree>, ki: seq<nat>, snum: nat, i: nat, pg': seq<Tree>, ki': seq<nat>)
    requires Path(root, pg, ki, snum) && snum < |pg|
    requires pg[snum - 1].Branch? && i < |pg[snum - 1].kids|
    requires pg' == pg[snum := pg[snum - 1].kids[i]] && |ki'| == |ki|
    requires ki'[snum - 1] == i && forall l :: 0 <= l < snum - 1 ==> ki'[l] == ki[l]
    ensures Path(root, pg', ki', snum + 1)
    ensures Start(pg', ki', snum) == Start(pg, ki, snum - 1) + |FlatAll(pg[snum - 1].kids[..i])|
  {
    forall l | 0 <= l < snum
      ensures Linked(pg', ki', l)
    {
      assert l < snum - 1 ==> Linked(pg, ki, l);
    }
    StartFrame(pg, ki, pg', ki', snum - 1);
  }

  lemma Popped(root: Tree, pg: seq<Tree>, ki: seq<nat>, snum: nat)
    requires Path(root, pg, ki, snum) && snum > 1
    ensures Path(root, pg, ki, snum - 1) && Linked(pg, ki, snum - 2)
    ensures Start(pg, ki, snum - 1) == Start(pg, ki, snum - 2) + |FlatAll(pg[snum - 2].kids[..ki[snum - 2]])|
  {
  }

  /** The next child begins where this one ends. */
  lemma NextKid(kids: seq<Tree>, i: nat)
    requires i < |kids|
    ensures |FlatAll(kids[..i + 1])| == |FlatAll(kids[..i])| + |Flat(kids[i])|
    ensures |FlatAll(kids[..i + 1])| <= |FlatAll(kids)|
    ensures i + 1 == |kids| ==> |FlatAll(kids)| == |FlatAll(kids[..i])| + |Flat(kids[i])|
    ensures i + 1 < |kids| ==> |FlatAll(kids[..i + 1])| + |Flat(kids[i + 1])| <= |FlatAll(kids)|
  {
    hide Flat, FlatAll;
    assert kids[..i + 1] == kids[..i] + [kids[i]];
    FlatConcat(kids[..i], [kids[i]]);
    FlatOne(kids[i]);
    assert kids == kids[..i + 1] + kids[i + 1..];
    FlatConcat(kids[..i + 1], kids[i + 1..]);
    if i + 1 == |kids| {
      assert kids[..i + 1] == kids;
    } else {
      FlatAt(kids, i + 1);
    }
  }
}
