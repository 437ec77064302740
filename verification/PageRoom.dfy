/**
 The sizes that the B+tree reckons with are those of the pages' bytes: a page that holds a tree
 node has just the room left that the tree says, and mdb_node_add finds room exactly when it does.
 */
module PageRoom {
  import opened Sizes
  import opened BTree
  import L = NodeLayout
  import S = SlottedPage

  /** A leaf node with the lengths of entry x; big data is a page number. */
  predicate IsEntry(e: Env, x: Entry, n: L.Node) {
    |n.key| == e.ksize(x.key) && |n.data| == if x.big then PGNO_SIZE else e.vsize(x.val)
  }

  /** A branch node with the length of separator k. */
  predicate IsKey(e: Env, k: Key, n: L.Node) {
    |n.key| == e.ksize(k) && n.data == []
  }

  /** The nodes of a page that holds t; the first node of a branch has no key. */
  ghost predicate Stores(e: Env, t: Tree, nodes: seq<L.Node>) {
    if t.Leaf? then
      && |nodes| == |t.es|
      && forall i :: 0 <= i < |nodes| ==> IsEntry(e, t.es[i], nodes[i])
    else
      && |nodes| == |t.keys| + 1
      && nodes[0].key == [] && nodes[0].data == []
      && forall i :: 0 < i < |nodes| ==> IsKey(e, t.keys[i - 1], nodes[i])
  }

  ghost predicate Holds(e: Env, p: S.Page, t: Tree)
    reads p, p.mem
  {
    p.Valid() && p.leaf == t.Leaf? && p.mem.Length == e.psize && Stores(e, t, p.Contents())
  }

  /** Node for node, the bytes take what the tree reckons. */
  lemma SizesAgree(e: Env, t: Tree, nodes: seq<L.Node>)
    requires Stores(e, t, nodes)
    ensures S.SlotSizes(nodes) == NodeSizes(e, t)
  {
    var a, b := S.SlotSizes(nodes), NodeSizes(e, t);
    forall i | 0 <= i < |nodes|
      ensures a[i] == b[i]
    {
      assert S.PackedLen(nodes[i]) == Even(NODESIZE + |nodes[i].key| + |nodes[i].data|);
      assert t.Leaf? ==> IsEntry(e, t.es[i], nodes[i]);
      assert t.Branch? && i > 0 ==> IsKey(e, t.keys[i - 1], nodes[i]);
    }
  }

  /** SIZELEFT is the page's capacity less what the tree node uses, so a page never overflows. */
  lemma RoomIs(e: Env, p: S.Page, t: Tree)
    requires Holds(e, p, t)
    ensures p.SizeLeft() == PageMax(e) - Used(e, t)
    ensures 0 <= p.SizeLeft() && Used(e, t) <= PageMax(e)
  {
    hide Stores, NodeSizes, S.SlotSizes, Sum;
    S.SizeLeftIsExact(p);
    SizesAgree(e, t, p.Contents());
    S.RoomAtLeast(p);
  }

  /** mdb_node_add has room for an entry exactly when the leaf with it fits a page. */
  lemma EntryFits(e: Env, p: S.Page, es: seq<Entry>, i: nat, x: Entry, n: L.Node)
    requires Holds(e, p, Leaf(es)) && i <= |es| && IsEntry(e, x, n)
    ensures S.PackedLen(n) + SLOT <= p.SizeLeft() <==> Sum(LeafSizes(e, es[..i] + [x] + es[i..])) <= PageMax(e)
    ensures S.PackedLen(n) + SLOT == LeafSlot(e, x)
  {
    hide Holds, LeafSizes, Sum;
    RoomIs(e, p, Leaf(es));
    LeafSizesInsert(e, es, i, x);
    assert Used(e, Leaf(es)) == Sum(LeafSizes(e, es));
  }

  /** And for a separator exactly when mdb_page_split, which does not round up, finds room for it. */
  lemma SeparatorFits(e: Env, p: S.Page, keys: seq<Key>, kids: seq<Tree>, s: Key, n: L.Node)
    requires Holds(e, p, Branch(keys, kids)) && IsKey(e, s, n)
    ensures S.PackedLen(n) + SLOT <= p.SizeLeft() <==> !(PageMax(e) - Sum(KeySizes(e, keys)) < NODESIZE + e.ksize(s) + SLOT)
    ensures S.PackedLen(n) + SLOT == KeySlot(e, s)
  {
    hide Holds, KeySizes, Sum;
    RoomIs(e, p, Branch(keys, kids));
    KeySizesEven(e, keys);
    assert Used(e, Branch(keys, kids)) == Sum(KeySizes(e, keys));
  }

  /** So adding an entry to a page that holds a leaf gives a page that holds the longer leaf. */
  method AddEntry(e: Env, p: S.Page, es: seq<Entry>, i: nat, x: Entry, n: L.Node) returns (ok: bool)
    requires Holds(e, p, Leaf(es)) && i <= |es| && IsEntry(e, x, n) && S.Storable(n, true)
    modifies p, p.mem
    ensures ok <==> Sum(LeafSizes(e, es[..i] + [x] + es[i..])) <= PageMax(e)
    ensures Holds(e, p, Leaf(if ok then es[..i] + [x] + es[i..] else es))
  {
    hide LeafSizes, Sum, S.PageOk, S.AllNodes, S.Views, S.PackedLen, S.Storable, IsEntry;
    EntryFits(e, p, es, i, x, n);
    ghost var was := p.Contents();
    S.CountIs(p);
    ok := p.AddNode(i, n);
    if ok {
      StoresMore(e, es, was, i, x, n);
    }
  }

  lemma StoresMore(e: Env, es: seq<Entry>, nodes: seq<L.Node>, i: nat, x: Entry, n: L.Node)
    requires Stores(e, Leaf(es), nodes) && i <= |es| && IsEntry(e, x, n)
    ensures Stores(e, Leaf(es[..i] + [x] + es[i..]), L.Insert(nodes, i, n))
  {
    hide IsEntry;
    var es', nodes' := es[..i] + [x] + es[i..], L.Insert(nodes, i, n);
    forall j | 0 <= j < |nodes'|
      ensures IsEntry(e, es'[j], nodes'[j])
    {
      var k := if j < i then j else j - 1;
      assert j != i ==> IsEntry(e, es[k], nodes[k]);
    }
  }
}
