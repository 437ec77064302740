/** Deletion: mdb_cursor_del0, mdb_rebalance, mdb_node_move and mdb_page_merge on the tree. */
module BTreeDelete {
  import opened Base
  import opened Sizes
  import opened BTree

  /**
   What a deletion makes of a page. `check`: the page itself lost a node, so that
   mdb_rebalance looks at it next.
   */
  datatype Shrunk = Shrunk(g: Grown, check: bool)

  /** The lowest key below a page (mdb_page_search_lowest). */
  function Lowest(t: Tree): Key
    decreases t
  {
    match t
    case Leaf(es) => if es == [] then 0 else es[0].key
    case Branch(_, kids) => if kids == [] then 0 else Lowest(kids[0])
  }

  /** FILL_THRESHOLD for leaves, 1 for branches, in tenths of a percent. */
  function Threshold(t: Tree): nat {
    if t.Leaf? then 250 else 1
  }

  function PageFill(e: Env, t: Tree): int {
    1000 * Used(e, t) / PageMax(e)
  }

  predicate NeedsNoRebalance(e: Env, t: Tree) {
    PageFill(e, t) >= Threshold(t) && NumKeys(t) >= MinKeys(t)
  }

  predicate CanSpareNode(e: Env, t: Tree) {
    PageFill(e, t) >= Threshold(t) && NumKeys(t) > MinKeys(t)
  }

  /** Pages of the same level. */
  predicate Alike(a: Tree, b: Tree) {
    match a
    case Leaf(_) => b.Leaf?
    case Branch(keys, kids) => b.Branch? && |kids| == |keys| + 1 && |b.kids| == |b.keys| + 1
  }

  /** mdb_page_merge: all nodes of b go to the end of a. */
  function Merged(a: Tree, b: Tree): Tree
    requires Alike(a, b)
  {
    if a.Leaf? then Leaf(a.es + b.es)
    else Branch(a.keys + [Lowest(b)] + b.keys, a.kids + b.kids)
  }

  /** mdb_node_move from the left: a's last node becomes b's first. */
  function MovedRight(e: Env, a: Tree, b: Tree): Grown
    requires Alike(a, b) && NumKeys(a) >= 2
  {
    var n := NumKeys(a);
    if a.Leaf? then
      var x := a.es[n - 1];
      if PageMax(e) - Used(e, b) < LeafSlot(e, x) then Full
      else Two(Leaf(a.es[..n - 1]), x.key, Leaf([x] + b.es))
    else
      var s := a.keys[n - 2];
      // b's first node gets a key before the new one is put in front of it
      if PageMax(e) - Used(e, b) < KeySlot(e, Lowest(b)) - FIRST_SLOT + KeySlot(e, s) then Full
      else Two(Branch(a.keys[..n - 2], a.kids[..n - 1]), s, Branch([Lowest(b)] + b.keys, [a.kids[n - 1]] + b.kids))
  }

  /** mdb_node_move from the right: b's first node becomes a's last. */
  function MovedLeft(e: Env, a: Tree, b: Tree): Grown
    requires Alike(a, b) && NumKeys(b) >= 2
  {
    if a.Leaf? then
      var x := b.es[0];
      if PageMax(e) - Used(e, a) < LeafSlot(e, x) then Full
      else Two(Leaf(a.es + [x]), b.es[1].key, Leaf(b.es[1..]))
    else
      if PageMax(e) - Used(e, a) < KeySlot(e, Lowest(b)) then Full
      else Two(Branch(a.keys + [Lowest(b)], a.kids + [b.kids[0]]), b.keys[0], Branch(b.keys[1..], b.kids[1..]))
  }

  /** mdb_update_key on separator l, after its neighbours have become those in kids. */
  function UpdateKey(e: Env, keys: seq<Key>, kids: seq<Tree>, l: nat, s: Key): Grown
    requires l < |keys| && |kids| == |keys| + 1
  {
    var old' := Even(e.ksize(keys[l]));
    var new' := Even(e.ksize(s));
    if new' > old' && PageMax(e) < Sum(KeySizes(e, keys)) + (new' - old') then
      SplitBranch(e, keys[l := s], kids, l + 1)
    else One(Branch(keys[l := s], kids))
  }

  /** mdb_rebalance of child i, which lost a node. */
  function Rebalance(e: Env, keys: seq<Key>, kids: seq<Tree>, i: nat): Shrunk
    requires i < |kids| == |keys| + 1
  {
    if NeedsNoRebalance(e, kids[i]) then Shrunk(One(Branch(keys, kids)), false)
    else if |kids| < 2 then Shrunk(Full, false)  // never: a branch has two children
    else
      var l := if i == 0 then 0 else i - 1;
      var neighbour := if i == 0 then kids[1] else kids[i - 1];
      var a, b := kids[l], kids[l + 1];
      if !Alike(a, b) then Shrunk(Full, false)  // never: leaves have one depth
      else if CanSpareNode(e, neighbour) then
        var m := if i == 0 then MovedLeft(e, a, b) else MovedRight(e, a, b);
        if m.Two? then Shrunk(UpdateKey(e, keys, kids[l := m.left][l + 1 := m.right], l, m.sep), false)
        else Shrunk(Full, false)
      else if Used(e, Merged(a, b)) > PageMax(e) then Shrunk(Full, false)
      else Shrunk(One(WithoutKid(keys, kids, l, Merged(a, b))), true)
  }

  /** The branch after children l and l + 1 have become one. */
  function WithoutKid(keys: seq<Key>, kids: seq<Tree>, l: nat, t: Tree): Tree
    requires l < |keys| && |kids| == |keys| + 1
  {
    Branch(keys[..l] + keys[l + 1..], kids[..l] + [t] + kids[l + 2..])
  }

  /** The branch after its child i has become r. */
  function Shrink(e: Env, keys: seq<Key>, kids: seq<Tree>, i: nat, r: Shrunk): Shrunk
    requires i < |kids| == |keys| + 1
  {
    if r.g.One? && r.check then Rebalance(e, keys, kids[i := r.g.t], i)
    else Shrunk(ReplaceKid(e, keys, kids, i, r.g), false)
  }

  function DelTree(e: Env, t: Tree, k: Key): Shrunk
    decreases t
  {
    match t
    case Leaf(es) =>
      var i := LeafPos(es, k);
      if FoundAt(es, i, k) then Shrunk(One(Leaf(Without1(es, i))), true) else Shrunk(Full, false)
    case Branch(keys, kids) =>
      if |kids| != |keys| + 1 then Shrunk(Full, false) else
      var i := KidPos(keys, k);
      Shrink(e, keys, kids, i, DelTree(e, kids[i], k))
  }

  /** What mdb_cursor_set finds, following one child on each level. */
  function Lookup(t: Tree, k: Key): Option<Val>
    decreases t
  {
    match t
    case Leaf(es) => if FoundAt(es, LeafPos(es, k), k) then Some(es[LeafPos(es, k)].val) else None
    case Branch(keys, kids) =>
      if |kids| != |keys| + 1 then None else Lookup(kids[KidPos(keys, k)], k)
  }

  /** The root page after a deletion: emptied, collapsed into its only child, or left as it is. */
  function ShrinkRoot(t: Tree, depth: nat): Db {
    if NumKeys(t) == 0 then Db(None, 0)
    else if t.Branch? && |t.kids| == 1 && depth > 0 then Db(Some(t.kids[0]), depth - 1)
    else Db(Some(t), depth)
  }

  datatype DelResult = Deleted(d: Db) | NotFound | Failed

  /** mdb_del. `Failed`: MDB_PAGE_FULL, from a branch split; the transaction is unusable. */
  function Del(e: Env, d: Db, k: Key): DelResult {
    if d.root.None? || Lookup(d.root.value, k).None? then NotFound
    else
      var r := DelTree(e, d.root.value, k);
      match r.g
      case Full => Failed
      case One(t) => Deleted(if r.check then ShrinkRoot(t, d.depth) else Db(Some(t), d.depth))
      case Two(a, s, b) => Deleted(Db(Some(Branch([s], [a, b])), d.depth + 1))
  }
}
