/**
 The B+tree as a value: what mdb_cursor_put and mdb_cursor_del make of the tree of pages, with
 the same splits, moves, merges and separators. Page numbers and cursors are in other modules.
 */
module BTree {
  import opened Base
  import opened Sizes
  import opened SplitPoint

  /** Node 0 of a branch page has no key, so a branch has one separator less than children. */
  datatype Tree =
    | Leaf(es: seq<Entry>)
    | Branch(keys: seq<Key>, kids: seq<Tree>)

  /** A put or a separator update may split a page, or fail with MDB_PAGE_FULL. */
  datatype Grown = One(t: Tree) | Two(left: Tree, sep: Key, right: Tree) | Full

  // ---------------------------------------------------------------- contents

  function Flat(t: Tree): seq<Entry> {
    match t
    case Leaf(es) => es
    case Branch(_, kids) => FlatAll(kids)
  }

  function FlatAll(ts: seq<Tree>): seq<Entry> {
    if ts == [] then [] else Flat(ts[0]) + FlatAll(ts[1..])
  }

  function FlatGrown(g: Grown): seq<Entry>
    requires !g.Full?
  {
    if g.One? then Flat(g.t) else Flat(g.left) + Flat(g.right)
  }

  // ---------------------------------------------------------------- sizes

  function LeafSizes(e: Env, es: seq<Entry>): (s: seq<nat>)
    ensures |s| == |es| && forall i :: 0 <= i < |es| ==> s[i] == LeafSlot(e, es[i])
  {
    seq(|es|, i requires 0 <= i < |es| => LeafSlot(e, es[i]))
  }

  function KeySizes(e: Env, keys: seq<Key>): (s: seq<nat>)
    ensures |s| == |keys| + 1 && s[0] == FIRST_SLOT
    ensures forall i :: 0 < i < |s| ==> s[i] == KeySlot(e, keys[i - 1])
  {
    [FIRST_SLOT] + seq(|keys|, i requires 0 <= i < |keys| => KeySlot(e, keys[i]))
  }

  function NodeSizes(e: Env, t: Tree): seq<nat> {
    if t.Leaf? then LeafSizes(e, t.es) else KeySizes(e, t.keys)
  }

  /** Page space taken, slots included. */
  function Used(e: Env, t: Tree): nat {
    Sum(NodeSizes(e, t))
  }

  function NumKeys(t: Tree): nat {
    if t.Leaf? then |t.es| else |t.kids|
  }

  // ---------------------------------------------------------------- search

  /** The first entry not less than k (mdb_node_search on a leaf). */
  function LeafPos(es: seq<Entry>, k: Key): (i: nat)
    ensures i <= |es|
  {
    if es == [] || es[0].key >= k then 0 else 1 + LeafPos(es[1..], k)
  }

  /** The child to follow: as many as there are separators not greater than k. */
  function KidPos(keys: seq<Key>, k: Key): (i: nat)
    ensures i <= |keys|
  {
    if keys == [] || keys[0] > k then 0 else 1 + KidPos(keys[1..], k)
  }

  predicate FoundAt(es: seq<Entry>, i: nat, k: Key) {
    i < |es| && es[i].key == k
  }

  // ---------------------------------------------------------------- well-formedness

  predicate SortedEntries(es: seq<Entry>) {
    forall i, j :: 0 <= i < j < |es| ==> es[i].key < es[j].key
  }

  predicate SortedKeys(keys: seq<Key>) {
    forall i, j :: 0 <= i < j < |keys| ==> keys[i] < keys[j]
  }

  predicate Above(es: seq<Entry>, lo: Key) {
    forall j :: 0 <= j < |es| ==> lo <= es[j].key
  }

  predicate Below(es: seq<Entry>, hi: Key) {
    forall j :: 0 <= j < |es| ==> es[j].key < hi
  }

  /** All entries lie between the separators around child i. */
  predicate Between(keys: seq<Key>, i: nat, es: seq<Entry>)
    requires i <= |keys|
  {
    && (i > 0 ==> Above(es, keys[i - 1]))
    && (i < |keys| ==> Below(es, keys[i]))
  }

  predicate Separated(keys: seq<Key>, kids: seq<Tree>) {
    && |kids| == |keys| + 1
    && SortedKeys(keys)
    && forall i :: 0 <= i < |kids| ==> Between(keys, i, Flat(kids[i]))
  }

  predicate EntriesOk(e: Env, es: seq<Entry>)
  {
    SortedEntries(es) && forall i :: 0 <= i < |es| ==> EntryOk(e, es[i])
  }

  /**
   A tree of height h: all leaves at the same depth, separators bound their subtrees, every
   page fits, and every page below the top one has its minimum of 1 key or 2 children.
   The top page needs its minimum only if `full`.
   */
  predicate Sound(e: Env, t: Tree, h: nat, full: bool)
    decreases t
  {
    && Used(e, t) <= PageMax(e)
    && (full ==> NumKeys(t) >= MinKeys(t))
    && match t
       case Leaf(es) => h == 0 && EntriesOk(e, es)
       case Branch(keys, kids) =>
         && h > 0
         && Separated(keys, kids)
         && AllSound(e, kids, h - 1)
  }

  predicate AllSound(e: Env, kids: seq<Tree>, h: nat)
    decreases kids
  {
    forall i :: 0 <= i < |kids| ==> Sound(e, kids[i], h, true)
  }

  lemma SoundBranch(e: Env, t: Tree, h: nat, full: bool)
    requires t.Branch?
    ensures Sound(e, t, h, full) <==>
            && h > 0 && Separated(t.keys, t.kids) && AllSound(e, t.kids, h - 1)
            && Sum(KeySizes(e, t.keys)) <= PageMax(e) && (full ==> |t.kids| >= 2)
  {
  }

  lemma SoundLeaf(e: Env, es: seq<Entry>, h: nat, full: bool)
    ensures Sound(e, Leaf(es), h, full) <==>
            h == 0 && EntriesOk(e, es) && Sum(LeafSizes(e, es)) <= PageMax(e) && (full ==> |es| >= 1)
  {
  }

  function MinKeys(t: Tree): nat {
    if t.Leaf? then 1 else 2
  }

  // ---------------------------------------------------------------- splitting

  /** Divides the entries of an overfull leaf; the entry at newindx is the new one. */
  function SplitLeaf(e: Env, c: seq<Entry>, newindx: nat): Grown
    requires newindx < |c|
  {
    if |c| < 3 then Full else  // never: two nodes always fit on a page
    var j := SplitIndex(LeafSizes(e, c), newindx, true, PageMax(e));
    if j < |c| && Sum(LeafSizes(e, c[..j])) <= PageMax(e) && Sum(LeafSizes(e, c[j..])) <= PageMax(e)
    then Two(Leaf(c[..j]), c[j].key, Leaf(c[j..]))
    else Full
  }

  /** Divides an overfull branch; its right part's first node loses its key to the parent. */
  function SplitBranch(e: Env, keys: seq<Key>, kids: seq<Tree>, newindx: nat): Grown
    requires newindx < |kids| == |keys| + 1
  {
    if |kids| < 3 then Full else
    var j := SplitIndex(KeySizes(e, keys), newindx, false, PageMax(e));
    if 0 < j < |kids| && Sum(KeySizes(e, keys[..j - 1])) <= PageMax(e) && Sum(KeySizes(e, keys[j..])) <= PageMax(e)
    then Two(Branch(keys[..j - 1], kids[..j]), keys[j - 1], Branch(keys[j..], kids[j..]))
    else Full
  }

  /** Child i was split into a and b: a node for b is added, if need be by splitting this page. */
  function AddKid(e: Env, keys: seq<Key>, kids: seq<Tree>, i: nat, a: Tree, s: Key, b: Tree): Grown
    requires i < |kids| == |keys| + 1
  {
    var keys' := keys[..i] + [s] + keys[i..];
    var kids' := kids[..i] + [a, b] + kids[i + 1..];
    // the check of mdb_page_split does not round the node size up
    if PageMax(e) - Sum(KeySizes(e, keys)) < NODESIZE + e.ksize(s) + SLOT then
      SplitBranch(e, keys', kids', i + 1)
    else One(Branch(keys', kids'))
  }

  lemma KeySizesInsert(e: Env, keys: seq<Key>, i: nat, s: Key)
    requires i <= |keys|
    ensures KeySizes(e, keys[..i] + [s] + keys[i..]) ==
            KeySizes(e, keys)[..i + 1] + [KeySlot(e, s)] + KeySizes(e, keys)[i + 1..]
    ensures Sum(KeySizes(e, keys[..i] + [s] + keys[i..])) == Sum(KeySizes(e, keys)) + KeySlot(e, s)
  {
    var c, c' := KeySizes(e, keys), KeySizes(e, keys[..i] + [s] + keys[i..]);
    assert c' == c[..i + 1] + [KeySlot(e, s)] + c[i + 1..];
    Without(c', i + 1);
    SumSplit(c, i + 1);
    assert c'[..i + 1] == c[..i + 1] && c'[i + 2..] == c[i + 1..];
  }

  lemma KeySizesEven(e: Env, keys: seq<Key>)
    ensures Sum(KeySizes(e, keys)) % 2 == 0
    ensures forall i :: 0 <= i <= |keys| ==> FIRST_SLOT <= KeySizes(e, keys)[i] <= 522
  {
    forall i | 0 <= i < |keys|
      ensures 12 <= KeySlot(e, keys[i]) <= 522 && KeySlot(e, keys[i]) % 2 == 0
    {
      SlotLimits(e, Entry(0, 0, true), keys[i]);
    }
    SumEven(KeySizes(e, keys));
  }

  /** The unrounded check is enough: free space is always even. */
  lemma BranchOverfull(e: Env, keys: seq<Key>, i: nat, s: Key)
    requires i <= |keys| && Sum(KeySizes(e, keys)) <= PageMax(e)
    ensures PageMax(e) - Sum(KeySizes(e, keys)) < NODESIZE + e.ksize(s) + SLOT <==>
            Overfull(KeySizes(e, keys[..i] + [s] + keys[i..]), i + 1, PageMax(e))
  {
    KeySizesInsert(e, keys, i, s);
    KeySizesEven(e, keys);
    KeySizesEven(e, keys[..i] + [s] + keys[i..]);
  }

  lemma LeafSizesInsert(e: Env, es: seq<Entry>, i: nat, x: Entry)
    requires i <= |es|
    ensures LeafSizes(e, es[..i] + [x] + es[i..])[i] == LeafSlot(e, x)
    ensures Sum(LeafSizes(e, es[..i] + [x] + es[i..])) == Sum(LeafSizes(e, es)) + LeafSlot(e, x)
  {
    var c, c' := LeafSizes(e, es), LeafSizes(e, es[..i] + [x] + es[i..]);
    Without(c', i);
    SumSplit(c, i);
    assert c'[..i] == c[..i] && c'[i + 1..] == c[i..];
  }

  lemma LeafOverfull(e: Env, es: seq<Entry>, i: nat, x: Entry)
    requires i <= |es| && EntryOk(e, x)
    requires forall j :: 0 <= j < |es| ==> EntryOk(e, es[j])
    requires Sum(LeafSizes(e, es)) <= PageMax(e) < Sum(LeafSizes(e, es)) + LeafSlot(e, x)
    ensures Overfull(LeafSizes(e, es[..i] + [x] + es[i..]), i, PageMax(e))
  {
    LeafSizesInsert(e, es, i, x);
    var c := es[..i] + [x] + es[i..];
    forall j | 0 <= j < |c|
      ensures FIRST_SLOT <= LeafSlot(e, c[j]) && 2 * LeafSlot(e, c[j]) <= PageMax(e)
    {
      SlotLimits(e, c[j], 0);
    }
  }

  // ---------------------------------------------------------------- put

  function Without1(es: seq<Entry>, i: nat): seq<Entry>
    requires i < |es|
  {
    es[..i] + es[i + 1..]
  }

  lemma LeafSizesWithout(e: Env, es: seq<Entry>, i: nat)
    requires i < |es|
    ensures Sum(LeafSizes(e, es)) == Sum(LeafSizes(e, Without1(es, i))) + LeafSlot(e, es[i])
  {
    assert es == Without1(es, i)[..i] + [es[i]] + Without1(es, i)[i..];
    LeafSizesInsert(e, Without1(es, i), i, es[i]);
  }

  /** Adds x at index i of a leaf, by mdb_node_add or mdb_page_split. */
  function AddEntry(e: Env, es: seq<Entry>, i: nat, x: Entry): Grown
    requires i <= |es|
  {
    var c := es[..i] + [x] + es[i..];
    if PageMax(e) - Sum(LeafSizes(e, es)) < LeafSlot(e, x) then SplitLeaf(e, c, i)
    else One(Leaf(c))
  }

  /** Stores k, v in a leaf. `inPlace`: an existing overflow page is dirty and large enough. */
  function PutLeaf(e: Env, es: seq<Entry>, k: Key, v: Val, inPlace: bool): Grown {
    var i := LeafPos(es, k);
    var x := NewEntry(e, k, v);
    if !FoundAt(es, i, k) then AddEntry(e, es, i, x)
    else if es[i].big && inPlace then One(Leaf(es[i := Entry(k, v, true)]))
    else if !es[i].big && e.vsize(v) == e.vsize(es[i].val) then One(Leaf(es[i := Entry(k, v, false)]))
    else AddEntry(e, Without1(es, i), i, x)
  }

  function PutTree(e: Env, t: Tree, k: Key, v: Val, inPlace: bool): Grown
    decreases t
  {
    match t
    case Leaf(es) => PutLeaf(e, es, k, v, inPlace)
    case Branch(keys, kids) =>
      if |kids| != |keys| + 1 then Full else  // not a branch page
      var i := KidPos(keys, k);
      ReplaceKid(e, keys, kids, i, PutTree(e, kids[i], k, v, inPlace))
  }

  /** The branch after its child i has become g. */
  function ReplaceKid(e: Env, keys: seq<Key>, kids: seq<Tree>, i: nat, g: Grown): Grown
    requires i < |kids| == |keys| + 1
  {
    match g
    case One(t) => One(Branch(keys, kids[i := t]))
    case Two(a, s, b) => AddKid(e, keys, kids, i, a, s, b)
    case Full => Full
  }

  /** A database: no root page while it is empty. `depth` is md_depth. */
  datatype Db = Db(root: Option<Tree>, depth: nat)

  predicate DbOk(e: Env, d: Db)
  {
    if d.root.None? then d.depth == 0 else d.depth > 0 && Sound(e, d.root.value, d.depth - 1, true)
  }

  /** mdb_put without flags; None when it fails with MDB_PAGE_FULL. */
  function Put(e: Env, d: Db, k: Key, v: Val, inPlace: bool): Option<Db>
  {
    if d.root.None? then Some(Db(Some(Leaf([NewEntry(e, k, v)])), 1))
    else GrowRoot(PutTree(e, d.root.value, k, v, inPlace), d.depth)
  }

  /** A root that was split gets a new root page above it. */
  function GrowRoot(g: Grown, depth: nat): Option<Db> {
    match g
    case One(t) => Some(Db(Some(t), depth))
    case Two(a, s, b) => Some(Db(Some(Branch([s], [a, b])), depth + 1))
    case Full => None
  }

  // ---------------------------------------------------------------- the map

  function ToMap(es: seq<Entry>): map<Key, Val> {
    if es == [] then map[] else ToMap(es[1..])[es[0].key := es[0].val]
  }

  function Contents(d: Db): map<Key, Val> {
    if d.root.None? then map[] else ToMap(Flat(d.root.value))
  }
}
