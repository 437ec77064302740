/** Exactly which puts and deletions fail with MDB_PAGE_FULL, and one of each that does. */
module BTreeRoom {
  import opened Base
  import opened Sizes
  import opened SplitPoint
  import opened BTree
  import opened BTreePut
  import opened BTreeDelete
  import opened BTreeDeleteProofs

  /** What the part that takes the new node needs, in an unsearched split. */
  predicate HalfFits(c: seq<nat>, newindx: nat, j: nat, leaf: bool, pmax: nat)
    requires j < |c|
  {
    if newindx < j then Sum(c[..j]) <= pmax
    else (if leaf then Sum(c[j..]) else Sum(c[j..]) - c[j] + FIRST_SLOT) <= pmax
  }

  /** Which splits succeed: the searched ones, and those where the new node's half has room for it. */
  lemma SplitFits(c: seq<nat>, newindx: nat, leaf: bool, pmax: nat)
    requires Overfull(c, newindx, pmax)
    ensures |c| >= 3 && SplitIndex(c, newindx, leaf, pmax) < |c|
    ensures var j := SplitIndex(c, newindx, leaf, pmax);
            PartsFit(c, j, leaf, pmax) <==> Searched(c, newindx, pmax) || HalfFits(c, newindx, j, leaf, pmax)
  {
    SplitInside(c, newindx, leaf, pmax);
    if Searched(c, newindx, pmax) {
      SearchedSplitFits(c, newindx, leaf, pmax);
    } else {
      MiddleSplitFits(c, newindx, leaf, pmax);
    }
  }

  /** A leaf split fails exactly when it is not searched and the new node's half overflows. */
  lemma LeafSplitFails(e: Env, c: seq<Entry>, newindx: nat)
    requires Overfull(LeafSizes(e, c), newindx, PageMax(e))
    ensures |c| >= 3
    ensures var s := LeafSizes(e, c);
            var j := SplitIndex(s, newindx, true, PageMax(e));
            && j < |c|
            && (SplitLeaf(e, c, newindx).Full? <==>
                !Searched(s, newindx, PageMax(e)) && !HalfFits(s, newindx, j, true, PageMax(e)))
  {
    hide Sum, SplitIndex, HalfFits, Searched;
    var s := LeafSizes(e, c);
    SplitFits(s, newindx, true, PageMax(e));
    SplitInside(s, newindx, true, PageMax(e));
    LeafSizesSlice(e, c, SplitIndex(s, newindx, true, PageMax(e)));
  }

  lemma KeySizesParts(e: Env, keys: seq<Key>, j: nat)
    requires 0 < j <= |keys|
    ensures Sum(KeySizes(e, keys[..j - 1])) == Sum(KeySizes(e, keys)[..j])
    ensures Sum(KeySizes(e, keys[j..])) == Sum(KeySizes(e, keys)[j..]) - KeySizes(e, keys)[j] + FIRST_SLOT
  {
    var c := KeySizes(e, keys);
    assert KeySizes(e, keys[..j - 1]) == c[..j];
    assert KeySizes(e, keys[j..])[1..] == c[j..][1..];
  }

  /** The same for a branch, whose right part's first node loses its key. */
  lemma BranchSplitFails(e: Env, keys: seq<Key>, kids: seq<Tree>, newindx: nat)
    requires |kids| == |keys| + 1 && Overfull(KeySizes(e, keys), newindx, PageMax(e))
    ensures |kids| >= 3
    ensures var s := KeySizes(e, keys);
            var j := SplitIndex(s, newindx, false, PageMax(e));
            && j < |kids|
            && (SplitBranch(e, keys, kids, newindx).Full? <==>
                !Searched(s, newindx, PageMax(e)) && !HalfFits(s, newindx, j, false, PageMax(e)))
  {
    hide Sum, SplitIndex, HalfFits, Searched;
    var s := KeySizes(e, keys);
    SplitFits(s, newindx, false, PageMax(e));
    SplitInside(s, newindx, false, PageMax(e));
    KeySizesParts(e, keys, SplitIndex(s, newindx, false, PageMax(e)));
  }

  // ---------------------------------------------------------------- the conditions

  /** The split of these nodes is not searched, and the new node's half has no room for it. */
  predicate Unlucky(c: seq<nat>, newindx: nat, leaf: bool, pmax: nat) {
    |c| >= 3 && newindx < |c| && !Searched(c, newindx, pmax) &&
    var j := SplitIndex(c, newindx, leaf, pmax);
    j < |c| && !HalfFits(c, newindx, j, leaf, pmax)
  }

  predicate EntryFails(e: Env, es: seq<Entry>, i: nat, x: Entry)
    requires i <= |es|
  {
    PageMax(e) - Sum(LeafSizes(e, es)) < LeafSlot(e, x) &&
    Unlucky(LeafSizes(e, es[..i] + [x] + es[i..]), i, true, PageMax(e))
  }

  predicate LeafFails(e: Env, es: seq<Entry>, k: Key, v: Val, inPlace: bool) {
    var i, x := LeafPos(es, k), NewEntry(e, k, v);
    if !FoundAt(es, i, k) then EntryFails(e, es, i, x)
    else if es[i].big && inPlace then false
    else if !es[i].big && e.vsize(v) == e.vsize(es[i].val) then false
    else EntryFails(e, Without1(es, i), i, x)
  }

  /** A branch page has no room for a separator behind child i, and its split is unlucky. */
  predicate KidFails(e: Env, keys: seq<Key>, i: nat, s: Key)
    requires i <= |keys|
  {
    PageMax(e) - Sum(KeySizes(e, keys)) < NODESIZE + e.ksize(s) + SLOT &&
    Unlucky(KeySizes(e, keys[..i] + [s] + keys[i..]), i + 1, false, PageMax(e))
  }

  /** The separator of the split that an entry put in at i causes, if it causes one. */
  function EntrySep(e: Env, es: seq<Entry>, i: nat, x: Entry): Option<Key>
    requires i <= |es|
  {
    var c := es[..i] + [x] + es[i..];
    if |c| < 3 then None else
    var j := SplitIndex(LeafSizes(e, c), i, true, PageMax(e));
    if PageMax(e) - Sum(LeafSizes(e, es)) < LeafSlot(e, x) && j < |c| then Some(c[j].key) else None
  }

  function LeafSep(e: Env, es: seq<Entry>, k: Key, v: Val, inPlace: bool): Option<Key> {
    var i, x := LeafPos(es, k), NewEntry(e, k, v);
    if !FoundAt(es, i, k) then EntrySep(e, es, i, x)
    else if es[i].big && inPlace then None
    else if !es[i].big && e.vsize(v) == e.vsize(es[i].val) then None
    else EntrySep(e, Without1(es, i), i, x)
  }

  /** The same for a separator behind child i of a branch. */
  function KidSep(e: Env, keys: seq<Key>, i: nat, s: Key): Option<Key>
    requires i <= |keys|
  {
    var keys' := keys[..i] + [s] + keys[i..];
    if |keys'| < 2 then None else
    var j := SplitIndex(KeySizes(e, keys'), i + 1, false, PageMax(e));
    if PageMax(e) - Sum(KeySizes(e, keys)) < NODESIZE + e.ksize(s) + SLOT && 0 < j <= |keys'| then Some(keys'[j - 1]) else None
  }

  /** Whether a put splits this page, and with which separator, by the sizes on the key's path. */
  function PutSep(e: Env, t: Tree, k: Key, v: Val, inPlace: bool): Option<Key>
    decreases t
  {
    match t
    case Leaf(es) => LeafSep(e, es, k, v, inPlace)
    case Branch(keys, kids) =>
      if |kids| != |keys| + 1 then None else
      var i := KidPos(keys, k);
      var s := PutSep(e, kids[i], k, v, inPlace);
      if s.Some? then KidSep(e, keys, i, s.value) else None
  }

  /** An unlucky split on the key's path, all pages below it having been split. */
  predicate PutFails(e: Env, t: Tree, k: Key, v: Val, inPlace: bool)
    decreases t
  {
    match t
    case Leaf(es) => LeafFails(e, es, k, v, inPlace)
    case Branch(keys, kids) =>
      |kids| == |keys| + 1 &&
      var i := KidPos(keys, k);
      var s := PutSep(e, kids[i], k, v, inPlace);
      PutFails(e, kids[i], k, v, inPlace) || (s.Some? && KidFails(e, keys, i, s.value))
  }

  /** A longer separator overflows its page. */
  predicate KeyOverflows(e: Env, keys: seq<Key>, l: nat, s: Key)
    requires l < |keys|
  {
    var old', new' := Even(e.ksize(keys[l])), Even(e.ksize(s));
    new' > old' && PageMax(e) < Sum(KeySizes(e, keys)) + (new' - old')
  }

  /** And the split is unlucky. */
  predicate KeyFails(e: Env, keys: seq<Key>, l: nat, s: Key)
    requires l < |keys|
  {
    KeyOverflows(e, keys, l, s) && Unlucky(KeySizes(e, keys[l := s]), l + 1, false, PageMax(e))
  }

  /** The separator of the split that a longer separator causes, if it causes one. */
  function KeySep(e: Env, keys: seq<Key>, l: nat, s: Key): Option<Key>
    requires l < |keys|
  {
    if |keys| < 2 then None else
    var j := SplitIndex(KeySizes(e, keys[l := s]), l + 1, false, PageMax(e));
    if KeyOverflows(e, keys, l, s) && 0 < j <= |keys| then Some(keys[l := s][j - 1]) else None
  }

  /** What the page above has to know of a deletion: nodes were taken away, or the page was split. */
  datatype Outcome = Settled | Lighter(used: nat, nodes: nat) | Parted(sep: Key)

  function PartedAt(s: Option<Key>): Outcome {
    if s.Some? then Parted(s.value) else Settled
  }

  /** A page on the level of t with so much on it needs to be rebalanced. */
  predicate Thin(e: Env, t: Tree, used: nat, nodes: nat) {
    1000 * used / PageMax(e) < Threshold(t) || nodes < MinKeys(t)
  }

  /** The separator between a page and the neighbour that it has given a node to. */
  function MoveSep(t: Tree, toLeft: bool): Option<Key> {
    var n := NumKeys(t);
    if n < 2 || (t.Branch? && |t.keys| + 1 != n) then None
    else if t.Leaf? then Some(t.es[if toLeft then 1 else n - 1].key)
    else Some(t.keys[if toLeft then 0 else n - 2])
  }

  function Neighbour(kids: seq<Tree>, i: nat): Tree
    requires i < |kids| && 2 <= |kids|
  {
    if i == 0 then kids[1] else kids[i - 1]
  }

  /** Rebalancing child i, now of this size: a neighbour spares a node, or the two are merged. */
  function RebalanceOutcome(e: Env, keys: seq<Key>, kids: seq<Tree>, i: nat, used: nat, nodes: nat): Outcome
    requires i < |kids| == |keys| + 1
  {
    if |kids| < 2 || !Thin(e, kids[i], used, nodes) then Settled else
    var l := if i == 0 then 0 else i - 1;
    var s := MoveSep(Neighbour(kids, i), i == 0);
    if !CanSpareNode(e, Neighbour(kids, i)) then Lighter(Sum(KeySizes(e, keys[..l] + keys[l + 1..])), |keys|)
    else if s.Some? then PartedAt(KeySep(e, keys, l, s.value))
    else Settled
  }

  /** Only moving a node can make it fail: by the separator that it changes. */
  predicate RebalanceFails(e: Env, keys: seq<Key>, kids: seq<Tree>, i: nat, used: nat, nodes: nat)
    requires i < |kids| == |keys| + 1
  {
    && |kids| >= 2 && Thin(e, kids[i], used, nodes) && CanSpareNode(e, Neighbour(kids, i))
    && var s := MoveSep(Neighbour(kids, i), i == 0);
       s.Some? && KeyFails(e, keys, if i == 0 then 0 else i - 1, s.value)
  }

  /** What a deletion makes of a page, by the pages on the key's path and their neighbours. */
  function DelOutcome(e: Env, t: Tree, k: Key): Outcome
    decreases t
  {
    match t
    case Leaf(es) =>
      var i := LeafPos(es, k);
      if FoundAt(es, i, k) then Lighter(Sum(LeafSizes(e, Without1(es, i))), |es| - 1) else Settled
    case Branch(keys, kids) =>
      if |kids| != |keys| + 1 then Settled else
      var i := KidPos(keys, k);
      match DelOutcome(e, kids[i], k)
      case Settled => Settled
      case Lighter(used, nodes) => RebalanceOutcome(e, keys, kids, i, used, nodes)
      case Parted(s) => PartedAt(KidSep(e, keys, i, s))
  }

  /** An unlucky split, where a separator has become longer or a page below was split for that. */
  predicate DelFails(e: Env, t: Tree, k: Key)
    decreases t
  {
    t.Branch? && |t.kids| == |t.keys| + 1 &&
    var i := KidPos(t.keys, k);
    var r := DelOutcome(e, t.kids[i], k);
    || DelFails(e, t.kids[i], k)
    || (r.Lighter? && RebalanceFails(e, t.keys, t.kids, i, r.used, r.nodes))
    || (r.Parted? && KidFails(e, t.keys, i, r.sep))
  }

  // ---------------------------------------------------------------- put

  lemma EntryFailsIff(e: Env, es: seq<Entry>, i: nat, x: Entry)
    requires i <= |es| && EntryOk(e, x) && forall j :: 0 <= j < |es| ==> EntryOk(e, es[j])
    requires Sum(LeafSizes(e, es)) <= PageMax(e)
    ensures AddEntry(e, es, i, x).Full? <==> EntryFails(e, es, i, x)
  {
    hide Sum, LeafSlot, SplitIndex, SplitLeaf, Overfull, Searched, HalfFits;
    if PageMax(e) - Sum(LeafSizes(e, es)) < LeafSlot(e, x) {
      LeafOverfull(e, es, i, x);
      LeafSplitFails(e, es[..i] + [x] + es[i..], i);
    }
  }

  lemma LeafFailsIff(e: Env, es: seq<Entry>, k: Key, v: Val, inPlace: bool)
    requires EntriesOk(e, es) && Sum(LeafSizes(e, es)) <= PageMax(e)
    ensures PutLeaf(e, es, k, v, inPlace).Full? <==> LeafFails(e, es, k, v, inPlace)
  {
    hide Sum, LeafSlot, LeafPos, AddEntry, SortedEntries, EntryFails;
    var i, x := LeafPos(es, k), NewEntry(e, k, v);
    NewEntryOk(e, k, v);
    if FoundAt(es, i, k) {
      LeafSizesWithout(e, es, i);
      EntryFailsIff(e, Without1(es, i), i, x);
    } else {
      EntryFailsIff(e, es, i, x);
    }
  }

  lemma KidFailsIff(e: Env, keys: seq<Key>, kids: seq<Tree>, i: nat, a: Tree, s: Key, b: Tree)
    requires i < |kids| == |keys| + 1 && Sum(KeySizes(e, keys)) <= PageMax(e)
    ensures AddKid(e, keys, kids, i, a, s, b).Full? <==> KidFails(e, keys, i, s)
  {
    hide Sum, KeySlot, SplitIndex, SplitBranch, Overfull, Searched, HalfFits;
    AddKidFits(e, keys, i, s);
    var keys', kids' := keys[..i] + [s] + keys[i..], kids[..i] + [a, b] + kids[i + 1..];
    if PageMax(e) - Sum(KeySizes(e, keys)) < NODESIZE + e.ksize(s) + SLOT {
      BranchSplitFails(e, keys', kids', i + 1);
    }
  }

  /** The separator that a page has been split with. */
  function SepOf(g: Grown): Option<Key> {
    if g.Two? then Some(g.sep) else None
  }

  lemma EntrySepIs(e: Env, es: seq<Entry>, i: nat, x: Entry)
    requires i <= |es| && !AddEntry(e, es, i, x).Full?
    ensures SepOf(AddEntry(e, es, i, x)) == EntrySep(e, es, i, x)
  {
    hide Sum, LeafSlot, SplitIndex;
  }

  lemma LeafSepIs(e: Env, es: seq<Entry>, k: Key, v: Val, inPlace: bool)
    requires !PutLeaf(e, es, k, v, inPlace).Full?
    ensures SepOf(PutLeaf(e, es, k, v, inPlace)) == LeafSep(e, es, k, v, inPlace)
  {
    hide Sum, LeafSlot, LeafPos, AddEntry, EntrySep;
    var i, x := LeafPos(es, k), NewEntry(e, k, v);
    if !AddEntry(e, es, i, x).Full? {
      EntrySepIs(e, es, i, x);
    }
    if FoundAt(es, i, k) && !AddEntry(e, Without1(es, i), i, x).Full? {
      EntrySepIs(e, Without1(es, i), i, x);
    }
  }

  lemma KidSepIs(e: Env, keys: seq<Key>, kids: seq<Tree>, i: nat, a: Tree, s: Key, b: Tree)
    requires i < |kids| == |keys| + 1 && !AddKid(e, keys, kids, i, a, s, b).Full?
    ensures SepOf(AddKid(e, keys, kids, i, a, s, b)) == KidSep(e, keys, i, s)
  {
    hide Sum, KeySlot, SplitIndex, KeySizes;
  }

  /**
   A put fails exactly when it meets an unlucky split; if it does not fail, it splits the page
   exactly when the sizes say so, with the separator that they give.
   */
  lemma {:induction false} PutFailsIff(e: Env, t: Tree, h: nat, k: Key, v: Val, inPlace: bool)
    requires Sound(e, t, h, true)
    ensures PutTree(e, t, k, v, inPlace).Full? <==> PutFails(e, t, k, v, inPlace)
    ensures !PutFails(e, t, k, v, inPlace) ==> SepOf(PutTree(e, t, k, v, inPlace)) == PutSep(e, t, k, v, inPlace)
    decreases t
  {
    hide Sum, LeafSizes, KeySizes, PutLeaf, KidPos, Separated, Sound, AllSound, AddKid, PutTree, LeafFails, KidFails,
         LeafSep, KidSep;
    if t.Leaf? {
      SoundLeaf(e, t.es, h, true);
      LeafFailsIff(e, t.es, k, v, inPlace);
      PutTreeLeaf(e, t, k, v, inPlace);
      if !PutLeaf(e, t.es, k, v, inPlace).Full? {
        LeafSepIs(e, t.es, k, v, inPlace);
      }
    } else {
      KidsOf(e, t, h, true);
      var i := KidPos(t.keys, k);
      KidIsSound(e, t.kids, h - 1, i);
      PutFailsIff(e, t.kids[i], h - 1, k, v, inPlace);
      PutTreeBranch(e, t, k, v, inPlace);
      var g := PutTree(e, t.kids[i], k, v, inPlace);
      if g.Two? {
        KidFailsIff(e, t.keys, t.kids, i, g.left, g.sep, g.right);
        if !AddKid(e, t.keys, t.kids, i, g.left, g.sep, g.right).Full? {
          KidSepIs(e, t.keys, t.kids, i, g.left, g.sep, g.right);
        }
      }
    }
  }

  // ---------------------------------------------------------------- delete

  lemma KeyFailsIff(e: Env, keys: seq<Key>, kids: seq<Tree>, l: nat, s: Key)
    requires l < |keys| && |kids| == |keys| + 1 && Sum(KeySizes(e, keys)) <= PageMax(e)
    ensures UpdateKey(e, keys, kids, l, s).Full? <==> KeyFails(e, keys, l, s)
  {
    hide Sum, SplitIndex, SplitBranch, Overfull, Searched, HalfFits;
    UpdateKeyFits(e, keys, l, s);
    if Overfull(KeySizes(e, keys[l := s]), l + 1, PageMax(e)) {
      BranchSplitFails(e, keys[l := s], kids, l + 1);
    }
  }

  lemma KeySepIs(e: Env, keys: seq<Key>, kids: seq<Tree>, l: nat, s: Key)
    requires l < |keys| && |kids| == |keys| + 1 && !UpdateKey(e, keys, kids, l, s).Full?
    ensures SepOf(UpdateKey(e, keys, kids, l, s)) == KeySep(e, keys, l, s)
  {
    hide Sum, KeySlot, SplitIndex, KeySizes;
  }

  /** The outcome of a deletion, as the page above sees it. */
  function OutcomeOf(e: Env, r: Shrunk): Outcome {
    if r.g.Two? then Parted(r.g.sep)
    else if r.g.One? && r.check then Lighter(Used(e, r.g.t), NumKeys(r.g.t))
    else Settled
  }

  lemma MoveSepIs(e: Env, a: Tree, b: Tree, toLeft: bool)
    requires Alike(a, b) && NumKeys(if toLeft then b else a) >= 2
    ensures var m := if toLeft then MovedLeft(e, a, b) else MovedRight(e, a, b);
            m.Two? ==> MoveSep(if toLeft then b else a, toLeft) == Some(m.sep)
  {
    hide Sum, LeafSizes, KeySizes, Lowest;
  }

  lemma SpareHasTwo(e: Env, t: Tree)
    requires CanSpareNode(e, t)
    ensures NumKeys(t) >= 2
  {
    hide Sum;
  }

  lemma ThinIs(e: Env, was: Tree, t: Tree)
    requires t.Leaf? <==> was.Leaf?
    ensures Thin(e, was, Used(e, t), NumKeys(t)) <==> !NeedsNoRebalance(e, t)
  {
    hide Sum;
  }

  /** A neighbour can spare a node. */
  lemma MoveFailsIff(e: Env, keys: seq<Key>, kids: seq<Tree>, h: nat, i: nat)
    requires i < |kids| == |keys| + 1 && 2 <= |kids| && Sum(KeySizes(e, keys)) <= PageMax(e)
    requires Separated(keys, kids) && AllSoundBut(e, kids, h, i)
    requires !NeedsNoRebalance(e, kids[i]) && CanSpareNode(e, Neighbour(kids, i))
    ensures var r := Rebalance(e, keys, kids, i);
            var l := if i == 0 then 0 else i - 1;
            var s := MoveSep(Neighbour(kids, i), i == 0);
            && s.Some? && (r.g.Full? <==> KeyFails(e, keys, l, s.value))
            && (!r.g.Full? ==> OutcomeOf(e, r) == PartedAt(KeySep(e, keys, l, s.value)))
  {
    hide Sum, KeySizes, LeafSizes, Separated, Flat, FlatAll, AllSoundBut, AllSound, Sound, Above, Below, UpdateKey,
         MovedLeft, MovedRight, Merged, KeyFails, KeySep, MoveSep, NeedsNoRebalance, PageFill, CanSpareNode, Used;
    var l := if i == 0 then 0 else i - 1;
    var a, b := kids[l], kids[l + 1];
    PairAt(e, keys, kids, h, i, l);
    SoundAlike(e, a, b, h);
    MoveKeeps(e, a, b, h, keys[l], i == 0);
    SpareHasTwo(e, Neighbour(kids, i));
    MoveSepIs(e, a, b, i == 0);
    var m := if i == 0 then MovedLeft(e, a, b) else MovedRight(e, a, b);
    var moved := kids[l := m.left][l + 1 := m.right];
    KeyFailsIff(e, keys, moved, l, m.sep);
    if !UpdateKey(e, keys, moved, l, m.sep).Full? {
      KeySepIs(e, keys, moved, l, m.sep);
    }
  }

  /** It cannot: the two pages are merged. */
  lemma MergeFitsIn(e: Env, keys: seq<Key>, kids: seq<Tree>, h: nat, i: nat)
    requires i < |kids| == |keys| + 1 && 2 <= |kids| && Separated(keys, kids) && AllSoundBut(e, kids, h, i)
    requires !NeedsNoRebalance(e, kids[i]) && !CanSpareNode(e, Neighbour(kids, i))
    ensures var r := Rebalance(e, keys, kids, i);
            var l := if i == 0 then 0 else i - 1;
            !r.g.Full? && OutcomeOf(e, r) == Lighter(Sum(KeySizes(e, keys[..l] + keys[l + 1..])), |keys|)
  {
    hide Sum, KeySizes, LeafSizes, Separated, Flat, FlatAll, AllSoundBut, AllSound, Sound, Above, Below,
         MovedLeft, MovedRight, Merged, NeedsNoRebalance, PageFill, CanSpareNode;
    var l := if i == 0 then 0 else i - 1;
    PairAt(e, keys, kids, h, i, l);
    SoundAlike(e, kids[l], kids[l + 1], h);
    MergeFits(e, kids[l], kids[l + 1], h);
  }

  /** Rebalancing child i, which has become t. */
  lemma RebalanceFailsIff(e: Env, keys: seq<Key>, kids: seq<Tree>, h: nat, i: nat, t: Tree)
    requires i < |kids| == |keys| + 1 && 2 <= |kids| && (t.Leaf? <==> kids[i].Leaf?)
    requires Separated(keys, kids[i := t]) && AllSoundBut(e, kids[i := t], h, i) && Sum(KeySizes(e, keys)) <= PageMax(e)
    ensures var r := Rebalance(e, keys, kids[i := t], i);
            && (r.g.Full? <==> RebalanceFails(e, keys, kids, i, Used(e, t), NumKeys(t)))
            && (!r.g.Full? ==> OutcomeOf(e, r) == RebalanceOutcome(e, keys, kids, i, Used(e, t), NumKeys(t)))
  {
    hide Sum, KeySizes, Separated, AllSoundBut, KeyFails, KeySep, MoveSep, Thin, NeedsNoRebalance, CanSpareNode, Used, NumKeys;
    ThinIs(e, kids[i], t);
    var kids' := kids[i := t];
    assert Neighbour(kids', i) == Neighbour(kids, i);
    if NeedsNoRebalance(e, t) {
    } else {
      hide Rebalance;
      if CanSpareNode(e, Neighbour(kids, i)) {
        MoveFailsIff(e, keys, kids', h, i);
      } else {
        MergeFitsIn(e, keys, kids', h, i);
      }
    }
  }

  /**
   A deletion fails exactly when it meets an unlucky split of a branch page; if it does not fail,
   sizes and separators on its way say whether it makes a page lighter or splits it.
   */
  lemma {:induction false} DelFailsIff(e: Env, t: Tree, h: nat, k: Key)
    requires Sound(e, t, h, true) && LookupFlat(Flat(t), k).Some?
    ensures DelTree(e, t, k).g.Full? <==> DelFails(e, t, k)
    ensures !DelFails(e, t, k) ==> OutcomeOf(e, DelTree(e, t, k)) == DelOutcome(e, t, k)
    decreases t
  {
    hide LookupFlat, DelFlat, Rebalance, KidPos, Sum, KeySizes, Between, Separated, Sound, AllSound, AllSoundBut,
         FlatAll, DelTree, AddKid, RebalanceFails, RebalanceOutcome, KidFails, KidSep, Used;
    if t.Leaf? {
      DelTreeLeaf(e, t, k);
    } else {
      KidsOf(e, t, h, true);
      var i := KidPos(t.keys, k);
      KidMatters(e, t.keys, t.kids, h - 1, k);
      KidIsSound(e, t.kids, h - 1, i);
      DelTreeBranch(e, t, k);
      DelFailsIff(e, t.kids[i], h - 1, k);
      DelTreeKeeps(e, t.kids[i], h - 1, k);
      var r := DelTree(e, t.kids[i], k);
      if r.check {
        KidBounds(t.keys, t.kids, i);
        DelStaysBetween(t.keys, i, Flat(t.kids[i]), k);
        SeparatedReplace(t.keys, t.kids, i, r.g.t);
        ButOne(e, t.kids, h - 1, i, r.g.t);
        Weaken(e, t.kids[i], h - 1);
        SoundAlike(e, r.g.t, t.kids[i], h - 1);
        RebalanceFailsIff(e, t.keys, t.kids, h - 1, i, r.g.t);
      } else if r.g.Two? {
        KidFailsIff(e, t.keys, t.kids, i, r.g.left, r.g.sep, r.g.right);
        if !AddKid(e, t.keys, t.kids, i, r.g.left, r.g.sep, r.g.right).Full? {
          KidSepIs(e, t.keys, t.kids, i, r.g.left, r.g.sep, r.g.right);
        }
      }
    }
  }

  lemma DelTreeLeaf(e: Env, t: Tree, k: Key)
    requires t.Leaf? && LookupFlat(Flat(t), k).Some?
    ensures !DelTree(e, t, k).g.Full? && OutcomeOf(e, DelTree(e, t, k)) == DelOutcome(e, t, k)
  {
  }

  // ---------------------------------------------------------------- small pages

  /** No page has 32 nodes or more, so that every split is searched. */
  predicate SmallPages(t: Tree)
    decreases t
  {
    NumKeys(t) < 32 && (t.Branch? ==> forall i :: 0 <= i < |t.kids| ==> SmallPages(t.kids[i]))
  }

  lemma {:induction false} SmallPut(e: Env, t: Tree, k: Key, v: Val, inPlace: bool)
    requires SmallPages(t)
    ensures !PutFails(e, t, k, v, inPlace)
    decreases t
  {
    hide Sum, LeafPos, KidPos, PutSep, SplitIndex, HalfFits, NewEntry, LeafSlot;
    if t.Branch? && |t.kids| == |t.keys| + 1 {
      SmallPut(e, t.kids[KidPos(t.keys, k)], k, v, inPlace);
    }
  }

  lemma {:induction false} SmallDel(e: Env, t: Tree, k: Key)
    requires SmallPages(t)
    ensures !DelFails(e, t, k)
    decreases t
  {
    hide Sum, KidPos, DelTree, SplitIndex, HalfFits, NeedsNoRebalance, CanSpareNode, MovedLeft, MovedRight, Alike;
    if t.Branch? && |t.kids| == |t.keys| + 1 {
      SmallDel(e, t.kids[KidPos(t.keys, k)], k);
    }
  }

  /** Neither fails on a tree of small pages. */
  lemma SmallPagesSuffice(e: Env, t: Tree, h: nat, k: Key, v: Val, inPlace: bool)
    requires Sound(e, t, h, true) && SmallPages(t)
    ensures !PutTree(e, t, k, v, inPlace).Full?
    ensures LookupFlat(Flat(t), k).Some? ==> !DelTree(e, t, k).g.Full?
  {
    hide Sound, SmallPages, PutTree, DelTree, PutFails, DelFails, Flat, LookupFlat;
    PutFailsIff(e, t, h, k, v, inPlace);
    SmallPut(e, t, k, v, inPlace);
    SmallDel(e, t, k);
    if LookupFlat(Flat(t), k).Some? {
      DelFailsIff(e, t, h, k);
    }
  }

  // ---------------------------------------------------------------- appending, and large nodes

  /** A node added behind all others always goes in, and so does one that takes more than a 16th of the page. */
  lemma EntryGoesIn(e: Env, es: seq<Entry>, i: nat, x: Entry)
    requires i <= |es| && EntryOk(e, x) && EntriesOk(e, es) && Sum(LeafSizes(e, es)) <= PageMax(e)
    requires i == |es| || LeafSlot(e, x) > PageMax(e) / 16
    ensures !AddEntry(e, es, i, x).Full?
  {
    hide Sum, LeafSlot, SplitIndex, HalfFits, AddEntry, SortedEntries;
    var c := es[..i] + [x] + es[i..];
    assert c[i] == x;
    EntryFailsIff(e, es, i, x);
  }

  lemma KidGoesIn(e: Env, keys: seq<Key>, kids: seq<Tree>, i: nat, a: Tree, s: Key, b: Tree)
    requires i < |kids| == |keys| + 1 && Sum(KeySizes(e, keys)) <= PageMax(e)
    requires i == |keys| || KeySlot(e, s) > PageMax(e) / 16
    ensures !AddKid(e, keys, kids, i, a, s, b).Full?
  {
    hide Sum, KeySlot, SplitIndex, HalfFits, AddKid;
    var keys' := keys[..i] + [s] + keys[i..];
    assert keys'[i] == s;
    KidFailsIff(e, keys, kids, i, a, s, b);
  }

  lemma LastPos(es: seq<Entry>, k: Key)
    requires BTree.Below(es, k)
    ensures LeafPos(es, k) == |es|
  {
  }

  lemma LastKid(keys: seq<Key>, k: Key)
    requires forall i :: 0 <= i < |keys| ==> keys[i] <= k
    ensures KidPos(keys, k) == |keys|
  {
  }

  /** A key behind all others leads to the last child. */
  lemma LeadsToLast(e: Env, t: Tree, h: nat, k: Key)
    requires t.Branch? && Sound(e, t, h, true) && BTree.Below(Flat(t), k)
    ensures |t.kids| == |t.keys| + 1 && KidPos(t.keys, k) == |t.keys| && BTree.Below(Flat(t.kids[|t.keys|]), k)
  {
    hide Sound, Separated, AllSound, FlatAll;
    KidsOf(e, t, h, true);
    var n := |t.keys|;
    FlatAt(t.kids, n);
    var last := Flat(t.kids[n]);
    BranchFlat(t);
    assert FlatAll(t.kids[n + 1..]) == [] by { assert t.kids[n + 1..] == []; FlatNone(); }
    var before := FlatAll(t.kids[..n]);
    assert Flat(t) == before + last;
    assert forall j :: 0 <= j < |last| ==> Flat(t)[|before| + j] == last[j];
    KidNonEmpty(e, t.kids, h - 1, n);
    LastSeparator(t.keys, t.kids, last[0].key);
    LastKid(t.keys, k);
  }

  lemma FlatNone()
    ensures FlatAll([]) == []
  {
  }

  lemma LastSeparator(keys: seq<Key>, kids: seq<Tree>, x: Key)
    requires Separated(keys, kids) && |kids| == |keys| + 1 && |Flat(kids[|keys|])| > 0 && Flat(kids[|keys|])[0].key == x
    ensures forall i :: 0 <= i < |keys| ==> keys[i] <= x
  {
    hide Flat;
    assert Between(keys, |keys|, Flat(kids[|keys|]));
  }

  /** So keys put in ascending order never fail. */
  lemma {:induction false} AppendingNeverFails(e: Env, t: Tree, h: nat, k: Key, v: Val, inPlace: bool)
    requires Sound(e, t, h, true) && BTree.Below(Flat(t), k)
    ensures !PutTree(e, t, k, v, inPlace).Full?
    decreases t
  {
    hide Sum, LeafSizes, KeySizes, Separated, Sound, AllSound, PutTree, AddKid, AddEntry, KidPos, LeafPos, FlatAll, LeafSlot;
    if t.Leaf? {
      SoundLeaf(e, t.es, h, true);
      PutTreeLeaf(e, t, k, v, inPlace);
      LastPos(t.es, k);
      NewEntryOk(e, k, v);
      EntryGoesIn(e, t.es, |t.es|, NewEntry(e, k, v));
    } else {
      KidsOf(e, t, h, true);
      LeadsToLast(e, t, h, k);
      var i := |t.keys|;
      KidIsSound(e, t.kids, h - 1, i);
      AppendingNeverFails(e, t.kids[i], h - 1, k, v, inPlace);
      PutTreeBranch(e, t, k, v, inPlace);
      var g := PutTree(e, t.kids[i], k, v, inPlace);
      if g.Two? {
        KidGoesIn(e, t.keys, t.kids, i, g.left, g.sep, g.right);
      }
    }
  }

  // ---------------------------------------------------------------- a put that fails

  /** Keys of one byte, values of as many bytes as they say, 4096-byte pages. */
  function Example(): Env {
    Parameters(4096, _ => 1, v => if v < 0 then 0 else v)
  }

  /** 16 nodes of 240 bytes and 17 of 12. */
  function ExampleLeaf(): (es: seq<Entry>)
    ensures |es| == 33 && forall i :: 0 <= i < 33 ==> es[i] == Entry(i + 1, if i < 16 then 229 else 0, false)
  {
    seq(33, i => Entry(i + 1, if i < 16 then 229 else 0, false))
  }

  lemma ExampleSizes()
    ensures LeafSizes(Example(), ExampleLeaf()) == Repeat(240, 16) + Repeat(12, 17)
    ensures LeafSizes(Example(), [Entry(0, 243, false)] + ExampleLeaf()) == [254] + Repeat(240, 16) + Repeat(12, 17)
    ensures LeafSlot(Example(), Entry(0, 243, false)) == 254 && PageMax(Example()) == 4080
    ensures NewEntry(Example(), 0, 243) == Entry(0, 243, false)
  {
  }

  lemma ExampleIsSound()
    ensures Sound(Example(), Leaf(ExampleLeaf()), 0, true)
    ensures Sum(LeafSizes(Example(), ExampleLeaf())) == 4044
  {
    hide Sum;
    ExampleSizes();
    SumConcat(Repeat(240, 16), Repeat(12, 17));
    SumRepeat(240, 16);
    SumRepeat(12, 17);
  }

  /** The smallest key, with a value of 243 bytes, does not go into that leaf. */
  lemma PutMayFail()
    ensures var t := Leaf(ExampleLeaf());
            Sound(Example(), t, 0, true) && PutTree(Example(), t, 0, 243, false).Full?
  {
    hide Sum, SplitIndex, Sound, LeafSizes, HalfFits, Searched;
    ExampleIsSound();
    ExampleSizes();
    MiddleSplitMayFail();
    var es := ExampleLeaf();
    var c := LeafSizes(Example(), [Entry(0, 243, false)] + es);
    assert es[..0] + [Entry(0, 243, false)] + es[0..] == [Entry(0, 243, false)] + es;
    assert LeafPos(es, 0) == 0;
    SplitFits(c, 0, true, 4080);
    LeafSplitFails(Example(), [Entry(0, 243, false)] + es, 0);
  }

  // ---------------------------------------------------------------- a deletion that fails

  /** Keys of 2 bytes, except 50 with 244 and the hundreds from 200 to 1500 with 264 each. */
  function Delicate(): Env {
    Parameters(4096, k => if k == 50 then 244 else if 200 <= k <= 1500 && k % 100 == 0 then 264 else 2,
               v => if v < 0 then 0 else v)
  }

  function DelicateKeys(): (keys: seq<Key>)
    ensures |keys| == 32 && forall i :: 0 <= i < 32 ==> keys[i] == 100 * (i + 1)
  {
    seq(32, i => 100 * (i + 1))
  }

  function DelicateKid(i: nat): Tree {
    if i == 0 then Leaf([Entry(10, 0, false), Entry(50, 900, false)])
    else if i == 1 then Leaf([Entry(100, 0, false), Entry(150, 0, false)])
    else Leaf([Entry(100 * i, 0, false)])
  }

  function DelicateKids(): (kids: seq<Tree>)
    ensures |kids| == 33 && forall i :: 0 <= i < 33 ==> kids[i] == DelicateKid(i)
  {
    seq(33, i requires 0 <= i < 33 => DelicateKid(i))
  }

  lemma SumOfOne(a: nat)
    ensures Sum([a]) == a
  {
  }

  lemma SumOfTwo(a: nat, b: nat)
    ensures Sum([a, b]) == a + b
  {
    assert [a, b] == [a] + [b];
    SumConcat([a], [b]);
    SumOfOne(a);
    SumOfOne(b);
  }

  lemma DelicateKidUses(i: nat)
    requires i < 33
    ensures Used(Delicate(), DelicateKid(i)) == if i == 0 then 1166 else if i == 1 then 24 else if i <= 15 then 274 else 12
  {
    hide Sum;
    var s := LeafSizes(Delicate(), DelicateKid(i).es);
    if i == 0 {
      assert s == [12, 1154];
      SumOfTwo(12, 1154);
    } else if i == 1 {
      assert s == [12, 12];
      SumOfTwo(12, 12);
    } else {
      assert s == [if i <= 15 then 274 else 12];
      SumOfOne(s[0]);
    }
  }

  lemma DelicateKidIsSound(i: nat)
    requires i < 33
    ensures Sound(Delicate(), DelicateKid(i), 0, true)
    ensures Between(DelicateKeys(), i, Flat(DelicateKid(i)))
  {
    hide Sound, Sum;
    DelicateKidUses(i);
    SoundLeaf(Delicate(), DelicateKid(i).es, 0, true);
  }

  /** The separators take 4062 bytes; with 50 in place of 100, the first 16 nodes take 4100. */
  lemma DelicateSizes()
    ensures Sum(KeySizes(Delicate(), DelicateKeys())) == 4062
    ensures var c := KeySizes(Delicate(), DelicateKeys()[0 := 50]);
            |c| == 33 && c[1] == 254 && Sum(c[..16]) == 4100
  {
    hide Sum;
    var e, keys := Delicate(), DelicateKeys();
    var c, c' := KeySizes(e, keys), KeySizes(e, keys[0 := 50]);
    assert c == [10, 12] + (Repeat(274, 14) + Repeat(12, 17));
    assert c'[..16] == [10, 254] + Repeat(274, 14);
    SumConcat([10, 12], Repeat(274, 14) + Repeat(12, 17));
    SumConcat(Repeat(274, 14), Repeat(12, 17));
    SumConcat([10, 254], Repeat(274, 14));
    SumRepeat(274, 14);
    SumRepeat(12, 17);
    SumOfTwo(10, 12);
    SumOfTwo(10, 254);
  }

  lemma DelicateIsSound()
    ensures Sound(Delicate(), Branch(DelicateKeys(), DelicateKids()), 1, true)
  {
    hide Sum, Sound, Between, DelicateKid, DelicateKeys, DelicateKids, KeySizes;
    var keys, kids := DelicateKeys(), DelicateKids();
    forall i | 0 <= i < 33
      ensures Sound(Delicate(), kids[i], 0, true) && Between(keys, i, Flat(kids[i]))
    {
      DelicateKidIsSound(i);
    }
    DelicateSizes();
    SoundBranch(Delicate(), Branch(keys, kids), 1, true);
  }

  /** The page that loses key 150 falls below the threshold, and its neighbour can spare a node. */
  lemma DelicateMove()
    ensures Thin(Delicate(), DelicateKid(1), 12, 1) && CanSpareNode(Delicate(), DelicateKid(0))
    ensures MoveSep(DelicateKid(0), false) == Some(50)
  {
    hide Sum;
    DelicateKidUses(0);
  }

  /** Key 50 does not fit as the first separator, and the middle split does not help. */
  lemma DelicateKeyFails()
    ensures KeyFails(Delicate(), DelicateKeys(), 0, 50)
  {
    hide Sum;
    DelicateSizes();
  }

  lemma DelicateDelete()
    ensures DelOutcome(Delicate(), DelicateKid(1), 150) == Lighter(12, 1)
    ensures Lookup(DelicateKid(1), 150).Some?
    ensures KidPos(DelicateKeys(), 150) == 1
  {
    hide Sum;
    var es := DelicateKid(1).es;
    assert LeafPos(es, 150) == 1;
    assert LeafSizes(Delicate(), Without1(es, 1)) == [12];
    SumOfOne(12);
  }

  lemma DelicateFails()
    ensures DelFails(Delicate(), Branch(DelicateKeys(), DelicateKids()), 150)
    ensures Lookup(Branch(DelicateKeys(), DelicateKids()), 150).Some?
  {
    hide KeyFails, Thin, CanSpareNode, MoveSep, KidPos, LeafPos, DelicateKeys, DelicateKid, KidFails;
    DelicateDelete();
    DelicateMove();
    DelicateKeyFails();
    assert DelicateKids()[0] == DelicateKid(0) && DelicateKids()[1] == DelicateKid(1);
  }

  /** Deleting key 150 moves a longer separator into a full page, and dividing that one fails. */
  lemma DelMayFail()
    ensures var t := Branch(DelicateKeys(), DelicateKids());
            && Sound(Delicate(), t, 1, true) && LookupFlat(Flat(t), 150).Some?
            && DelTree(Delicate(), t, 150).g.Full?
  {
    hide Sound, LookupFlat, Flat, DelTree, DelFails, Lookup;
    var e, t := Delicate(), Branch(DelicateKeys(), DelicateKids());
    DelicateIsSound();
    DelicateFails();
    LookupIsFlat(e, t, 1, 150);
    DelFailsIff(e, t, 1, 150);
  }
}
