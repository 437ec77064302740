/** Deletion keeps the tree sound, and removes exactly one key. */
module BTreeDeleteProofs {
  import opened Base
  import opened Sizes
  import opened SplitPoint
  import opened BTree
  import opened BTreePut
  import opened BTreeDelete

  // ---------------------------------------------------------------- room

  lemma Quotient(x: nat, p: nat, c: nat)
    requires p > 0
    ensures x / p >= c <==> x >= c * p
  {
    var q, r := x / p, x % p;
    assert x == p * q + r && 0 <= r < p;
    if q >= c {
      assert p * q >= p * c;
    } else {
      assert p * (q + 1) <= p * c;
    }
  }

  lemma {:induction false} SumOfSizes(e: Env, keys: seq<Key>)
    ensures Sum(KeySizes(e, keys)) <= FIRST_SLOT + 522 * |keys|
    ensures Sum(KeySizes(e, keys)) >= FIRST_SLOT + 12 * |keys|
  {
    var s := KeySizes(e, keys);
    KeySizesEven(e, keys);
    SumAtMost(s[1..], 522);
    SumAtLeast(s[1..], 12);
  }

  /** A page that mdb_rebalance acts on, and a neighbour that cannot spare a node. */
  lemma SmallLeaf(e: Env, t: Tree)
    requires t.Leaf?
    ensures !NeedsNoRebalance(e, t) ==> 4 * Used(e, t) < PageMax(e)
    ensures !CanSpareNode(e, t) ==> 4 * Used(e, t) < PageMax(e) || |t.es| <= 1
  {
    Quotient(1000 * Used(e, t), PageMax(e), 250);
    if t.es == [] {
      assert LeafSizes(e, t.es) == [];
    }
  }

  lemma SmallBranch(e: Env, t: Tree)
    requires t.Branch? && |t.kids| == |t.keys| + 1
    ensures !CanSpareNode(e, t) ==> Used(e, t) <= 532 && |t.keys| <= 1
    ensures !NeedsNoRebalance(e, t) ==> Used(e, t) <= 532 && |t.keys| <= 1
  {
    Quotient(1000 * Used(e, t), PageMax(e), 1);
    SumOfSizes(e, t.keys);
  }

  lemma KeySizesJoin(e: Env, a: seq<Key>, l: Key, b: seq<Key>)
    ensures Sum(KeySizes(e, a + [l] + b)) == Sum(KeySizes(e, a)) + KeySlot(e, l) + Sum(KeySizes(e, b)) - FIRST_SLOT
  {
    var c := KeySizes(e, a + [l] + b);
    assert c == KeySizes(e, a) + [KeySlot(e, l)] + KeySizes(e, b)[1..];
    SumConcat(KeySizes(e, a) + [KeySlot(e, l)], KeySizes(e, b)[1..]);
    SumConcat(KeySizes(e, a), [KeySlot(e, l)]);
    assert Sum([KeySlot(e, l)]) == KeySlot(e, l);
  }

  lemma LeafSizesJoin(e: Env, a: seq<Entry>, b: seq<Entry>)
    ensures Sum(LeafSizes(e, a + b)) == Sum(LeafSizes(e, a)) + Sum(LeafSizes(e, b))
  {
    assert LeafSizes(e, a + b) == LeafSizes(e, a) + LeafSizes(e, b);
    SumConcat(LeafSizes(e, a), LeafSizes(e, b));
  }

  lemma KeySizesPrefix(e: Env, keys: seq<Key>, j: nat)
    requires j <= |keys|
    ensures Sum(KeySizes(e, keys[..j])) <= Sum(KeySizes(e, keys))
    ensures Sum(KeySizes(e, keys[j..])) <= Sum(KeySizes(e, keys))
  {
    var c := KeySizes(e, keys);
    SumSplit(c, j + 1);
    assert KeySizes(e, keys[..j]) == c[..j + 1];
    assert KeySizes(e, keys[j..])[1..] == c[j + 1..];
    assert Sum(c[..j + 1]) >= FIRST_SLOT;
  }

  lemma LeafSizesPrefix(e: Env, es: seq<Entry>, j: nat)
    requires j <= |es|
    ensures Sum(LeafSizes(e, es[..j])) <= Sum(LeafSizes(e, es))
    ensures Sum(LeafSizes(e, es[j..])) <= Sum(LeafSizes(e, es))
  {
    LeafSizesSlice(e, es, j);
    SumSplit(LeafSizes(e, es), j);
  }

  // ---------------------------------------------------------------- merging

  lemma Weaken(e: Env, t: Tree, h: nat)
    requires Sound(e, t, h, true)
    ensures Sound(e, t, h, false) && NumKeys(t) > 0
  {
    if t.Branch? {
      SoundBranch(e, t, h, true);
      SoundBranch(e, t, h, false);
    }
  }

  lemma {:induction false} LowestIsFirst(e: Env, t: Tree, h: nat)
    requires Sound(e, t, h, false) && NumKeys(t) > 0
    ensures |Flat(t)| > 0 && Lowest(t) == Flat(t)[0].key
    decreases t
  {
    if t.Branch? {
      KidsOf(e, t, h, false);
      Weaken(e, t.kids[0], h - 1);
      LowestIsFirst(e, t.kids[0], h - 1);
    }
  }

  lemma SoundAlike(e: Env, a: Tree, b: Tree, h: nat)
    requires Sound(e, a, h, false) && Sound(e, b, h, false)
    ensures Alike(a, b)
  {
  }

  lemma Bounded(keys: seq<Key>, i: nat, es: seq<Entry>, x: Entry)
    requires i <= |keys| && Between(keys, i, es) && x in es
    ensures i > 0 ==> keys[i - 1] <= x.key
    ensures i < |keys| ==> x.key < keys[i]
  {
  }

  lemma JoinSeparated(k1: seq<Key>, t1: seq<Tree>, l: Key, k2: seq<Key>, t2: seq<Tree>)
    requires Separated(k1, t1) && Separated(k2, t2)
    requires |Flat(t1[|k1|])| > 0 && Below(Flat(t1[|k1|]), l)
    requires |Flat(t2[0])| > 0 && Above(Flat(t2[0]), l)
    ensures Separated(k1 + [l] + k2, t1 + t2)
  {
    var keys, kids := k1 + [l] + k2, t1 + t2;
    Bounded(k1, |k1|, Flat(t1[|k1|]), Flat(t1[|k1|])[0]);
    Bounded(k2, 0, Flat(t2[0]), Flat(t2[0])[0]);
    forall m | 0 <= m < |kids|
      ensures Between(keys, m, Flat(kids[m]))
    {
      if m < |t1| {
        assert Between(k1, m, Flat(t1[m]));
      } else {
        assert Between(k2, m - |t1|, Flat(t2[m - |t1|]));
      }
    }
  }

  lemma FlatEnds(kids: seq<Tree>)
    requires |kids| > 0
    ensures FlatAll(kids) == FlatAll(kids[..|kids| - 1]) + Flat(kids[|kids| - 1])
    ensures FlatAll(kids) == Flat(kids[0]) + FlatAll(kids[1..])
  {
    FlatAt(kids, |kids| - 1);
    assert kids[|kids|..] == [];
  }

  /** Merging two branches: the new separator is the lowest key of the right one. */
  lemma MergedBranch(e: Env, a: Tree, b: Tree, h: nat, s: Key)
    requires a.Branch? && b.Branch? && Sound(e, a, h, false) && Sound(e, b, h, false)
    requires Below(Flat(a), s) && Above(Flat(b), s)
    ensures var m := Branch(a.keys + [Lowest(b)] + b.keys, a.kids + b.kids);
            && h > 0 && Separated(m.keys, m.kids) && AllSound(e, m.kids, h - 1)
            && Flat(m) == Flat(a) + Flat(b)
  {
    hide Separated, Sum, KeySizes, Lowest, FlatAll, Sound, AllSound, Above, Below;
    KidsOf(e, a, h, false);
    KidsOf(e, b, h, false);
    LowestIsFirst(e, b, h);
    var l, n := Lowest(b), |a.keys|;
    FlatEnds(a.kids);
    FlatEnds(b.kids);
    KidNonEmpty(e, a.kids, h - 1, n);
    KidNonEmpty(e, b.kids, h - 1, 0);
    FirstIsLeast(e, b, h);
    BelowConcat(FlatAll(a.kids[..n]), Flat(a.kids[n]), s);
    AboveConcat(Flat(b.kids[0]), FlatAll(b.kids[1..]), l);
    BelowFirst(Flat(a.kids[n]), s, Flat(b));
    JoinSeparated(a.keys, a.kids, l, b.keys, b.kids);
    FlatConcat(a.kids, b.kids);
    AllSoundJoin(e, a.kids, b.kids, h - 1);
  }

  lemma BelowFirst(es: seq<Entry>, s: Key, fs: seq<Entry>)
    requires Below(es, s) && Above(fs, s) && |fs| > 0
    ensures Below(es, fs[0].key)
  {
  }

  lemma AllSoundJoin(e: Env, a: seq<Tree>, b: seq<Tree>, h: nat)
    requires AllSound(e, a, h) && AllSound(e, b, h)
    ensures AllSound(e, a + b, h)
  {
  }

  lemma KidNonEmpty(e: Env, kids: seq<Tree>, h: nat, i: nat)
    requires AllSound(e, kids, h) && i < |kids|
    ensures |Flat(kids[i])| > 0
  {
    SoundIsNonEmpty(e, kids[i], h);
  }

  lemma FirstIsLeast(e: Env, t: Tree, h: nat)
    requires Sound(e, t, h, false) && |Flat(t)| > 0
    ensures Above(Flat(t), Flat(t)[0].key)
  {
    FlatIsSorted(e, t, h);
  }

  lemma MergedLeaf(e: Env, a: Tree, b: Tree, s: Key)
    requires a.Leaf? && b.Leaf? && Sound(e, a, 0, false) && Sound(e, b, 0, false)
    requires Below(Flat(a), s) && Above(Flat(b), s)
    ensures EntriesOk(e, a.es + b.es)
  {
    SortedConcat(a.es, b.es, s);
  }

  /** Which of two neighbours was rebalanced does not matter: one is nearly empty, the other cannot spare a node. */
  ghost predicate Mergeable(e: Env, a: Tree, b: Tree) {
    || (!NeedsNoRebalance(e, a) && !CanSpareNode(e, b))
    || (!NeedsNoRebalance(e, b) && !CanSpareNode(e, a))
  }

  lemma LoneEntry(e: Env, t: Tree)
    requires t.Leaf? && |t.es| <= 1 && forall i :: 0 <= i < |t.es| ==> EntryOk(e, t.es[i])
    ensures 2 * Used(e, t) <= PageMax(e)
  {
    if |t.es| == 1 {
      SlotLimits(e, t.es[0], 0);
      assert LeafSizes(e, t.es) == [LeafSlot(e, t.es[0])];
      assert Sum([LeafSlot(e, t.es[0])]) == LeafSlot(e, t.es[0]);
    } else {
      assert LeafSizes(e, t.es) == [];
    }
  }

  /** A merge never lacks room: a page below the fill threshold and one with no node to spare. */
  lemma MergeFits(e: Env, a: Tree, b: Tree, h: nat)
    requires Sound(e, a, h, false) && Sound(e, b, h, false) && Mergeable(e, a, b)
    ensures Alike(a, b) && Used(e, Merged(a, b)) <= PageMax(e)
  {
    SoundAlike(e, a, b, h);
    if a.Leaf? {
      SmallLeaf(e, a);
      SmallLeaf(e, b);
      if |a.es| <= 1 { LoneEntry(e, a); }
      if |b.es| <= 1 { LoneEntry(e, b); }
      LeafSizesJoin(e, a.es, b.es);
    } else {
      SmallBranch(e, a);
      SmallBranch(e, b);
      KeySizesJoin(e, a.keys, Lowest(b), b.keys);
      SlotLimits(e, Entry(0, 0, true), Lowest(b));
    }
  }

  // ---------------------------------------------------------------- moving one node

  ghost predicate Pair(e: Env, a: Tree, b: Tree, h: nat, s: Key) {
    && Sound(e, a, h, false) && Sound(e, b, h, false)
    && Below(Flat(a), s) && Above(Flat(b), s)
  }

  lemma LeafCut(a: seq<Entry>, b: seq<Entry>)
    ensures var c, n := a + b, |a|;
            && (n > 0 ==> c[..n - 1] == a[..n - 1] && c[n - 1..] == [a[n - 1]] + b && c[n - 1] == a[n - 1])
            && (|b| > 1 ==> c[..n + 1] == a + [b[0]] && c[n + 1..] == b[1..] && c[n + 1] == b[1])
  {
  }

  /** A leaf below the fill threshold has room for any node. */
  lemma RoomInSmallLeaf(e: Env, es: seq<Entry>, x: Entry)
    requires 4 * Sum(LeafSizes(e, es)) < PageMax(e) && EntryOk(e, x)
    ensures Sum(LeafSizes(e, es)) + LeafSlot(e, x) <= PageMax(e)
    ensures Sum(LeafSizes(e, [x] + es)) <= PageMax(e) && Sum(LeafSizes(e, es + [x])) <= PageMax(e)
  {
    hide Sum, LeafSizes, LeafSlot;
    SlotLimits(e, x, 0);
    LeafSizesInsert(e, es, 0, x);
    LeafSizesInsert(e, es, |es|, x);
    assert es[..0] + [x] + es[0..] == [x] + es && es[..|es|] + [x] + es[|es|..] == es + [x];
  }

  lemma MovedRightLeaf(e: Env, a: Tree, b: Tree, s: Key)
    requires a.Leaf? && b.Leaf? && Pair(e, a, b, 0, s)
    requires |a.es| > 1 && 4 * Used(e, b) < PageMax(e)
    ensures Divides(e, MovedRight(e, a, b), 0, Flat(a) + Flat(b))
  {
    hide Sum, LeafSizes, LeafSlot, Above, Below, SortedEntries, Divides, EntryOk;
    var n := |a.es|;
    MergedLeaf(e, a, b, s);
    RoomInSmallLeaf(e, b.es, a.es[n - 1]);
    LeafSizesPrefix(e, a.es, n - 1);
    LeafCut(a.es, b.es);
    LeafHalves(e, a.es + b.es, n - 1);
  }

  lemma MovedLeftLeaf(e: Env, a: Tree, b: Tree, s: Key)
    requires a.Leaf? && b.Leaf? && Pair(e, a, b, 0, s)
    requires |b.es| > 1 && 4 * Used(e, a) < PageMax(e)
    ensures Divides(e, MovedLeft(e, a, b), 0, Flat(a) + Flat(b))
  {
    hide Sum, LeafSizes, LeafSlot, Above, Below, SortedEntries, Divides, EntryOk;
    MergedLeaf(e, a, b, s);
    RoomInSmallLeaf(e, a.es, b.es[0]);
    LeafSizesPrefix(e, b.es, 1);
    LeafCut(a.es, b.es);
    LeafHalves(e, a.es + b.es, |a.es| + 1);
  }

  /** Both moves between branches are the merged branch divided at another place. */
  lemma CutMerged(e: Env, a: Tree, b: Tree, h: nat, s: Key, keys: seq<Key>, kids: seq<Tree>, j: nat)
    requires a.Branch? && b.Branch? && Pair(e, a, b, h, s)
    requires keys == a.keys + [Lowest(b)] + b.keys && kids == a.kids + b.kids
    requires 2 <= j <= |kids| - 2 && |kids| == |keys| + 1
    requires Sum(KeySizes(e, keys[..j - 1])) <= PageMax(e) && Sum(KeySizes(e, keys[j..])) <= PageMax(e)
    ensures Divides(e, Two(Branch(keys[..j - 1], kids[..j]), keys[j - 1], Branch(keys[j..], kids[j..])), h, Flat(a) + Flat(b))
  {
    hide Sum, KeySlot, KeySizes, Separated, AllSound, Sound, FlatAll, Lowest, Above, Below;
    MergedBranch(e, a, b, h, s);
    BranchHalves(e, keys, kids, h, j);
  }

  lemma NoKeys(e: Env)
    ensures Sum(KeySizes(e, [])) == FIRST_SLOT
  {
    assert KeySizes(e, []) == [FIRST_SLOT];
    assert Sum([FIRST_SLOT]) == FIRST_SLOT;
  }

  /** A branch with few children has room for two more keys. */
  lemma RoomInSmall(e: Env, keys: seq<Key>, l: Key, s: Key)
    requires Sum(KeySizes(e, keys)) <= 532
    ensures Sum(KeySizes(e, keys)) + KeySlot(e, l) + KeySlot(e, s) <= PageMax(e)
    ensures Sum(KeySizes(e, [l] + keys)) <= PageMax(e) && Sum(KeySizes(e, keys + [l])) <= PageMax(e)
  {
    hide Sum, KeySizes, KeySlot;
    SlotLimits(e, Entry(0, 0, true), l);
    SlotLimits(e, Entry(0, 0, true), s);
    NoKeys(e);
    KeySizesJoin(e, [], l, keys);
    KeySizesJoin(e, keys, l, []);
    assert [] + [l] + keys == [l] + keys && keys + [l] + [] == keys + [l];
  }

  lemma RightCut(ak: seq<Key>, at: seq<Tree>, l: Key, bk: seq<Key>, bt: seq<Tree>)
    requires |at| == |ak| + 1 && |at| >= 2
    ensures var keys, kids, n := ak + [l] + bk, at + bt, |at|;
            && keys[..n - 2] == ak[..n - 2] && keys[n - 1..] == [l] + bk && keys[n - 2] == ak[n - 2]
            && kids[..n - 1] == at[..n - 1] && kids[n - 1..] == [at[n - 1]] + bt
  {
  }

  lemma LeftCut(ak: seq<Key>, at: seq<Tree>, l: Key, bk: seq<Key>, bt: seq<Tree>)
    requires |at| == |ak| + 1 && |bt| == |bk| + 1 && |bt| >= 2
    ensures var keys, kids, n := ak + [l] + bk, at + bt, |at|;
            && keys[..n] == ak + [l] && keys[n + 1..] == bk[1..] && keys[n] == bk[0]
            && kids[..n + 1] == at + [bt[0]] && kids[n + 1..] == bt[1..]
  {
  }

  lemma MovedRightBranch(e: Env, a: Tree, b: Tree, h: nat, s: Key)
    requires a.Branch? && b.Branch? && Pair(e, a, b, h, s) && Alike(a, b)
    requires |a.kids| > 2 && Used(e, b) <= 532
    ensures Divides(e, MovedRight(e, a, b), h, Flat(a) + Flat(b))
  {
    hide Sum, KeySizes, KeySlot, Separated, AllSound, Sound, Flat, FlatAll, Lowest, Above, Below, Divides;
    KidsOf(e, a, h, false);
    var n, l := |a.kids|, Lowest(b);
    RoomInSmall(e, b.keys, l, a.keys[n - 2]);
    KeySizesPrefix(e, a.keys, n - 2);
    RightCut(a.keys, a.kids, l, b.keys, b.kids);
    CutMerged(e, a, b, h, s, a.keys + [l] + b.keys, a.kids + b.kids, n - 1);
  }

  lemma MovedLeftBranch(e: Env, a: Tree, b: Tree, h: nat, s: Key)
    requires a.Branch? && b.Branch? && Pair(e, a, b, h, s) && Alike(a, b) && |a.kids| > 0
    requires |b.kids| > 2 && Used(e, a) <= 532
    ensures Divides(e, MovedLeft(e, a, b), h, Flat(a) + Flat(b))
  {
    hide Sum, KeySizes, KeySlot, Separated, AllSound, Sound, Flat, FlatAll, Lowest, Above, Below, Divides;
    KidsOf(e, b, h, false);
    var n, l := |a.kids|, Lowest(b);
    RoomInSmall(e, a.keys, l, l);
    KeySizesPrefix(e, b.keys, 1);
    LeftCut(a.keys, a.kids, l, b.keys, b.kids);
    CutMerged(e, a, b, h, s, a.keys + [l] + b.keys, a.kids + b.kids, n + 1);
  }

  // ---------------------------------------------------------------- the parent

  lemma UpdateKeySizes(e: Env, keys: seq<Key>, l: nat, s: Key)
    requires l < |keys|
    ensures Sum(KeySizes(e, keys[l := s])) + KeySlot(e, keys[l]) == Sum(KeySizes(e, keys)) + KeySlot(e, s)
    ensures KeySizes(e, keys[l := s])[l + 1] == KeySlot(e, s)
  {
    var c, c' := KeySizes(e, keys), KeySizes(e, keys[l := s]);
    Without(c, l + 1);
    Without(c', l + 1);
    assert c[..l + 1] == c'[..l + 1] && c[l + 2..] == c'[l + 2..];
  }

  lemma UpdateKeyFits(e: Env, keys: seq<Key>, l: nat, s: Key)
    requires l < |keys| && Sum(KeySizes(e, keys)) <= PageMax(e)
    ensures var old', new' := Even(e.ksize(keys[l])), Even(e.ksize(s));
            if new' > old' && PageMax(e) < Sum(KeySizes(e, keys)) + (new' - old')
            then Overfull(KeySizes(e, keys[l := s]), l + 1, PageMax(e))
            else Sum(KeySizes(e, keys[l := s])) <= PageMax(e)
  {
    hide Sum, KeySizes;
    UpdateKeySizes(e, keys, l, s);
    KeySizesEven(e, keys[l := s]);
  }

  /** What mdb_update_key makes of a branch whose children and separators are in order. */
  lemma UpdateKeyKeeps(e: Env, keys: seq<Key>, kids: seq<Tree>, h: nat, l: nat, s: Key)
    requires l < |keys| && |kids| == |keys| + 1 && Sum(KeySizes(e, keys)) <= PageMax(e)
    requires Separated(keys[l := s], kids) && AllSound(e, kids, h)
    ensures Keeps(e, UpdateKey(e, keys, kids, l, s), h + 1, FlatAll(kids))
  {
    hide Sum, KeySizes, Separated, AllSound, Sound, FlatAll, Above, Below, SplitBranch, Overfull;
    UpdateKeyFits(e, keys, l, s);
    if UpdateKey(e, keys, kids, l, s) == One(Branch(keys[l := s], kids)) && Sum(KeySizes(e, keys[l := s])) <= PageMax(e) {
      MakeBranch(e, keys[l := s], kids, h, true);
    } else {
      SplitBranchKeeps(e, keys[l := s], kids, h + 1, l + 1);
    }
  }

  /** Two neighbours replaced by two others with the same entries, divided at s. */
  lemma ReplaceTwo(keys: seq<Key>, kids: seq<Tree>, l: nat, a: Tree, s: Key, b: Tree)
    requires Separated(keys, kids) && l < |keys|
    requires Flat(a) + Flat(b) == Flat(kids[l]) + Flat(kids[l + 1])
    requires |Flat(a)| > 0 && |Flat(b)| > 0 && Below(Flat(a), s) && Above(Flat(b), s)
    ensures Separated(keys[l := s], kids[l := a][l + 1 := b])
  {
    hide Flat;
    var keys', kids' := keys[l := s], kids[l := a][l + 1 := b];
    OuterBounds(keys, kids, l);
    var es := Flat(a) + Flat(b);
    assert es[0] == Flat(a)[0] && es[|es| - 1] == Flat(b)[|Flat(b)| - 1];
    if l > 0 { AboveConcat(Flat(a), Flat(b), keys[l - 1]); }
    if l + 1 < |keys| { BelowConcat(Flat(a), Flat(b), keys[l + 1]); }
    assert SortedKeys(keys');
    hide SortedKeys;
    forall m | 0 <= m < |kids'|
      ensures Between(keys', m, Flat(kids'[m]))
    {
      if m < l || m > l + 1 {
        assert Between(keys, m, Flat(kids[m]));
      }
    }
  }

  /** The bounds of two neighbours together. */
  lemma OuterBounds(keys: seq<Key>, kids: seq<Tree>, l: nat)
    requires Separated(keys, kids) && l < |keys|
    ensures var es := Flat(kids[l]) + Flat(kids[l + 1]);
            && (l > 0 ==> Above(es, keys[l - 1]))
            && (l + 1 < |keys| ==> Below(es, keys[l + 1]))
  {
    assert Between(keys, l, Flat(kids[l])) && Between(keys, l + 1, Flat(kids[l + 1]));
  }

  lemma AroundTwo(kids: seq<Tree>, l: nat)
    requires l + 1 < |kids|
    ensures kids == kids[..l] + [kids[l], kids[l + 1]] + kids[l + 2..]
  {
  }

  lemma FlatPair(kids: seq<Tree>, l: nat)
    requires l + 1 < |kids|
    ensures FlatAll(kids) == FlatAll(kids[..l]) + (Flat(kids[l]) + Flat(kids[l + 1])) + FlatAll(kids[l + 2..])
  {
    AroundTwo(kids, l);
    FlatTwoParts(kids[..l], kids[l], kids[l + 1], kids[l + 2..]);
  }

  lemma FlatTwoReplaced(kids: seq<Tree>, l: nat, a: Tree, b: Tree)
    requires l + 1 < |kids| && Flat(a) + Flat(b) == Flat(kids[l]) + Flat(kids[l + 1])
    ensures FlatAll(kids[l := a][l + 1 := b]) == FlatAll(kids)
  {
    var kids' := kids[l := a][l + 1 := b];
    FlatPair(kids, l);
    FlatPair(kids', l);
    assert kids'[..l] == kids[..l] && kids'[l + 2..] == kids[l + 2..];
  }

  lemma SeparatedWithout(keys: seq<Key>, kids: seq<Tree>, l: nat, t: Tree)
    requires Separated(keys, kids) && l < |keys| && Flat(t) == Flat(kids[l]) + Flat(kids[l + 1])
    ensures Separated(keys[..l] + keys[l + 1..], kids[..l] + [t] + kids[l + 2..])
  {
    var keys', kids' := keys[..l] + keys[l + 1..], kids[..l] + [t] + kids[l + 2..];
    OuterBounds(keys, kids, l);
    forall m | 0 <= m < |kids'|
      ensures Between(keys', m, Flat(kids'[m]))
    {
      if m < l {
        assert Between(keys, m, Flat(kids[m]));
      } else if m > l {
        assert kids'[m] == kids[m + 1] && Between(keys, m + 1, Flat(kids[m + 1]));
      }
    }
  }

  lemma KeySizesWithout(e: Env, keys: seq<Key>, l: nat)
    requires l < |keys|
    ensures Sum(KeySizes(e, keys[..l] + keys[l + 1..])) <= Sum(KeySizes(e, keys))
  {
    var rest := keys[..l] + keys[l + 1..];
    KeySizesInsert(e, rest, l, keys[l]);
    assert rest[..l] + [keys[l]] + rest[l..] == keys;
  }

  /** All children are sound; child i need not have its minimum of nodes. */
  ghost predicate AllSoundBut(e: Env, kids: seq<Tree>, h: nat, i: nat) {
    forall j :: 0 <= j < |kids| ==> Sound(e, kids[j], h, j != i)
  }

  ghost predicate ShrunkKeeps(e: Env, r: Shrunk, h: nat, es: seq<Entry>) {
    if r.check then r.g.One? && Sound(e, r.g.t, h, false) && Flat(r.g.t) == es
    else Keeps(e, r.g, h, es)
  }

  lemma MergedKeeps(e: Env, a: Tree, b: Tree, h: nat, s: Key)
    requires Pair(e, a, b, h, s) && Mergeable(e, a, b) && NumKeys(a) + NumKeys(b) > 0
    ensures Alike(a, b) && Sound(e, Merged(a, b), h, true) && Flat(Merged(a, b)) == Flat(a) + Flat(b)
  {
    hide Sum, LeafSizes, KeySizes, Lowest, Separated, AllSound, FlatAll, Below, Above, Mergeable, SortedEntries;
    MergeFits(e, a, b, h);
    if a.Leaf? {
      MergedLeaf(e, a, b, s);
      SoundLeaf(e, a.es + b.es, h, true);
    } else {
      MergedBranch(e, a, b, h, s);
      SoundBranch(e, Merged(a, b), h, true);
    }
  }

  /** The branch after a merge: sound, but possibly with one child left. */
  lemma WithoutKidKeeps(e: Env, keys: seq<Key>, kids: seq<Tree>, h: nat, i: nat, l: nat, t: Tree)
    requires Separated(keys, kids) && AllSoundBut(e, kids, h, i) && |kids| == |keys| + 1
    requires l < |keys| && Sum(KeySizes(e, keys)) <= PageMax(e) && l <= i <= l + 1
    requires Sound(e, t, h, true) && Flat(t) == Flat(kids[l]) + Flat(kids[l + 1])
    ensures Sound(e, WithoutKid(keys, kids, l, t), h + 1, false)
    ensures Flat(WithoutKid(keys, kids, l, t)) == FlatAll(kids)
  {
    hide Sum, KeySizes, Separated, Flat, FlatAll, AllSoundBut, AllSound, Sound;
    var keys', kids' := keys[..l] + keys[l + 1..], kids[..l] + [t] + kids[l + 2..];
    SeparatedWithout(keys, kids, l, t);
    KeySizesWithout(e, keys, l);
    AllSoundWithout(e, kids, h, i, l, t);
    MakeBranch(e, keys', kids', h, false);
    FlatPair(kids, l);
    FlatParts(kids[..l], t, kids[l + 2..]);
    FlatBranch(keys', kids');
  }

  lemma FlatBranch(keys: seq<Key>, kids: seq<Tree>)
    ensures Flat(Branch(keys, kids)) == FlatAll(kids)
  {
  }

  lemma AllSoundWithout(e: Env, kids: seq<Tree>, h: nat, i: nat, l: nat, t: Tree)
    requires AllSoundBut(e, kids, h, i) && l + 1 < |kids| && l <= i <= l + 1 && Sound(e, t, h, true)
    ensures AllSound(e, kids[..l] + [t] + kids[l + 2..], h)
  {
    hide Sound;
  }

  lemma AllSoundReplaced(e: Env, kids: seq<Tree>, h: nat, i: nat, l: nat, a: Tree, b: Tree)
    requires AllSoundBut(e, kids, h, i) && l + 1 < |kids| && l <= i <= l + 1
    requires Sound(e, a, h, true) && Sound(e, b, h, true)
    ensures AllSound(e, kids[l := a][l + 1 := b], h)
  {
    hide Sound;
  }

  /** The parent after a node moved between children l and l + 1. */
  lemma MovedKeeps(e: Env, keys: seq<Key>, kids: seq<Tree>, h: nat, i: nat, l: nat, m: Grown)
    requires Separated(keys, kids) && AllSoundBut(e, kids, h, i) && |kids| == |keys| + 1
    requires l < |keys| && Sum(KeySizes(e, keys)) <= PageMax(e) && l <= i <= l + 1
    requires Divides(e, m, h, Flat(kids[l]) + Flat(kids[l + 1]))
    ensures Keeps(e, UpdateKey(e, keys, kids[l := m.left][l + 1 := m.right], l, m.sep), h + 1, FlatAll(kids))
  {
    hide Sum, KeySizes, Separated, Flat, FlatAll, AllSoundBut, AllSound, Sound, Above, Below, UpdateKey, Keeps;
    SoundIsNonEmpty(e, m.left, h);
    SoundIsNonEmpty(e, m.right, h);
    ReplaceTwo(keys, kids, l, m.left, m.sep, m.right);
    AllSoundReplaced(e, kids, h, i, l, m.left, m.right);
    FlatTwoReplaced(kids, l, m.left, m.right);
    UpdateKeyKeeps(e, keys, kids[l := m.left][l + 1 := m.right], h, l, m.sep);
  }

  lemma PairAt(e: Env, keys: seq<Key>, kids: seq<Tree>, h: nat, i: nat, l: nat)
    requires Separated(keys, kids) && AllSoundBut(e, kids, h, i) && l < |keys|
    ensures l + 1 < |kids| && Pair(e, kids[l], kids[l + 1], h, keys[l])
    ensures l != i ==> NumKeys(kids[l]) > 0
    ensures l + 1 != i ==> NumKeys(kids[l + 1]) > 0
  {
    assert Between(keys, l, Flat(kids[l])) && Between(keys, l + 1, Flat(kids[l + 1]));
    if l != i { Weaken(e, kids[l], h); }
    if l + 1 != i { Weaken(e, kids[l + 1], h); }
  }

  lemma BranchHasKid(e: Env, t: Tree, h: nat)
    requires t.Branch? && Sound(e, t, h, false)
    ensures |t.kids| == |t.keys| + 1
  {
    SoundBranch(e, t, h, false);
  }

  /** Moving a node never lacks room either, and leaves both pages with enough nodes. */
  lemma MoveKeeps(e: Env, a: Tree, b: Tree, h: nat, s: Key, toLeft: bool)
    requires Pair(e, a, b, h, s) && Alike(a, b)
    requires if toLeft then !NeedsNoRebalance(e, a) && CanSpareNode(e, b)
             else !NeedsNoRebalance(e, b) && CanSpareNode(e, a)
    ensures Divides(e, if toLeft then MovedLeft(e, a, b) else MovedRight(e, a, b), h, Flat(a) + Flat(b))
  {
    hide Sum, LeafSizes, KeySizes, Lowest, Separated, AllSound, FlatAll, Flat, Below, Above, MovedLeft, MovedRight, Divides, PageFill;
    if a.Leaf? {
      SmallLeaf(e, a);
      SmallLeaf(e, b);
      if toLeft { MovedLeftLeaf(e, a, b, s); } else { MovedRightLeaf(e, a, b, s); }
    } else {
      BranchHasKid(e, a, h);
      SmallBranch(e, a);
      SmallBranch(e, b);
      if toLeft { MovedLeftBranch(e, a, b, h, s); } else { MovedRightBranch(e, a, b, h, s); }
    }
  }

  lemma NowFull(e: Env, keys: seq<Key>, kids: seq<Tree>, h: nat, i: nat)
    requires AllSoundBut(e, kids, h, i) && i < |kids| && NeedsNoRebalance(e, kids[i])
    ensures AllSound(e, kids, h)
  {
    assert Sound(e, kids[i], h, true) by {
      hide AllSoundBut, AllSound;
      assert Sound(e, kids[i], h, false) by { KidLoose(e, kids, h, i); }
      if kids[i].Branch? {
        SoundBranch(e, kids[i], h, true);
        SoundBranch(e, kids[i], h, false);
      }
    }
  }

  lemma KidLoose(e: Env, kids: seq<Tree>, h: nat, i: nat)
    requires AllSoundBut(e, kids, h, i) && i < |kids|
    ensures Sound(e, kids[i], h, false)
  {
  }

  /** Rebalancing child i keeps the entries, the order, the depth and every size limit. */
  lemma RebalanceKeeps(e: Env, keys: seq<Key>, kids: seq<Tree>, h: nat, i: nat)
    requires Separated(keys, kids) && AllSoundBut(e, kids, h, i) && i < |kids| == |keys| + 1
    requires |kids| >= 2 && Sum(KeySizes(e, keys)) <= PageMax(e)
    ensures ShrunkKeeps(e, Rebalance(e, keys, kids, i), h + 1, FlatAll(kids))
  {
    hide Sum, KeySizes, Separated, Flat, FlatAll, AllSoundBut, AllSound, Sound, Above, Below,
         UpdateKey, WithoutKid, MovedLeft, MovedRight, Merged, NeedsNoRebalance, PageFill;
    if NeedsNoRebalance(e, kids[i]) {
      NowFull(e, keys, kids, h, i);
      MakeBranch(e, keys, kids, h, true);
      FlatBranch(keys, kids);
    } else {
      var l := if i == 0 then 0 else i - 1;
      var neighbour := if i == 0 then kids[1] else kids[i - 1];
      var a, b := kids[l], kids[l + 1];
      PairAt(e, keys, kids, h, i, l);
      SoundAlike(e, a, b, h);
      if CanSpareNode(e, neighbour) {
        MoveKeeps(e, a, b, h, keys[l], i == 0);
        MovedKeeps(e, keys, kids, h, i, l, if i == 0 then MovedLeft(e, a, b) else MovedRight(e, a, b));
      } else {
        MergeFits(e, a, b, h);
        MergedKeeps(e, a, b, h, keys[l]);
        WithoutKidKeeps(e, keys, kids, h, i, l, Merged(a, b));
      }
    }
  }

  /** Less than a quarter of a leaf page is used, or less than a thousandth of a branch page. */
  predicate Scant(e: Env, t: Tree) {
    (if t.Leaf? then 4 else 1000) * Used(e, t) < PageMax(e)
  }

  lemma ScantIs(e: Env, t: Tree)
    ensures NeedsNoRebalance(e, t) <==> !Scant(e, t) && NumKeys(t) >= (if t.Leaf? then 1 else 2)
    ensures CanSpareNode(e, t) <==> !Scant(e, t) && NumKeys(t) >= (if t.Leaf? then 2 else 3)
  {
    hide Sum;
    Permille(Used(e, t), PageMax(e), Threshold(t));
  }

  lemma Permille(u: nat, p: nat, n: nat)
    requires p > 0
    ensures 1000 * u / p >= n <==> 1000 * u >= n * p
  {
    var q := 1000 * u / p;
    assert q * p <= 1000 * u < (q + 1) * p;
    if q >= n {
      Product(n, q, p);
    } else {
      Product(q + 1, n, p);
    }
  }

  lemma Product(a: nat, b: nat, c: nat)
    requires a <= b
    ensures a * c <= b * c
  {
  }

  /** The entry nearest to the leaf i moves over from its neighbour. */
  function OneMoved(kids: seq<Tree>, i: nat, es: seq<Entry>, ns: seq<Entry>): seq<Tree>
    requires i < |kids| && |kids| >= 2 && |ns| >= 2
  {
    if i == 0 then kids[0 := Leaf(es + [ns[0]])][1 := Leaf(ns[1..])]
    else kids[i - 1 := Leaf(ns[..|ns| - 1])][i := Leaf([ns[|ns| - 1]] + es)]
  }

  /**
   What becomes of a leaf that lost an entry, the child i of its parent: at least a quarter full, it
   is left alone; otherwise it is joined with its neighbour, the left one if there is one, or gets
   the neighbour's nearest entry if that page is a quarter full itself and has one to spare.
   */
  lemma QuarterRule(e: Env, keys: seq<Key>, kids: seq<Tree>, h: nat, i: nat)
    requires Separated(keys, kids) && AllSoundBut(e, kids, h, i) && i < |kids| == |keys| + 1
    requires |kids| >= 2 && kids[i].Leaf?
    ensures var l, n := if i == 0 then 0 else i - 1, if i == 0 then 1 else i - 1;
            var r, es := Rebalance(e, keys, kids, i), kids[i].es;
            && kids[n].Leaf?
            && var ns := kids[n].es;
            if 4 * Used(e, kids[i]) >= PageMax(e) && |es| > 0 then
              r == Shrunk(One(Branch(keys, kids)), false)
            else if 4 * Used(e, kids[n]) < PageMax(e) || |ns| < 2 then
              r.check && r.g.One? && r.g.t.Branch? &&
              r.g.t.kids == kids[..l] + [Leaf(if i == 0 then es + ns else ns + es)] + kids[l + 2..]
            else
              !r.check && (r.g.One? ==> r.g.t.Branch? && r.g.t.kids == OneMoved(kids, i, es, ns))
  {
    hide Sum, KeySizes, LeafSizes, Separated, Flat, FlatAll, AllSoundBut, AllSound, Sound, Above, Below, UpdateKey, Used,
         NeedsNoRebalance, CanSpareNode;
    var l, n := if i == 0 then 0 else i - 1, if i == 0 then 1 else i - 1;
    PairAt(e, keys, kids, h, i, l);
    SoundAlike(e, kids[l], kids[l + 1], h);
    ScantIs(e, kids[i]);
    ScantIs(e, kids[n]);
    if !NeedsNoRebalance(e, kids[i]) {
      if CanSpareNode(e, kids[n]) {
        MoveKeeps(e, kids[l], kids[l + 1], h, keys[l], i == 0);
        UpdateKeyKids(e, keys, kids, l);
      } else {
        MergeFits(e, kids[l], kids[l + 1], h);
      }
    }
  }

  lemma UpdateKeyKids(e: Env, keys: seq<Key>, kids: seq<Tree>, l: nat)
    requires l < |keys| && |kids| == |keys| + 1
    ensures forall ks: seq<Tree>, s: Key :: |ks| == |kids| && UpdateKey(e, keys, ks, l, s).One? ==>
              UpdateKey(e, keys, ks, l, s).t == Branch(keys[l := s], ks)
  {
    hide Sum, KeySizes;
  }

  // ---------------------------------------------------------------- deletion

  /** The sorted entries without the one with key k. */
  function DelFlat(es: seq<Entry>, k: Key): seq<Entry> {
    var p := LeafPos(es, k);
    if FoundAt(es, p, k) then Without1(es, p) else es
  }

  /** What a search of the sorted entries finds. */
  function LookupFlat(es: seq<Entry>, k: Key): Option<Val> {
    var p := LeafPos(es, k);
    if FoundAt(es, p, k) then Some(es[p].val) else None
  }

  lemma AtInside(a: seq<Entry>, es: seq<Entry>, b: seq<Entry>, p: nat)
    requires p < |es|
    ensures (a + es + b)[|a| + p] == es[p]
  {
  }

  lemma FlatInside(a: seq<Entry>, es: seq<Entry>, b: seq<Entry>, k: Key)
    requires Below(a, k) && SortedEntries(es) && After(b, k)
    ensures LookupFlat(a + es + b, k) == LookupFlat(es, k)
    ensures LookupFlat(es, k).Some? ==> DelFlat(a + es + b, k) == a + DelFlat(es, k) + b
  {
    hide LeafPos;
    var p := LeafPos(es, k);
    LeafPosInside(a, es, b, k);
    if FoundAt(es, p, k) {
      AtInside(a, es, b, p);
      SpliceInside(a, es, b, p, [], p + 1);
      assert es[..p] + [] == es[..p];
      assert (a + es + b)[..|a| + p] + [] == (a + es + b)[..|a| + p];
    }
  }

  /** One level of the search: only the chosen child matters. */
  lemma KidMatters(e: Env, keys: seq<Key>, kids: seq<Tree>, h: nat, k: Key)
    requires Separated(keys, kids) && AllSound(e, kids, h) && |kids| == |keys| + 1
    ensures var i := KidPos(keys, k);
            && i < |kids|
            && LookupFlat(FlatAll(kids), k) == LookupFlat(Flat(kids[i]), k)
            && (LookupFlat(Flat(kids[i]), k).Some? ==>
                DelFlat(FlatAll(kids), k) == FlatAll(kids[..i]) + DelFlat(Flat(kids[i]), k) + FlatAll(kids[i + 1..]))
  {
    hide Separated, AllSound, Sound, Flat, FlatAll, LookupFlat, DelFlat, KidPos, SortedEntries, Below, After;
    KidAround(e, keys, kids, h, k);
    var i := KidPos(keys, k);
    FlatInside(FlatAll(kids[..i]), Flat(kids[i]), FlatAll(kids[i + 1..]), k);
    FlatAt(kids, i);
  }

  /** Following one child on each level finds what the whole tree holds. */
  lemma {:induction false} LookupIsFlat(e: Env, t: Tree, h: nat, k: Key)
    requires Sound(e, t, h, true)
    ensures Lookup(t, k) == LookupFlat(Flat(t), k)
    decreases t
  {
    hide KidPos, Separated, FlatAll, Sound, AllSound, LeafPos, Sum, KeySizes;
    if t.Branch? {
      KidsOf(e, t, h, true);
      KidMatters(e, t.keys, t.kids, h - 1, k);
      KidIsSound(e, t.kids, h - 1, KidPos(t.keys, k));
      LookupIsFlat(e, t.kids[KidPos(t.keys, k)], h - 1, k);
    }
  }

  lemma DelStaysBetween(keys: seq<Key>, i: nat, es: seq<Entry>, k: Key)
    requires i <= |keys| && Between(keys, i, es)
    ensures Between(keys, i, DelFlat(es, k))
  {
    hide LeafPos;
    var p := LeafPos(es, k);
    if FoundAt(es, p, k) {
      BetweenSlice(keys, i, es, 0, p);
      BetweenSlice(keys, i, es, p + 1, |es|);
      BetweenConcat(keys, i, es[..p], es[p + 1..]);
    }
  }

  lemma ButOne(e: Env, kids: seq<Tree>, h: nat, i: nat, t: Tree)
    requires AllSound(e, kids, h) && i < |kids| && Sound(e, t, h, false)
    ensures AllSoundBut(e, kids[i := t], h, i)
  {
    hide Sound;
  }

  /** The branch after the deletion in its child i. */
  lemma ShrinkKeeps(e: Env, keys: seq<Key>, kids: seq<Tree>, h: nat, i: nat, r: Shrunk, es: seq<Entry>)
    requires Separated(keys, kids) && AllSound(e, kids, h) && i < |kids| == |keys| + 1 && |kids| >= 2
    requires Sum(KeySizes(e, keys)) <= PageMax(e) && Between(keys, i, es) && ShrunkKeeps(e, r, h, es)
    ensures ShrunkKeeps(e, Shrink(e, keys, kids, i, r), h + 1, FlatAll(kids[..i]) + es + FlatAll(kids[i + 1..]))
  {
    hide Separated, AllSound, AllSoundBut, Sound, Flat, FlatAll, Sum, KeySizes, Above, Below, Rebalance, ReplaceKid, Between;
    if r.check {
      SeparatedReplace(keys, kids, i, r.g.t);
      ButOne(e, kids, h, i, r.g.t);
      FlatReplace(kids, i, r.g.t);
      RebalanceKeeps(e, keys, kids[i := r.g.t], h, i);
    } else {
      KidReplaced(e, keys, kids, h, i, r.g, es);
    }
  }

  lemma DelLeafKeeps(e: Env, es: seq<Entry>, k: Key)
    requires Sound(e, Leaf(es), 0, true) && LookupFlat(es, k).Some?
    ensures ShrunkKeeps(e, DelTree(e, Leaf(es), k), 0, DelFlat(es, k))
  {
    hide LeafPos, Sum;
    var p := LeafPos(es, k);
    LeafSizesWithout(e, es, p);
    SoundLeaf(e, Without1(es, p), 0, false);
    assert SortedEntries(Without1(es, p));
  }

  lemma DelTreeBranch(e: Env, t: Tree, k: Key)
    requires t.Branch? && |t.kids| == |t.keys| + 1
    ensures var i := KidPos(t.keys, k);
            DelTree(e, t, k) == Shrink(e, t.keys, t.kids, i, DelTree(e, t.kids[i], k))
  {
  }

  /** A deletion removes exactly the entry with key k, whatever moves and merges it causes. */
  lemma {:induction false} DelTreeKeeps(e: Env, t: Tree, h: nat, k: Key)
    requires Sound(e, t, h, true) && LookupFlat(Flat(t), k).Some?
    ensures ShrunkKeeps(e, DelTree(e, t, k), h, DelFlat(Flat(t), k))
    decreases t
  {
    hide LookupFlat, DelFlat, Shrink, ShrunkKeeps, KidPos, Sum, KeySizes, Between, Separated, Sound, AllSound, FlatAll, DelTree;
    if t.Leaf? {
      SoundLeaf(e, t.es, h, true);
      DelLeafKeeps(e, t.es, k);
    } else {
      KidsOf(e, t, h, true);
      DelTreeBranch(e, t, k);
      KidMatters(e, t.keys, t.kids, h - 1, k);
      var i := KidPos(t.keys, k);
      KidIsSound(e, t.kids, h - 1, i);
      DelTreeKeeps(e, t.kids[i], h - 1, k);
      KidBounds(t.keys, t.kids, i);
      DelStaysBetween(t.keys, i, Flat(t.kids[i]), k);
      ShrinkKeeps(e, t.keys, t.kids, h - 1, i, DelTree(e, t.kids[i], k), DelFlat(Flat(t.kids[i]), k));
    }
  }

  // ---------------------------------------------------------------- the map

  lemma LookupFlatIsMap(es: seq<Entry>, k: Key)
    requires SortedEntries(es)
    ensures LookupFlat(es, k) == if k in ToMap(es) then Some(ToMap(es)[k]) else None
  {
    hide LeafPos, ToMap;
    if k in ToMap(es) {
      MapKeys(es, k);
      var i :| 0 <= i < |es| && es[i].key == k;
      LeafPosIs(es, k, i);
      MapAt(es, i);
    } else if FoundAt(es, LeafPos(es, k), k) {
      MapAt(es, LeafPos(es, k));
    }
  }

  /** The entries of Without1 are those of es but for the one at p. */
  lemma WithoutAt(es: seq<Entry>, p: nat, i: nat)
    requires p < |es| && i < |es| && i != p
    ensures var j := if i < p then i else i - 1;
            j < |Without1(es, p)| && Without1(es, p)[j] == es[i]
  {
  }

  lemma WithoutKeys(es: seq<Entry>, p: nat, k': Key)
    requires p < |es| && SortedEntries(es) && SortedEntries(Without1(es, p))
    ensures k' in ToMap(Without1(es, p)) ==>
            k' != es[p].key && k' in ToMap(es) && ToMap(es)[k'] == ToMap(Without1(es, p))[k']
  {
    hide ToMap;
    var r := Without1(es, p);
    if k' in ToMap(r) {
      MapKeys(r, k');
      var j :| 0 <= j < |r| && r[j].key == k';
      var i := if j < p then j else j + 1;
      WithoutAt(es, p, i);
      MapAt(r, j);
      MapAt(es, i);
    }
  }

  lemma WithoutKeepsKey(es: seq<Entry>, p: nat, k': Key)
    requires p < |es| && SortedEntries(Without1(es, p)) && k' in ToMap(es) && k' != es[p].key
    ensures k' in ToMap(Without1(es, p))
  {
    hide ToMap;
    MapKeys(es, k');
    var i :| 0 <= i < |es| && es[i].key == k';
    WithoutAt(es, p, i);
    MapAt(Without1(es, p), if i < p then i else i - 1);
  }

  /** In terms of the map, DelFlat is the removal of one key. */
  lemma DelFlatIsRemoval(es: seq<Entry>, k: Key)
    requires SortedEntries(es)
    ensures SortedEntries(DelFlat(es, k)) && ToMap(DelFlat(es, k)) == ToMap(es) - {k}
  {
    hide LeafPos, ToMap;
    LookupFlatIsMap(es, k);
    var p := LeafPos(es, k);
    if FoundAt(es, p, k) {
      assert SortedEntries(Without1(es, p));
      forall k' ensures k' in ToMap(Without1(es, p)) ==>
            k' != es[p].key && k' in ToMap(es) && ToMap(es)[k'] == ToMap(Without1(es, p))[k'] {
        WithoutKeys(es, p, k');
      }
      forall k' | k' in ToMap(es) && k' != k
        ensures k' in ToMap(Without1(es, p))
      {
        WithoutKeepsKey(es, p, k');
      }
    }
  }

  // ---------------------------------------------------------------- the database

  lemma ShrunkRoot(e: Env, t: Tree, h: nat)
    requires Sound(e, t, h, false)
    ensures DbOk(e, ShrinkRoot(t, h + 1)) && Contents(ShrinkRoot(t, h + 1)) == ToMap(Flat(t))
  {
    if t.Leaf? {
    } else {
      KidsOf(e, t, h, false);
      if |t.kids| == 1 {
        assert Sound(e, t.kids[0], h - 1, true);
        FlatOne(t.kids[0]);
        assert t.kids == [t.kids[0]];
      } else {
        MakeBranch(e, t.keys, t.kids, h - 1, true);
      }
    }
  }

  lemma DbRoot(e: Env, d: Db)
    requires DbOk(e, d) && d.root.Some?
    ensures d.depth > 0 && Sound(e, d.root.value, d.depth - 1, true) && Contents(d) == ToMap(Flat(d.root.value))
    ensures SortedEntries(Flat(d.root.value))
  {
    Weaken(e, d.root.value, d.depth - 1);
    FlatIsSorted(e, d.root.value, d.depth - 1);
  }

  /** mdb_get: the search agrees with the map. */
  lemma GetIsLookup(e: Env, d: Db, k: Key)
    requires DbOk(e, d)
    ensures (if d.root.None? then None else Lookup(d.root.value, k)) ==
            if k in Contents(d) then Some(Contents(d)[k]) else None
  {
    if d.root.Some? {
      DbRoot(e, d);
      LookupIsFlat(e, d.root.value, d.depth - 1, k);
      LookupFlatIsMap(Flat(d.root.value), k);
    }
  }

  lemma DeletedRoot(e: Env, r: Shrunk, h: nat, es: seq<Entry>)
    requires ShrunkKeeps(e, r, h, es) && !r.g.Full?
    ensures var d' := match r.g
                      case One(t) => if r.check then ShrinkRoot(t, h + 1) else Db(Some(t), h + 1)
                      case Two(a, s, b) => Db(Some(Branch([s], [a, b])), h + 2);
            DbOk(e, d') && Contents(d') == ToMap(es)
  {
    hide ToMap, Sound, FlatAll, ShrinkRoot;
    if r.check {
      ShrunkRoot(e, r.g.t, h);
    } else if r.g.Two? {
      NewRoot(e, r.g, h, es);
    }
  }

  /**
   mdb_del refines the removal of one key: it says MDB_NOTFOUND exactly when the key is absent,
   and otherwise leaves, unless a branch split fails, a sound database without that key.
   */
  lemma DelRefinesRemoval(e: Env, d: Db, k: Key)
    requires DbOk(e, d)
    ensures match Del(e, d, k)
            case NotFound => k !in Contents(d)
            case Deleted(d') => k in Contents(d) && DbOk(e, d') && Contents(d') == Contents(d) - {k}
            case Failed => k in Contents(d)
  {
    hide DbOk, Contents, Lookup, DelTree, ShrinkRoot, ToMap, Flat, SortedEntries, ShrunkKeeps, DelFlat;
    GetIsLookup(e, d, k);
    if d.root.Some? && Lookup(d.root.value, k).Some? {
      var t, h := d.root.value, d.depth - 1;
      DbRoot(e, d);
      LookupIsFlat(e, t, h, k);
      DelTreeKeeps(e, t, h, k);
      DelFlatIsRemoval(Flat(t), k);
      var r := DelTree(e, t, k);
      if !r.g.Full? {
        DeletedRoot(e, r, h, DelFlat(Flat(t), k));
      }
    }
  }
}
