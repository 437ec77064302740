/** Splits and puts: what they keep of a tree and what they do to its contents. */
module BTreePut {
  import opened Base
  import opened Sizes
  import opened SplitPoint
  import opened BTree

  // ---------------------------------------------------------------- concatenation

  lemma {:induction false} FlatConcat(a: seq<Tree>, b: seq<Tree>)
    ensures FlatAll(a + b) == FlatAll(a) + FlatAll(b)
  {
    if a == [] {
      assert a + b == b;
    } else {
      assert (a + b)[1..] == a[1..] + b;
      FlatConcat(a[1..], b);
    }
  }

  lemma FlatOne(t: Tree)
    ensures FlatAll([t]) == Flat(t)
  {
    assert FlatAll([t]) == Flat(t) + FlatAll([t][1..]);
  }

  lemma FlatParts(a: seq<Tree>, t: Tree, c: seq<Tree>)
    ensures FlatAll(a + [t] + c) == FlatAll(a) + Flat(t) + FlatAll(c)
  {
    FlatConcat(a + [t], c);
    FlatConcat(a, [t]);
    FlatOne(t);
  }

  lemma Around(kids: seq<Tree>, i: nat)
    requires i < |kids|
    ensures kids == kids[..i] + [kids[i]] + kids[i + 1..]
  {
  }

  /** The entries before and after those of child i. */
  lemma FlatAt(kids: seq<Tree>, i: nat)
    requires i < |kids|
    ensures FlatAll(kids) == FlatAll(kids[..i]) + Flat(kids[i]) + FlatAll(kids[i + 1..])
  {
    Around(kids, i);
    FlatParts(kids[..i], kids[i], kids[i + 1..]);
  }

  lemma FlatReplace(kids: seq<Tree>, i: nat, t: Tree)
    requires i < |kids|
    ensures FlatAll(kids[i := t]) == FlatAll(kids[..i]) + Flat(t) + FlatAll(kids[i + 1..])
  {
    var kids' := kids[i := t];
    FlatAt(kids', i);
    assert kids'[..i] == kids[..i] && kids'[i + 1..] == kids[i + 1..];
  }

  lemma FlatTwoParts(a: seq<Tree>, x: Tree, y: Tree, c: seq<Tree>)
    ensures FlatAll(a + [x, y] + c) == FlatAll(a) + (Flat(x) + Flat(y)) + FlatAll(c)
  {
    FlatConcat(a + [x, y], c);
    FlatConcat(a, [x, y]);
    assert [x, y] == [x] + [y];
    FlatConcat([x], [y]);
    FlatOne(x);
    FlatOne(y);
  }

  // ---------------------------------------------------------------- order

  predicate After(es: seq<Entry>, k: Key) {
    forall j :: 0 <= j < |es| ==> k < es[j].key
  }

  lemma BelowConcat(a: seq<Entry>, b: seq<Entry>, hi: Key)
    ensures Below(a + b, hi) <==> Below(a, hi) && Below(b, hi)
  {
    if Below(a + b, hi) {
      forall j | 0 <= j < |a| ensures a[j].key < hi { assert a[j] == (a + b)[j]; }
      forall j | 0 <= j < |b| ensures b[j].key < hi { assert b[j] == (a + b)[|a| + j]; }
    }
  }

  lemma AboveConcat(a: seq<Entry>, b: seq<Entry>, lo: Key)
    ensures Above(a + b, lo) <==> Above(a, lo) && Above(b, lo)
  {
    if Above(a + b, lo) {
      forall j | 0 <= j < |a| ensures lo <= a[j].key { assert a[j] == (a + b)[j]; }
      forall j | 0 <= j < |b| ensures lo <= b[j].key { assert b[j] == (a + b)[|a| + j]; }
    }
  }

  lemma SortedConcat(a: seq<Entry>, b: seq<Entry>, k: Key)
    requires SortedEntries(a) && SortedEntries(b) && Below(a, k) && Above(b, k)
    ensures SortedEntries(a + b)
  {
  }

  /** A sound page below the top is not empty. */
  lemma {:induction false} SoundIsNonEmpty(e: Env, t: Tree, h: nat)
    requires Sound(e, t, h, true)
    ensures |Flat(t)| > 0
    decreases t
  {
    if t.Branch? {
      SoundIsNonEmpty(e, t.kids[0], h - 1);
    }
  }

  /** The entries of the first m children are sorted and lie below separator m - 1. */
  lemma {:induction false} PrefixSorted(e: Env, keys: seq<Key>, kids: seq<Tree>, h: nat, m: nat)
    requires Separated(keys, kids) && m <= |kids|
    requires AllSound(e, kids, h)
    ensures SortedEntries(FlatAll(kids[..m]))
    ensures 0 < m <= |keys| ==> Below(FlatAll(kids[..m]), keys[m - 1])
    decreases kids, m
  {
    if m > 0 {
      PrefixSorted(e, keys, kids, h, m - 1);
      FlatIsSorted(e, kids[m - 1], h);
      assert kids[..m] == kids[..m - 1] + [kids[m - 1]];
      FlatConcat(kids[..m - 1], [kids[m - 1]]);
      FlatOne(kids[m - 1]);
      assert Between(keys, m - 1, Flat(kids[m - 1]));
      if m > 1 {
        SortedConcat(FlatAll(kids[..m - 1]), Flat(kids[m - 1]), keys[m - 2]);
      }
      if m <= |keys| {
        BelowConcat(FlatAll(kids[..m - 1]), Flat(kids[m - 1]), keys[m - 1]);
      }
    }
  }

  lemma {:induction false} SuffixAbove(keys: seq<Key>, kids: seq<Tree>, m: nat)
    requires Separated(keys, kids) && 0 < m <= |kids|
    ensures m <= |keys| ==> Above(FlatAll(kids[m..]), keys[m - 1])
    decreases |kids| - m
  {
    if m < |kids| {
      SuffixAbove(keys, kids, m + 1);
      assert kids[m..][1..] == kids[m + 1..];
      assert Between(keys, m, Flat(kids[m]));
      AboveConcat(Flat(kids[m]), FlatAll(kids[m + 1..]), keys[m - 1]);
      if m + 1 <= |keys| {
        assert keys[m - 1] < keys[m];
      }
    }
  }

  lemma {:induction false} FlatIsSorted(e: Env, t: Tree, h: nat)
    requires Sound(e, t, h, false)
    ensures SortedEntries(Flat(t))
    decreases t
  {
    if t.Branch? {
      PrefixSorted(e, t.keys, t.kids, h - 1, |t.kids|);
      assert t.kids[..|t.kids|] == t.kids;
    }
  }

  // ---------------------------------------------------------------- splits

  lemma SliceEntriesOk(e: Env, es: seq<Entry>, i: nat, j: nat)
    requires EntriesOk(e, es) && i <= j <= |es|
    ensures EntriesOk(e, es[i..j])
  {
  }

  lemma LeafSizesSlice(e: Env, c: seq<Entry>, j: nat)
    requires j <= |c|
    ensures LeafSizes(e, c[..j]) == LeafSizes(e, c)[..j]
    ensures LeafSizes(e, c[j..]) == LeafSizes(e, c)[j..]
  {
  }

  ghost predicate Divides(e: Env, g: Grown, h: nat, es: seq<Entry>)
  {
    && g.Two? && FlatGrown(g) == es
    && Sound(e, g.left, h, true) && Sound(e, g.right, h, true)
    && Below(Flat(g.left), g.sep) && Above(Flat(g.right), g.sep)
  }

  lemma LeafHalves(e: Env, c: seq<Entry>, j: nat)
    requires EntriesOk(e, c) && 0 < j < |c|
    requires Sum(LeafSizes(e, c[..j])) <= PageMax(e) && Sum(LeafSizes(e, c[j..])) <= PageMax(e)
    ensures Divides(e, Two(Leaf(c[..j]), c[j].key, Leaf(c[j..])), 0, c)
  {
    SliceEntriesOk(e, c, 0, j);
    SliceEntriesOk(e, c, j, |c|);
    assert c == c[..j] + c[j..];
  }

  /** A leaf split divides the entries in order, between two sound leaves. */
  lemma SplitLeafKeeps(e: Env, c: seq<Entry>, newindx: nat)
    requires EntriesOk(e, c) && Overfull(LeafSizes(e, c), newindx, PageMax(e))
    ensures var g := SplitLeaf(e, c, newindx);
            g.Full? || Divides(e, g, 0, c)
  {
    SplitInside(LeafSizes(e, c), newindx, true, PageMax(e));
    var j := SplitIndex(LeafSizes(e, c), newindx, true, PageMax(e));
    if !SplitLeaf(e, c, newindx).Full? {
      LeafHalves(e, c, j);
    }
  }

  /** The chosen index is never at an end. */
  lemma SplitInside(c: seq<nat>, newindx: nat, leaf: bool, pmax: nat)
    requires Overfull(c, newindx, pmax)
    ensures |c| >= 3 && 0 < SplitIndex(c, newindx, leaf, pmax) < |c|
  {
    OverfullHasThree(c, newindx, pmax);
    if Searched(c, newindx, pmax) {
      SearchedSplitFits(c, newindx, leaf, pmax);
    }
  }

  lemma PageNeedsEight(s: seq<nat>, pmax: nat)
    requires Sum(s) > pmax >= 4080 && forall i :: 0 <= i < |s| ==> s[i] <= 522
    ensures |s| >= 8
  {
    SumAtMost(s, 522);
  }

  lemma ForwardLeavesTwo(c: seq<nat>, k: nat, pmax: nat)
    requires 4 <= k < |c| && pmax >= 4080 && forall i :: 0 <= i < |c| ==> c[i] <= 522
    ensures 2 <= Forward(c, 0, 0, k, pmax) <= |c| - 2
  {
    ForwardFinds(c, 0, 0, k, pmax);
    var j := Forward(c, 0, 0, k, pmax);
    if j != k - 1 {
      PageNeedsEight(c[..j + 1], pmax);
    }
  }

  lemma BackwardLeavesTwo(c: seq<nat>, middle: nat, pmax: nat)
    requires 1 <= middle <= |c| - 3 && pmax >= 4080 && forall i :: 0 <= i < |c| ==> c[i] <= 522
    ensures 2 <= Backward(c, |c| - 1, 0, middle, pmax) <= |c| - 2
  {
    assert c[|c|..] == [];
    BackwardFinds(c, |c| - 1, 0, middle, pmax);
    var j := Backward(c, |c| - 1, 0, middle, pmax);
    if j != middle + 1 {
      PageNeedsEight(c[j - 1..], pmax);
    }
  }

  /** Nodes of at most 522 bytes: both parts of a split branch have at least two. */
  lemma BranchSplitLeavesTwo(c: seq<nat>, newindx: nat, pmax: nat)
    requires Overfull(c, newindx, pmax) && pmax >= 4080
    requires forall i :: 0 <= i < |c| ==> c[i] <= 522
    ensures |c| >= 8 && 2 <= SplitIndex(c, newindx, false, pmax) <= |c| - 2
  {
    PageNeedsEight(c, pmax);
    var n := |c| - 1;
    var middle := (n + 1) / 2;
    if newindx >= n {
      ForwardLeavesTwo(c, n, pmax);
    } else if newindx <= middle {
      ForwardLeavesTwo(c, middle + 1, pmax);
    } else {
      BackwardLeavesTwo(c, middle, pmax);
    }
  }

  lemma SeparatedSlice(keys: seq<Key>, kids: seq<Tree>, j: nat)
    requires Separated(keys, kids) && 0 < j < |kids|
    ensures Separated(keys[..j - 1], kids[..j]) && Separated(keys[j..], kids[j..])
  {
    var lk, lt, rk, rt := keys[..j - 1], kids[..j], keys[j..], kids[j..];
    forall i | 0 <= i < |lt|
      ensures Between(lk, i, Flat(lt[i]))
    {
      assert Between(keys, i, Flat(kids[i]));
    }
    forall i | 0 <= i < |rt|
      ensures Between(rk, i, Flat(rt[i]))
    {
      assert Between(keys, i + j, Flat(kids[i + j]));
    }
  }

  lemma AllSoundSlice(e: Env, kids: seq<Tree>, h: nat, j: nat)
    requires AllSound(e, kids, h) && j <= |kids|
    ensures AllSound(e, kids[..j], h) && AllSound(e, kids[j..], h)
  {
    hide Sound;
  }

  lemma BranchHalves(e: Env, keys: seq<Key>, kids: seq<Tree>, h: nat, j: nat)
    requires Separated(keys, kids) && h > 0 && 2 <= j <= |kids| - 2 && |kids| == |keys| + 1
    requires AllSound(e, kids, h - 1)
    requires Sum(KeySizes(e, keys[..j - 1])) <= PageMax(e) && Sum(KeySizes(e, keys[j..])) <= PageMax(e)
    ensures Divides(e, Two(Branch(keys[..j - 1], kids[..j]), keys[j - 1], Branch(keys[j..], kids[j..])), h, FlatAll(kids))
  {
    hide Separated, AllSound, FlatAll, Sum, KeySizes, Above, Below;
    SeparatedSlice(keys, kids, j);
    AllSoundSlice(e, kids, h - 1, j);
    assert kids == kids[..j] + kids[j..];
    FlatConcat(kids[..j], kids[j..]);
    PrefixSorted(e, keys, kids, h - 1, j);
    SuffixAbove(keys, kids, j);
    MakeBranch(e, keys[..j - 1], kids[..j], h - 1, true);
    MakeBranch(e, keys[j..], kids[j..], h - 1, true);
  }

  /** A branch split divides the children in order, between two sound branches. */
  lemma SplitBranchKeeps(e: Env, keys: seq<Key>, kids: seq<Tree>, h: nat, newindx: nat)
    requires Separated(keys, kids) && h > 0 && |kids| == |keys| + 1
    requires AllSound(e, kids, h - 1)
    requires Overfull(KeySizes(e, keys), newindx, PageMax(e))
    ensures var g := SplitBranch(e, keys, kids, newindx);
            g.Full? || Divides(e, g, h, FlatAll(kids))
  {
    KeySizesEven(e, keys);
    BranchSplitLeavesTwo(KeySizes(e, keys), newindx, PageMax(e));
    var j := SplitIndex(KeySizes(e, keys), newindx, false, PageMax(e));
    if !SplitBranch(e, keys, kids, newindx).Full? {
      BranchHalves(e, keys, kids, h, j);
    }
  }

  // ---------------------------------------------------------------- adding a child

  lemma SeparatedInsert(e: Env, keys: seq<Key>, kids: seq<Tree>, i: nat, a: Tree, s: Key, b: Tree)
    requires Separated(keys, kids) && i < |kids|
    requires |Flat(a)| > 0 && |Flat(b)| > 0 && Below(Flat(a), s) && Above(Flat(b), s)
    requires Between(keys, i, Flat(a)) && Between(keys, i, Flat(b))
    ensures Separated(keys[..i] + [s] + keys[i..], kids[..i] + [a, b] + kids[i + 1..])
  {
    hide Flat;
    var keys', kids' := keys[..i] + [s] + keys[i..], kids[..i] + [a, b] + kids[i + 1..];
    assert i > 0 ==> keys[i - 1] <= Flat(a)[0].key < s;
    assert i < |keys| ==> s <= Flat(b)[0].key < keys[i];
    forall m | 0 <= m < |kids'|
      ensures Between(keys', m, Flat(kids'[m]))
    {
      if m < i {
        assert Between(keys, m, Flat(kids[m]));
      } else if m > i + 1 {
        assert kids'[m] == kids[m - 1] && Between(keys, m - 1, Flat(kids[m - 1]));
      }
    }
  }

  lemma BetweenConcat(keys: seq<Key>, i: nat, a: seq<Entry>, b: seq<Entry>)
    requires i <= |keys|
    ensures Between(keys, i, a + b) <==> Between(keys, i, a) && Between(keys, i, b)
  {
    if i > 0 {
      AboveConcat(a, b, keys[i - 1]);
    }
    if i < |keys| {
      BelowConcat(a, b, keys[i]);
    }
  }

  /** What a put or a separator update makes of a sound tree of height h with entries es. */
  ghost predicate Keeps(e: Env, g: Grown, h: nat, es: seq<Entry>)
  {
    match g
    case Full => true
    case One(t) => Sound(e, t, h, true) && Flat(t) == es
    case Two(_, _, _) => Divides(e, g, h, es)
  }

  lemma MakeBranch(e: Env, keys: seq<Key>, kids: seq<Tree>, h: nat, full: bool)
    requires Separated(keys, kids) && AllSound(e, kids, h)
    requires Sum(KeySizes(e, keys)) <= PageMax(e) && (full ==> |kids| >= 2)
    ensures Sound(e, Branch(keys, kids), h + 1, full)
  {
    SoundBranch(e, Branch(keys, kids), h + 1, full);
  }

  lemma KidsOf(e: Env, t: Tree, h: nat, full: bool)
    requires Sound(e, t, h, full) && t.Branch?
    ensures h > 0 && Separated(t.keys, t.kids) && AllSound(e, t.kids, h - 1) && |t.kids| == |t.keys| + 1
    ensures Sum(KeySizes(e, t.keys)) <= PageMax(e) && (full ==> |t.kids| >= 2)
  {
    SoundBranch(e, t, h, full);
  }

  lemma AllSoundTwo(e: Env, kids: seq<Tree>, h: nat, i: nat, a: Tree, b: Tree)
    requires AllSound(e, kids, h) && i < |kids|
    requires Sound(e, a, h, true) && Sound(e, b, h, true)
    ensures AllSound(e, kids[..i] + [a, b] + kids[i + 1..], h)
  {
  }

  lemma SeparatedReplace(keys: seq<Key>, kids: seq<Tree>, i: nat, t: Tree)
    requires Separated(keys, kids) && i < |kids| && Between(keys, i, Flat(t))
    ensures Separated(keys, kids[i := t])
  {
  }

  lemma AddKidKeeps(e: Env, keys: seq<Key>, kids: seq<Tree>, h: nat, i: nat, a: Tree, s: Key, b: Tree, es: seq<Entry>)
    requires Separated(keys, kids) && AllSound(e, kids, h) && i < |kids| == |keys| + 1
    requires Sum(KeySizes(e, keys)) <= PageMax(e)
    requires Divides(e, Two(a, s, b), h, es) && Between(keys, i, es)
    ensures Keeps(e, AddKid(e, keys, kids, i, a, s, b), h + 1, FlatAll(kids[..i]) + es + FlatAll(kids[i + 1..]))
  {
    hide Separated, AllSound, Between, Sound, FlatAll, Sum, KeySizes, Above, Below, SplitBranch;
    var keys', kids' := keys[..i] + [s] + keys[i..], kids[..i] + [a, b] + kids[i + 1..];
    SoundIsNonEmpty(e, a, h);
    SoundIsNonEmpty(e, b, h);
    BetweenConcat(keys, i, Flat(a), Flat(b));
    SeparatedInsert(e, keys, kids, i, a, s, b);
    AllSoundTwo(e, kids, h, i, a, b);
    FlatTwoParts(kids[..i], a, b, kids[i + 1..]);
    AddKidFits(e, keys, i, s);
    if PageMax(e) - Sum(KeySizes(e, keys)) < NODESIZE + e.ksize(s) + SLOT {
      SplitBranchKeeps(e, keys', kids', h + 1, i + 1);
    } else {
      MakeBranch(e, keys', kids', h, true);
    }
  }

  lemma AddKidFits(e: Env, keys: seq<Key>, i: nat, s: Key)
    requires i <= |keys| && Sum(KeySizes(e, keys)) <= PageMax(e)
    ensures var keys' := keys[..i] + [s] + keys[i..];
            if PageMax(e) - Sum(KeySizes(e, keys)) < NODESIZE + e.ksize(s) + SLOT
            then Overfull(KeySizes(e, keys'), i + 1, PageMax(e))
            else Sum(KeySizes(e, keys')) <= PageMax(e)
  {
    BranchOverfull(e, keys, i, s);
    KeySizesInsert(e, keys, i, s);
    KeySizesEven(e, keys);
  }

  /** A child replaced by another of the same height with entries in the same bounds. */
  lemma ReplaceKidKeeps(e: Env, keys: seq<Key>, kids: seq<Tree>, h: nat, i: nat, t: Tree, full: bool)
    requires Separated(keys, kids) && AllSound(e, kids, h) && i < |kids|
    requires Sum(KeySizes(e, keys)) <= PageMax(e) && (full ==> |kids| >= 2)
    requires Sound(e, t, h, true) && Between(keys, i, Flat(t))
    ensures Sound(e, Branch(keys, kids[i := t]), h + 1, full)
    ensures Flat(Branch(keys, kids[i := t])) == FlatAll(kids[..i]) + Flat(t) + FlatAll(kids[i + 1..])
  {
    FlatReplace(kids, i, t);
    SeparatedReplace(keys, kids, i, t);
    MakeBranch(e, keys, kids[i := t], h, full);
  }

  /** The branch after child i has become g, with entries es. */
  lemma KidReplaced(e: Env, keys: seq<Key>, kids: seq<Tree>, h: nat, i: nat, g: Grown, es: seq<Entry>)
    requires Separated(keys, kids) && AllSound(e, kids, h) && i < |kids| == |keys| + 1 && |kids| >= 2
    requires Sum(KeySizes(e, keys)) <= PageMax(e) && Between(keys, i, es) && Keeps(e, g, h, es)
    ensures Keeps(e, ReplaceKid(e, keys, kids, i, g), h + 1, FlatAll(kids[..i]) + es + FlatAll(kids[i + 1..]))
  {
    hide Separated, AllSound, Sound, Flat, FlatAll, Sum, KeySizes, Above, Below, AddKid;
    if g.One? {
      ReplaceKidKeeps(e, keys, kids, h, i, g.t, true);
    } else if g.Two? {
      AddKidKeeps(e, keys, kids, h, i, g.left, g.sep, g.right, es);
    }
  }

  // ---------------------------------------------------------------- put

  /** The sorted entries with x added, or replacing the one with its key. */
  function PutFlat(es: seq<Entry>, x: Entry): seq<Entry> {
    var p := LeafPos(es, x.key);
    es[..p] + [x] + es[PutEnd(es, x.key)..]
  }

  lemma {:induction false} LeafPosSplits(es: seq<Entry>, k: Key)
    requires SortedEntries(es)
    ensures Below(es[..LeafPos(es, k)], k) && Above(es[LeafPos(es, k)..], k)
  {
    if es != [] && es[0].key < k {
      LeafPosSplits(es[1..], k);
      var p := LeafPos(es, k);
      assert es[..p] == [es[0]] + es[1..][..p - 1];
      assert es[p..] == es[1..][p - 1..];
    }
  }

  /** LeafPos is the only index that divides the entries at k. */
  lemma {:induction false} LeafPosIs(es: seq<Entry>, k: Key, p: nat)
    requires p <= |es| && Below(es[..p], k) && (p < |es| ==> es[p].key >= k)
    ensures LeafPos(es, k) == p
  {
    if p > 0 {
      assert es[0] == es[..p][0];
      assert es[1..][..p - 1] == es[..p][1..];
      LeafPosIs(es[1..], k, p - 1);
    }
  }

  lemma Around3(a: seq<Entry>, es: seq<Entry>, b: seq<Entry>, p: nat)
    requires p <= |es|
    ensures (a + es + b)[..|a| + p] == a + es[..p]
    ensures (a + es + b)[|a| + p..] == es[p..] + b
  {
  }

  lemma FirstNotLess(a: seq<Entry>, es: seq<Entry>, b: seq<Entry>, k: Key, p: nat)
    requires SortedEntries(es) && After(b, k) && p == LeafPos(es, k)
    ensures |a| + p < |a + es + b| ==> (a + es + b)[|a| + p].key >= k
  {
    LeafPosSplits(es, k);
    assert p < |es| ==> es[p..][0] == es[p];
  }

  /** Entries outside the bounds around k do not matter to a put or a delete. */
  lemma LeafPosInside(a: seq<Entry>, es: seq<Entry>, b: seq<Entry>, k: Key)
    requires Below(a, k) && SortedEntries(es) && After(b, k)
    ensures LeafPos(a + es + b, k) == |a| + LeafPos(es, k)
    ensures FoundAt(a + es + b, |a| + LeafPos(es, k), k) <==> FoundAt(es, LeafPos(es, k), k)
  {
    var p, all := LeafPos(es, k), a + es + b;
    LeafPosSplits(es, k);
    Around3(a, es, b, p);
    BelowConcat(a, es[..p], k);
    FirstNotLess(a, es, b, k, p);
    LeafPosIs(all, k, |a| + p);
  }

  lemma SpliceInside(a: seq<Entry>, es: seq<Entry>, b: seq<Entry>, p: nat, x: seq<Entry>, q: nat)
    requires p <= |es| && q <= |es|
    ensures (a + es + b)[..|a| + p] + x + (a + es + b)[|a| + q..] == a + (es[..p] + x + es[q..]) + b
  {
    Around3(a, es, b, p);
    Around3(a, es, b, q);
  }

  lemma PutFlatInside(a: seq<Entry>, es: seq<Entry>, b: seq<Entry>, x: Entry)
    requires Below(a, x.key) && SortedEntries(es) && After(b, x.key)
    ensures PutFlat(a + es + b, x) == a + PutFlat(es, x) + b
  {
    var p := LeafPos(es, x.key);
    LeafPosInside(a, es, b, x.key);
    var q := PutEnd(es, x.key);
    SpliceInside(a, es, b, p, [x], q);
  }

  /** Where a put replaces entries: those from p up to q. */
  function PutEnd(es: seq<Entry>, k: Key): (q: nat)
    ensures LeafPos(es, k) <= q <= |es|
  {
    var p := LeafPos(es, k);
    if FoundAt(es, p, k) then p + 1 else p
  }

  lemma PutSplits(es: seq<Entry>, k: Key)
    requires SortedEntries(es)
    ensures Below(es[..LeafPos(es, k)], k) && After(es[PutEnd(es, k)..], k)
  {
    LeafPosSplits(es, k);
    var p, q := LeafPos(es, k), PutEnd(es, k);
    forall j | 0 <= j < |es[q..]|
      ensures k < es[q..][j].key
    {
      assert es[q..][j] == es[p..][j + q - p];
      assert p < q + j ==> es[p].key < es[q + j].key;
    }
  }

  lemma SortedAround(e: Env, a: seq<Entry>, x: Entry, b: seq<Entry>)
    requires EntriesOk(e, a) && EntriesOk(e, b) && EntryOk(e, x)
    requires Below(a, x.key) && After(b, x.key)
    ensures EntriesOk(e, a + [x] + b)
  {
  }

  lemma PutFlatSorted(e: Env, es: seq<Entry>, x: Entry)
    requires EntriesOk(e, es) && EntryOk(e, x)
    ensures EntriesOk(e, PutFlat(es, x))
  {
    PutSplits(es, x.key);
    SliceEntriesOk(e, es, 0, LeafPos(es, x.key));
    SliceEntriesOk(e, es, PutEnd(es, x.key), |es|);
    SortedAround(e, es[..LeafPos(es, x.key)], x, es[PutEnd(es, x.key)..]);
  }

  /** Which entry a put leaves under key k. */
  ghost predicate Stores(e: Env, k: Key, v: Val, x: Entry)
  {
    x.key == k && x.val == v && EntryOk(e, x)
  }

  /** The entry that a search finds, following one child on each level. */
  function Find(t: Tree, k: Key): Option<Entry>
    decreases t
  {
    match t
    case Leaf(es) => if FoundAt(es, LeafPos(es, k), k) then Some(es[LeafPos(es, k)]) else None
    case Branch(keys, kids) => if |kids| != |keys| + 1 then None else Find(kids[KidPos(keys, k)], k)
  }

  predicate FindsBig(t: Tree, k: Key) {
    Find(t, k).Some? && Find(t, k).value.big
  }

  /** A big node that is overwritten stays big; every other put makes a new node. */
  function Stored(e: Env, k: Key, v: Val, over: bool): Entry {
    if over then Entry(k, v, true) else NewEntry(e, k, v)
  }

  lemma AddEntryKeeps(e: Env, es: seq<Entry>, i: nat, x: Entry)
    requires i <= |es| && EntryOk(e, x) && EntriesOk(e, es[..i] + [x] + es[i..])
    requires Sum(LeafSizes(e, es)) <= PageMax(e) && forall j :: 0 <= j < |es| ==> EntryOk(e, es[j])
    ensures Keeps(e, AddEntry(e, es, i, x), 0, es[..i] + [x] + es[i..])
  {
    var c := es[..i] + [x] + es[i..];
    LeafSizesInsert(e, es, i, x);
    if PageMax(e) - Sum(LeafSizes(e, es)) < LeafSlot(e, x) {
      LeafOverfull(e, es, i, x);
      SplitLeafKeeps(e, c, i);
    }
  }

  lemma NewEntryOk(e: Env, k: Key, v: Val)
    ensures Stores(e, k, v, NewEntry(e, k, v))
  {
  }

  lemma SameSlotSize(e: Env, es: seq<Entry>, i: nat, x: Entry)
    requires i < |es| && LeafSlot(e, x) == LeafSlot(e, es[i])
    ensures LeafSizes(e, es[i := x]) == LeafSizes(e, es)
  {
  }

  lemma OverwriteKeeps(e: Env, es: seq<Entry>, i: nat, x: Entry)
    requires EntriesOk(e, es) && Sum(LeafSizes(e, es)) <= PageMax(e)
    requires i < |es| && i == LeafPos(es, x.key) && FoundAt(es, i, x.key) && EntryOk(e, x)
    requires LeafSlot(e, x) == LeafSlot(e, es[i])
    ensures Sound(e, Leaf(es[i := x]), 0, true) && es[i := x] == PutFlat(es, x)
  {
    hide Sum, LeafPos, SortedEntries, LeafSlot;
    SameSlotSize(e, es, i, x);
    assert es[i := x] == es[..i] + [x] + es[i + 1..];
    PutFlatSorted(e, es, x);
  }

  /** A put into a leaf stores k, v at its place. */
  lemma PutLeafKeeps(e: Env, es: seq<Entry>, k: Key, v: Val, inPlace: bool) returns (x: Entry)
    requires EntriesOk(e, es) && Sum(LeafSizes(e, es)) <= PageMax(e)
    ensures Stores(e, k, v, x) && Keeps(e, PutLeaf(e, es, k, v, inPlace), 0, PutFlat(es, x))
    ensures x == Stored(e, k, v, inPlace && FindsBig(Leaf(es), k))
  {
    hide Sum, LeafPos, AddEntry, SortedEntries;
    var i := LeafPos(es, k);
    x := NewEntry(e, k, v);
    NewEntryOk(e, k, v);
    if !FoundAt(es, i, k) {
      PutFlatSorted(e, es, x);
      AddEntryKeeps(e, es, i, x);
    } else if es[i].big && inPlace {
      x := Entry(k, v, true);
      OverwriteKeeps(e, es, i, x);
    } else if !es[i].big && e.vsize(v) == e.vsize(es[i].val) {
      x := Entry(k, v, false);
      OverwriteKeeps(e, es, i, x);
    } else {
      PutFlatSorted(e, es, x);
      LeafSizesWithout(e, es, i);
      var rest := Without1(es, i);
      assert rest[..i] == es[..i] && rest[i..] == es[i + 1..];
      assert rest[..i] + [x] + rest[i..] == PutFlat(es, x);
      AddEntryKeeps(e, rest, i, x);
    }
  }

  // ---------------------------------------------------------------- put into a tree

  lemma {:induction false} KidPosSplits(keys: seq<Key>, k: Key)
    requires SortedKeys(keys)
    ensures var i := KidPos(keys, k);
            && (i > 0 ==> keys[i - 1] <= k)
            && (i < |keys| ==> k < keys[i])
  {
    if keys != [] && keys[0] <= k {
      KidPosSplits(keys[1..], k);
    }
  }

  /** The child that KidPos chooses is the only one whose bounds admit k. */
  lemma KidAround(e: Env, keys: seq<Key>, kids: seq<Tree>, h: nat, k: Key)
    requires Separated(keys, kids) && AllSound(e, kids, h) && |kids| == |keys| + 1
    ensures var i := KidPos(keys, k);
            && i < |kids|
            && Below(FlatAll(kids[..i]), k)
            && After(FlatAll(kids[i + 1..]), k)
            && SortedEntries(Flat(kids[i]))
  {
    hide AllSound, Sound, Separated, Above, Below, After, FlatAll, Flat, KidPos, SortedEntries;
    var i := KidPos(keys, k);
    KidBounds(keys, kids, i);
    KidPosSplits(keys, k);
    PrefixSorted(e, keys, kids, h, i);
    if i > 0 {
      BelowFromBelow(FlatAll(kids[..i]), keys[i - 1], k);
    } else {
      NoneBelow(kids[..i], k);
    }
    if i < |keys| {
      SuffixAbove(keys, kids, i + 1);
      AfterFromAbove(FlatAll(kids[i + 1..]), keys[i], k);
    } else {
      NoneBelow(kids[i + 1..], k);
    }
    KidIsSound(e, kids, h, i);
  }

  lemma NoneBelow(ts: seq<Tree>, k: Key)
    requires ts == []
    ensures Below(FlatAll(ts), k) && After(FlatAll(ts), k)
  {
  }

  lemma AfterFromAbove(es: seq<Entry>, lo: Key, k: Key)
    requires Above(es, lo) && k < lo
    ensures After(es, k)
  {
  }

  lemma BelowFromBelow(es: seq<Entry>, hi: Key, k: Key)
    requires Below(es, hi) && hi <= k
    ensures Below(es, k)
  {
  }

  lemma BetweenSlice(keys: seq<Key>, i: nat, es: seq<Entry>, p: nat, q: nat)
    requires i <= |keys| && Between(keys, i, es) && p <= q <= |es|
    ensures Between(keys, i, es[p..q])
  {
  }

  lemma PutStaysBetween(keys: seq<Key>, i: nat, es: seq<Entry>, x: Entry)
    requires i <= |keys| && Between(keys, i, es)
    requires (i > 0 ==> keys[i - 1] <= x.key) && (i < |keys| ==> x.key < keys[i])
    ensures Between(keys, i, PutFlat(es, x))
  {
    hide LeafPos, FoundAt;
    var p, q := LeafPos(es, x.key), PutEnd(es, x.key);
    BetweenSlice(keys, i, es, 0, p);
    BetweenSlice(keys, i, es, q, |es|);
    BetweenConcat(keys, i, es[..p], [x]);
    BetweenConcat(keys, i, es[..p] + [x], es[q..]);
  }

  lemma KidBounds(keys: seq<Key>, kids: seq<Tree>, i: nat)
    requires Separated(keys, kids) && i < |kids|
    ensures SortedKeys(keys) && Between(keys, i, Flat(kids[i]))
  {
  }

  lemma KidIsSound(e: Env, kids: seq<Tree>, h: nat, i: nat)
    requires AllSound(e, kids, h) && i < |kids|
    ensures Sound(e, kids[i], h, true) && SortedEntries(Flat(kids[i]))
  {
    FlatIsSorted(e, kids[i], h);
  }

  /** What one branch level makes of its child's put. */
  lemma PutBranchKeeps(e: Env, keys: seq<Key>, kids: seq<Tree>, h: nat, x: Entry, g: Grown)
    requires Separated(keys, kids) && AllSound(e, kids, h) && |kids| == |keys| + 1 >= 2
    requires Sum(KeySizes(e, keys)) <= PageMax(e)
    requires KidPos(keys, x.key) < |kids|
    requires Keeps(e, g, h, PutFlat(Flat(kids[KidPos(keys, x.key)]), x))
    ensures var i := KidPos(keys, x.key);
            Keeps(e, ReplaceKid(e, keys, kids, i, g), h + 1, PutFlat(FlatAll(kids), x))
  {
    hide Separated, AllSound, Sound, Flat, FlatAll, Sum, KeySizes, Above, Below, AddKid, PutFlat, KidPos, After, SortedEntries;
    var i := KidPos(keys, x.key);
    var es := PutFlat(Flat(kids[i]), x);
    KidAround(e, keys, kids, h, x.key);
    KidBounds(keys, kids, i);
    KidPosSplits(keys, x.key);
    PutStaysBetween(keys, i, Flat(kids[i]), x);
    PutFlatInside(FlatAll(kids[..i]), Flat(kids[i]), FlatAll(kids[i + 1..]), x);
    FlatAt(kids, i);
    KidReplaced(e, keys, kids, h, i, g, es);
  }

  lemma PutTreeBranch(e: Env, t: Tree, k: Key, v: Val, inPlace: bool)
    requires t.Branch? && |t.kids| == |t.keys| + 1
    ensures var i := KidPos(t.keys, k);
            PutTree(e, t, k, v, inPlace) ==
            ReplaceKid(e, t.keys, t.kids, i, PutTree(e, t.kids[i], k, v, inPlace))
  {
  }

  /** A put stores exactly k, v, at its place, whatever splits it causes. */
  lemma {:induction false} PutTreeKeeps(e: Env, t: Tree, h: nat, k: Key, v: Val, inPlace: bool)
    returns (x: Entry, g: Grown)
    requires Sound(e, t, h, true)
    ensures g == PutTree(e, t, k, v, inPlace)
    ensures Stores(e, k, v, x) && Keeps(e, g, h, PutFlat(Flat(t), x))
    ensures x == Stored(e, k, v, inPlace && FindsBig(t, k))
    decreases t
  {
    hide Sound, PutTree, Flat, FlatAll, PutFlat, KidPos, Separated, AllSound, Sum, KeySizes, Find, Stored, Keeps, ReplaceKid, PutLeaf, Stores;
    if t.Leaf? {
      SoundLeaf(e, t.es, h, true);
      x := PutLeafKeeps(e, t.es, k, v, inPlace);
      g := PutLeaf(e, t.es, k, v, inPlace);
      PutTreeLeaf(e, t, k, v, inPlace);
      assert h == 0 && Flat(t) == t.es by { LeafFlat(t); }
    } else {
      KidsOf(e, t, h, true);
      PutTreeBranch(e, t, k, v, inPlace);
      FindBranch(t, k);
      var i := KidPos(t.keys, k);
      KidIsSound(e, t.kids, h - 1, i);
      x, g := PutTreeKeeps(e, t.kids[i], h - 1, k, v, inPlace);
      StoresKey(e, k, v, x);
      PutBranchKeeps(e, t.keys, t.kids, h - 1, x, g);
      BranchFlat(t);
      g := ReplaceKid(e, t.keys, t.kids, i, g);
    }
  }

  lemma PutTreeLeaf(e: Env, t: Tree, k: Key, v: Val, inPlace: bool)
    requires t.Leaf?
    ensures PutTree(e, t, k, v, inPlace) == PutLeaf(e, t.es, k, v, inPlace)
  {
  }

  lemma LeafFlat(t: Tree)
    requires t.Leaf?
    ensures Flat(t) == t.es
  {
  }

  lemma BranchFlat(t: Tree)
    requires t.Branch?
    ensures Flat(t) == FlatAll(t.kids)
  {
  }

  lemma StoresKey(e: Env, k: Key, v: Val, x: Entry)
    requires Stores(e, k, v, x)
    ensures x.key == k && x.val == v && EntryOk(e, x)
  {
  }

  lemma FindBranch(t: Tree, k: Key)
    requires t.Branch? && |t.kids| == |t.keys| + 1
    ensures Find(t, k) == Find(t.kids[KidPos(t.keys, k)], k)
  {
  }

  // ---------------------------------------------------------------- the map

  lemma {:induction false} MapKeys(es: seq<Entry>, k: Key)
    ensures k in ToMap(es) <==> exists i :: 0 <= i < |es| && es[i].key == k
  {
    if es != [] {
      MapKeys(es[1..], k);
      if k in ToMap(es[1..]) {
        var i :| 0 <= i < |es[1..]| && es[1..][i].key == k;
        assert es[i + 1].key == k;
      }
      if exists i :: 0 <= i < |es| && es[i].key == k {
        var i :| 0 <= i < |es| && es[i].key == k;
        assert i > 0 ==> es[1..][i - 1].key == k;
      }
    }
  }

  lemma {:induction false} MapAt(es: seq<Entry>, i: nat)
    requires SortedEntries(es) && i < |es|
    ensures es[i].key in ToMap(es) && ToMap(es)[es[i].key] == es[i].val
  {
    if i > 0 {
      MapAt(es[1..], i - 1);
      assert es[1..][i - 1] == es[i];
    }
  }

  lemma PutFlatAt(es: seq<Entry>, x: Entry, i: nat)
    requires i < |es|
    ensures var p, q := LeafPos(es, x.key), PutEnd(es, x.key);
            var r := PutFlat(es, x);
            && |r| == p + 1 + |es| - q && r[p] == x
            && (i < p ==> r[i] == es[i])
            && (q <= i ==> r[i + 1 + p - q] == es[i])
  {
  }

  lemma PutKeepsOthers(es: seq<Entry>, x: Entry, k: Key)
    requires SortedEntries(es) && SortedEntries(PutFlat(es, x)) && k != x.key && k in ToMap(es)
    ensures k in ToMap(PutFlat(es, x)) && ToMap(PutFlat(es, x))[k] == ToMap(es)[k]
  {
    MapKeys(es, k);
    var i :| 0 <= i < |es| && es[i].key == k;
    PutFlatAt(es, x, i);
    MapAt(es, i);
    var p, q := LeafPos(es, x.key), PutEnd(es, x.key);
    MapAt(PutFlat(es, x), if i < p then i else i + 1 + p - q);
  }

  lemma PutAddsNoOther(es: seq<Entry>, x: Entry, k: Key)
    requires k != x.key && k in ToMap(PutFlat(es, x))
    ensures k in ToMap(es)
  {
    var r := PutFlat(es, x);
    MapKeys(r, k);
    var i :| 0 <= i < |r| && r[i].key == k;
    var p, q := LeafPos(es, x.key), PutEnd(es, x.key);
    var i' := if i < p then i else i - 1 - p + q;
    PutFlatAt(es, x, i');
    assert es[i'].key == k;
    MapKeys(es, k);
  }

  /** In terms of the map, PutFlat is an update of one key. */
  lemma PutFlatIsUpdate(es: seq<Entry>, x: Entry)
    requires SortedEntries(es) && SortedEntries(PutFlat(es, x))
    ensures ToMap(PutFlat(es, x)) == ToMap(es)[x.key := x.val]
  {
    var p, r := LeafPos(es, x.key), PutFlat(es, x);
    assert r[p] == x;
    MapAt(r, p);
    forall k | k != x.key && k in ToMap(es)
      ensures k in ToMap(r) && ToMap(r)[k] == ToMap(es)[k]
    {
      PutKeepsOthers(es, x, k);
    }
    forall k | k != x.key && k in ToMap(r)
      ensures k in ToMap(es)
    {
      PutAddsNoOther(es, x, k);
    }
  }

  /** The root page that mdb_page_split puts above two halves. */
  lemma NewRoot(e: Env, g: Grown, h: nat, es: seq<Entry>)
    requires Divides(e, g, h, es)
    ensures Sound(e, Branch([g.sep], [g.left, g.right]), h + 1, true)
    ensures Flat(Branch([g.sep], [g.left, g.right])) == es
  {
    hide Sound, Above, Below, KeySlot;
    var keys, kids := [g.sep], [g.left, g.right];
    assert KeySizes(e, keys) == [FIRST_SLOT, KeySlot(e, g.sep)];
    SlotLimits(e, Entry(0, 0, true), g.sep);
    assert Sum(KeySizes(e, keys)) == FIRST_SLOT + Sum([KeySlot(e, g.sep)]);
    assert kids == [g.left] + [g.right];
    FlatConcat([g.left], [g.right]);
    FlatOne(g.left);
    FlatOne(g.right);
    MakeBranch(e, keys, kids, h, true);
  }

  lemma UpdatedRoot(e: Env, t: Tree, h: nat, x: Entry, t': Tree, h': nat)
    requires Sound(e, t, h, true) && Sound(e, t', h', true)
    requires Flat(t') == PutFlat(Flat(t), x)
    ensures ToMap(Flat(t')) == ToMap(Flat(t))[x.key := x.val]
  {
    FlatIsSorted(e, t, h);
    FlatIsSorted(e, t', h');
    PutFlatIsUpdate(Flat(t), x);
  }

  lemma GrownRoot(e: Env, t: Tree, h: nat, x: Entry, g: Grown)
    requires Sound(e, t, h, true) && Keeps(e, g, h, PutFlat(Flat(t), x))
    ensures var d' := GrowRoot(g, h + 1);
            d'.Some? ==> DbOk(e, d'.value) && Contents(d'.value) == ToMap(Flat(t))[x.key := x.val]
  {
    hide Sound, Flat, PutFlat, ToMap, Sum, KeySizes;
    if g.One? {
      UpdatedRoot(e, t, h, x, g.t, h);
    } else if g.Two? {
      NewRoot(e, g, h, PutFlat(Flat(t), x));
      UpdatedRoot(e, t, h, x, Branch([g.sep], [g.left, g.right]), h + 1);
    }
  }

  lemma FirstPut(e: Env, k: Key, v: Val)
    ensures Sound(e, Leaf([NewEntry(e, k, v)]), 0, true)
    ensures ToMap([NewEntry(e, k, v)]) == map[k := v]
  {
    var x := NewEntry(e, k, v);
    NewEntryOk(e, k, v);
    SlotLimits(e, x, k);
    assert LeafSizes(e, [x]) == [LeafSlot(e, x)];
    assert Sum([LeafSlot(e, x)]) == LeafSlot(e, x);
    assert ToMap([x]) == ToMap([x][1..])[k := v];
  }

  /**
   mdb_put refines a map update: if it does not fail, the database is sound, with all leaves at
   its new depth, and its map is the old one with k set to v.
   */
  lemma PutRefinesUpdate(e: Env, d: Db, k: Key, v: Val, inPlace: bool)
    requires DbOk(e, d)
    ensures var d' := Put(e, d, k, v, inPlace);
            d'.Some? ==> DbOk(e, d'.value) && Contents(d'.value) == Contents(d)[k := v]
  {
    hide Sound, PutTree, PutFlat, GrowRoot, NewEntry;
    if d.root.None? {
      FirstPut(e, k, v);
    } else {
      var t, h := d.root.value, d.depth - 1;
      var x, g := PutTreeKeeps(e, t, h, k, v, inPlace);
      GrownRoot(e, t, h, x, g);
    }
  }
}
