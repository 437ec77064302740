/**
 The counter md_overflow_pages: what mdb_cursor_put, mdb_cursor_del and mdb_drop do to it, and why
 it is exact whenever a tree is dropped.
 */
module OverflowPages {
  import opened Base
  import opened Sizes
  import opened BTree
  import opened BTreePut
  import opened BTreeDelete
  import opened BTreeDeleteProofs
  import opened PageTree
  import opened DropTree

  /** OVPAGES: pages for data of this size behind one page header. */
  function OvPages(size: nat, psize: nat): (n: nat)
    requires psize > 0
    ensures n > 0
  {
    (PAGEHDRSZ - 1 + size) / psize + 1
  }

  /** The page header and data of this size lie on n pages. */
  predicate HoldData(n: int, size: nat, psize: nat) {
    n * psize >= PAGEHDRSZ + size
  }

  /** So many pages are exactly enough. */
  lemma EnoughPages(size: nat, psize: nat, n: nat)
    requires psize > 0
    ensures HoldData(n, size, psize) <==> n >= OvPages(size, psize)
  {
    var a, q := PAGEHDRSZ - 1 + size, (PAGEHDRSZ - 1 + size) / psize;
    DivideBack(a, psize);
    if n >= q + 1 {
      Product(q + 1, n, psize);
    } else {
      Product(n, q, psize);
    }
  }

  lemma DivideBack(a: nat, b: nat)
    requires b > 0
    ensures (a / b) * b <= a < (a / b + 1) * b
  {
  }

  /** An entry's pages hold its data. */
  predicate Holds(e: Env, pages: Val -> nat, x: Entry) {
    x.big ==> HoldData(pages(x.val), e.vsize(x.val), e.psize)
  }

  predicate AllHold(e: Env, pages: Val -> nat, es: seq<Entry>) {
    forall i :: 0 <= i < |es| ==> Holds(e, pages, es[i])
  }

  lemma PutHolds(e: Env, pages: Val -> nat, es: seq<Entry>, x: Entry)
    requires AllHold(e, pages, es) && Holds(e, pages, x)
    ensures AllHold(e, pages, PutFlat(es, x))
  {
    hide Holds, LeafPos;
  }

  lemma DelHolds(e: Env, pages: Val -> nat, es: seq<Entry>, k: Key)
    requires AllHold(e, pages, es)
    ensures AllHold(e, pages, DelFlat(es, k))
  {
    hide Holds, LeafPos;
  }

  // ---------------------------------------------------------------- counting entries

  /** The overflow pages of an entry; `pages` says on how many a big value lies. */
  function Over(pages: Val -> nat, x: Entry): nat {
    if x.big then pages(x.val) else 0
  }

  function OverSum(pages: Val -> nat, es: seq<Entry>): nat {
    if es == [] then 0 else Over(pages, es[0]) + OverSum(pages, es[1..])
  }

  lemma {:induction false} OverSumConcat(pages: Val -> nat, a: seq<Entry>, b: seq<Entry>)
    ensures OverSum(pages, a + b) == OverSum(pages, a) + OverSum(pages, b)
  {
    hide Over;
    if a == [] {
      assert a + b == b;
    } else {
      assert (a + b)[1..] == a[1..] + b;
      OverSumConcat(pages, a[1..], b);
    }
  }

  lemma OverSumOne(pages: Val -> nat, x: Entry)
    ensures OverSum(pages, [x]) == Over(pages, x)
  {
    assert [x][1..] == [];
  }

  lemma OverSumAt(pages: Val -> nat, es: seq<Entry>, i: nat)
    requires i < |es|
    ensures OverSum(pages, es) == OverSum(pages, Without1(es, i)) + Over(pages, es[i])
  {
    hide OverSum;
    assert es == es[..i] + [es[i]] + es[i + 1..];
    OverSumConcat(pages, es[..i] + [es[i]], es[i + 1..]);
    OverSumConcat(pages, es[..i], [es[i]]);
    OverSumConcat(pages, es[..i], es[i + 1..]);
    OverSumOne(pages, es[i]);
  }

  function FindFlat(es: seq<Entry>, k: Key): Option<Entry> {
    var p := LeafPos(es, k);
    if FoundAt(es, p, k) then Some(es[p]) else None
  }

  function OverOpt(pages: Val -> nat, x: Option<Entry>): nat {
    if x.None? then 0 else Over(pages, x.value)
  }

  /** A put takes the pages of the entry it replaces out of the sum, and adds those of the new one. */
  lemma PutSum(pages: Val -> nat, es: seq<Entry>, x: Entry)
    ensures OverSum(pages, PutFlat(es, x)) == OverSum(pages, es) - OverOpt(pages, FindFlat(es, x.key)) + Over(pages, x)
  {
    hide OverSum, LeafPos, Over;
    var p, q := LeafPos(es, x.key), PutEnd(es, x.key);
    OverSumConcat(pages, es[..p] + [x], es[q..]);
    OverSumConcat(pages, es[..p], [x]);
    OverSumOne(pages, x);
    if FoundAt(es, p, x.key) {
      OverSumAt(pages, es, p);
      OverSumConcat(pages, es[..p], es[p + 1..]);
    } else {
      assert es == es[..p] + es[p..];
      OverSumConcat(pages, es[..p], es[p..]);
    }
  }

  lemma DelSum(pages: Val -> nat, es: seq<Entry>, k: Key)
    ensures OverSum(pages, DelFlat(es, k)) == OverSum(pages, es) - OverOpt(pages, FindFlat(es, k))
  {
    hide OverSum, LeafPos, Over;
    if FoundAt(es, LeafPos(es, k), k) {
      OverSumAt(pages, es, LeafPos(es, k));
    }
  }

  lemma FindInside(a: seq<Entry>, es: seq<Entry>, b: seq<Entry>, k: Key)
    requires BTree.Below(a, k) && SortedEntries(es) && After(b, k)
    ensures FindFlat(a + es + b, k) == FindFlat(es, k)
  {
    hide LeafPos;
    LeafPosInside(a, es, b, k);
    if FoundAt(es, LeafPos(es, k), k) {
      AtInside(a, es, b, LeafPos(es, k));
    }
  }

  /** Following one child on each level finds the entry that all entries hold under k. */
  lemma {:induction false} FindIsFlat(e: Env, t: Tree, h: nat, k: Key)
    requires Sound(e, t, h, true)
    ensures Find(t, k) == FindFlat(Flat(t), k)
    decreases t
  {
    hide KidPos, Separated, Flat, FlatAll, Sound, AllSound, LeafPos, Sum, KeySizes, FindFlat, SortedEntries, BTree.Below, After;
    if t.Branch? {
      BTreePut.KidsOf(e, t, h, true);
      KidAround(e, t.keys, t.kids, h - 1, k);
      var i := KidPos(t.keys, k);
      KidIsSound(e, t.kids, h - 1, i);
      FindIsFlat(e, t.kids[i], h - 1, k);
      FindInside(FlatAll(t.kids[..i]), Flat(t.kids[i]), FlatAll(t.kids[i + 1..]), k);
      FlatAt(t.kids, i);
      BranchFlat(t);
      FindBranch(t, k);
    } else {
      FindOnLeaf(t, k);
    }
  }

  lemma FindOnLeaf(t: Tree, k: Key)
    requires t.Leaf?
    ensures Find(t, k) == FindFlat(Flat(t), k)
  {
  }

  // ---------------------------------------------------------------- the tree that lies on pages

  /** Big data lies on as many pages as `pages` says. */
  predicate Placed(pages: Val -> nat, t: PTree)
    decreases t
  {
    match t
    case PLeaf(_, ns) => PlacedNodes(pages, ns)
    case PBranch(_, _, kids) => forall i :: 0 <= i < |kids| ==> Placed(pages, kids[i])
  }

  predicate PlacedNodes(pages: Val -> nat, ns: seq<Node>) {
    forall i :: 0 <= i < |ns| && ns[i].Big? ==> ns[i].pages == pages(ns[i].val)
  }

  predicate PlacedAll(pages: Val -> nat, ts: seq<PTree>) {
    forall i :: 0 <= i < |ts| ==> Placed(pages, ts[i])
  }

  lemma {:induction false} NodesSum(pages: Val -> nat, ns: seq<Node>)
    requires PlacedNodes(pages, ns)
    ensures |OverOf(ns)| == OverSum(pages, PlainNodes(ns))
  {
    if ns != [] {
      NodesSum(pages, ns[1..]);
      OverSumConcat(pages, [Plain(ns[0])], PlainNodes(ns[1..]));
      OverSumOne(pages, Plain(ns[0]));
    }
  }

  lemma {:induction false} LeavesSum(pages: Val -> nat, ts: seq<PTree>)
    requires UniformAll(ts, 0) && PlacedAll(pages, ts)
    ensures |OverAll(ts)| == OverSum(pages, FlatAll(StripAll(ts)))
  {
    if ts != [] {
      assert Uniform(ts[0], 0) && Placed(pages, ts[0]);
      NodesSum(pages, ts[0].nodes);
      LeavesSum(pages, ts[1..]);
      OverSumConcat(pages, Flat(Strip(ts[0])), FlatAll(StripAll(ts[1..])));
    }
  }

  lemma {:induction false} StripConcat(a: seq<PTree>, b: seq<PTree>)
    ensures StripAll(a + b) == StripAll(a) + StripAll(b)
  {
    hide Strip;
    if a == [] {
      assert a + b == b;
    } else {
      assert (a + b)[1..] == a[1..] + b;
      StripConcat(a[1..], b);
    }
  }

  /** The next level has the same entries. */
  lemma {:induction false} SameBelow(pages: Val -> nat, ts: seq<PTree>, h: nat)
    requires UniformAll(ts, h) && h > 0 && PlacedAll(pages, ts)
    ensures FlatAll(StripAll(PageTree.Below(ts))) == FlatAll(StripAll(ts)) && PlacedAll(pages, PageTree.Below(ts))
  {
    hide Strip;
    if ts != [] {
      assert Uniform(ts[0], h) && Placed(pages, ts[0]);
      SameBelow(pages, ts[1..], h);
      StripConcat(ts[0].kids, PageTree.Below(ts[1..]));
      FlatConcat(StripAll(ts[0].kids), StripAll(PageTree.Below(ts[1..])));
      StripBranch(ts[0]);
    }
  }

  lemma StripBranch(t: PTree)
    requires t.PBranch?
    ensures Flat(Strip(t)) == FlatAll(StripAll(t.kids))
  {
  }

  lemma {:induction false} LevelSum(pages: Val -> nat, t: PTree, h: nat, l: nat)
    requires Uniform(t, h) && l <= h && Placed(pages, t)
    ensures FlatAll(StripAll(Level([t], l))) == Flat(Strip(t)) && PlacedAll(pages, Level([t], l))
  {
    hide Uniform, Strip, Flat, FlatAll, PageTree.Below, StripAll, Placed;
    if l == 0 {
      StripOne(t);
    } else {
      LevelSum(pages, t, h, l - 1);
      UniformLevel(t, h, l - 1);
      SameBelow(pages, Level([t], l - 1), h - (l - 1));
    }
  }

  lemma StripOne(t: PTree)
    ensures FlatAll(StripAll([t])) == Flat(Strip(t))
  {
    assert [t][1..] == [];
    assert StripAll([t]) == [Strip(t)];
    FlatOne(Strip(t));
  }

  /** The overflow pages of the leaves are those that the entries count. */
  lemma CountIsExact(pages: Val -> nat, t: PTree, h: nat)
    requires Uniform(t, h) && Placed(pages, t)
    ensures |OverAll(Level([t], h))| == OverSum(pages, Flat(Strip(t)))
  {
    hide Uniform, Placed, OverAll, Level, Flat, FlatAll, Strip, StripAll;
    LevelSum(pages, t, h, h);
    UniformLevel(t, h, h);
    LeavesSum(pages, Level([t], h));
  }

  lemma {:induction false} SoundIsUniform(e: Env, t: PTree, h: nat)
    requires Sound(e, Strip(t), h, true)
    ensures Uniform(t, h) && Proper(t)
    decreases t
  {
    hide Separated, KeySizes, LeafSizes, Sum;
    if t.PBranch? {
      StripKids(t.kids);
      SoundBranch(e, Strip(t), h, true);
      forall i | 0 <= i < |t.kids|
        ensures Uniform(t.kids[i], h - 1) && Proper(t.kids[i])
      {
        assert Sound(e, StripAll(t.kids)[i], h - 1, true);
        SoundIsUniform(e, t.kids[i], h - 1);
      }
    }
  }

  lemma {:induction false} StripKids(ts: seq<PTree>)
    ensures |StripAll(ts)| == |ts| && forall i :: 0 <= i < |ts| ==> StripAll(ts)[i] == Strip(ts[i])
  {
    hide Strip;
    if ts != [] {
      StripKids(ts[1..]);
    }
  }

  // ---------------------------------------------------------------- the database

  /** A database record, with the counter. A big value stands for its data and the pages it lies on. */
  class Database {
    const e: Env
    const pages: Val -> nat     // on how many pages a big value lies: mp_pages
    var d: Db                   // md_root, md_depth and the tree
    var overflowPages: nat      // md_overflow_pages

    ghost function Entries(): seq<Entry>
      reads this
    {
      if d.root.None? then [] else Flat(d.root.value)
    }

    ghost predicate Valid()
      reads this
    {
      && DbOk(e, d)
      && overflowPages == OverSum(pages, Entries())
      && AllHold(e, pages, Entries())
    }

    constructor (e: Env, pages: Val -> nat)
      ensures Valid() && d == Db(None, 0) && this.e == e && this.pages == pages
    {
      this.e, this.pages := e, pages;
      d, overflowPages := Db(None, 0), 0;
    }

    /** The entry that mdb_cursor_set finds. */
    function Current(k: Key): Option<Entry>
      reads this
    {
      if d.root.None? then None else Find(d.root.value, k)
    }

    /** A big node is overwritten if its pages are dirty and enough for the data. */
    function InPlace(k: Key, v: Val, dirty: bool): bool
      reads this
    {
      var x := Current(k);
      x.Some? && x.value.big && pages(x.value.val) >= OvPages(e.vsize(v), e.psize) && dirty
    }

    lemma CurrentIsFlat(k: Key)
      requires Valid()
      ensures Current(k) == FindFlat(Entries(), k)
      ensures OverOpt(pages, Current(k)) <= overflowPages
    {
      hide Find, Flat, Sound, OverSum;
      if d.root.Some? {
        DbRoot(e, d);
        FindIsFlat(e, d.root.value, d.depth - 1, k);
      } else {
        NoEntries(k);
      }
      DelSum(pages, Entries(), k);
    }

    lemma NoEntries(k: Key)
      ensures FindFlat([], k) == None
    {
    }

    /** The pages of the big node under k are dirty and hold v as well. */
    ghost predicate HasRoom(k: Key, v: Val, dirty: bool)
      reads this
    {
      var x := Current(k);
      x.Some? && x.value.big && dirty && HoldData(pages(x.value.val), e.vsize(v), e.psize)
    }

    /**
     mdb_cursor_put. The pages that v lies on are those it overwrites, or as many new ones as it
     needs, not one more. A failing put leaves the transaction unusable.
     */
    method Put(k: Key, v: Val, dirty: bool) returns (ok: bool)
      requires Valid()
      requires HasRoom(k, v, dirty) ==> pages(v) == pages(Current(k).value.val)
      requires !HasRoom(k, v, dirty) && NewEntry(e, k, v).big ==> pages(v) == OvPages(e.vsize(v), e.psize)
      modifies this
      ensures ok == BTree.Put(e, old(d), k, v, old(HasRoom(k, v, dirty))).Some?
      ensures ok ==> Valid() && Some(d) == BTree.Put(e, old(d), k, v, old(HasRoom(k, v, dirty)))
      ensures ok && old(HasRoom(k, v, dirty)) ==> overflowPages == old(overflowPages)
      ensures ok && !old(HasRoom(k, v, dirty)) ==>
                overflowPages == old(overflowPages - OverOpt(pages, Current(k))) + Over(pages, NewEntry(e, k, v))
      ensures !old(HasRoom(k, v, dirty)) && NewEntry(e, k, v).big ==> !HoldData(pages(v) - 1, e.vsize(v), e.psize)
    {
      hide Find, Flat, Sound, OverSum, PutTree, NewEntry, BTree.Put, DbOk, FindFlat, Over, PutFlat, AllHold, OvPages,
           HoldData;
      EnoughPages(e.vsize(v), e.psize, pages(v));
      EnoughPages(e.vsize(v), e.psize, OvPages(e.vsize(v), e.psize) - 1);
      if Current(k).Some? {
        EnoughPages(e.vsize(v), e.psize, pages(Current(k).value.val));
      }
      var x, inPlace := Current(k), InPlace(k, v, dirty);
      CurrentIsFlat(k);
      PutRefinesUpdate(e, d, k, v, inPlace);
      ghost var es := Entries();
      var d' := BTree.Put(e, d, k, v, inPlace);
      if d'.None? {
        return false;
      }
      EntriesAfterPut(e, d, k, v, inPlace);
      PutSum(pages, es, Stored(e, k, v, inPlace));
      OverParts(pages, x, Stored(e, k, v, inPlace));
      OverParts(pages, x, NewEntry(e, k, v));
      NewEntryIs(e, k, v);
      PutHolds(e, pages, es, Stored(e, k, v, inPlace));
      if x.Some? && x.value.big && !inPlace {
        overflowPages := overflowPages - pages(x.value.val);  // mdb_ovpage_free
      }
      if !inPlace && NewEntry(e, k, v).big {
        overflowPages := overflowPages + OvPages(e.vsize(v), e.psize);  // mdb_page_new
      }
      d := d'.value;
      ok := true;
    }

    /** mdb_del; a deletion that fails leaves the transaction unusable. */
    method Del(k: Key) returns (res: DelResult)
      requires Valid()
      modifies this
      ensures res == BTreeDelete.Del(e, old(d), k)
      ensures !res.Failed? ==> Valid() && d == if res.NotFound? then old(d) else res.d
    {
      hide Find, Flat, Sound, OverSum, DelTree, BTreeDelete.Del, DbOk, FindFlat, Over, DelFlat, Lookup, AllHold;
      var x := Current(k);
      CurrentIsFlat(k);
      DelRefinesRemoval(e, d, k);
      DelSum(pages, Entries(), k);
      EntriesAfterDel(e, d, k);
      DelHolds(e, pages, Entries(), k);
      res := BTreeDelete.Del(e, d, k);
      OverParts(pages, x, Entry(k, 0, false));
      match res {
        case NotFound =>
        case Failed =>
        case Deleted(d') =>
          if x.Some? && x.value.big {
            overflowPages := overflowPages - pages(x.value.val);  // mdb_ovpage_free
          }
          d := d';
      }
    }

    /** mdb_drop, without deleting the database: t is its tree as it lies on pages. */
    method Empty(t: PTree) returns (freed: seq<Pgno>)
      requires Valid() && d.root == Some(Strip(t)) && Placed(pages, t)
      modifies this
      ensures Valid() && d == Db(None, 0)
      ensures multiset(freed) == multiset(AllPages(t))
      ensures Distinct(AllPages(t)) ==> forall p :: multiset(freed)[p] == if p in AllPages(t) then 1 else 0
    {
      hide Flat, Sound, OverSum, Placed, Uniform, Proper, AllPages, Distinct, Strip, Level, OverAll;
      DbRoot(e, d);
      SoundIsUniform(e, t, d.depth - 1);
      CountIsExact(pages, t, d.depth - 1);
      freed := Drop(t, d.depth - 1, overflowPages);
      d, overflowPages := Db(None, 0), 0;
      NothingCounted(pages);
    }
  }

  lemma NewEntryIs(e: Env, k: Key, v: Val)
    ensures NewEntry(e, k, v).key == k && NewEntry(e, k, v).val == v
  {
  }

  lemma NothingCounted(pages: Val -> nat)
    ensures OverSum(pages, []) == 0
  {
  }

  lemma OverParts(pages: Val -> nat, x: Option<Entry>, y: Entry)
    ensures OverOpt(pages, x) == if x.Some? && x.value.big then pages(x.value.val) else 0
    ensures Over(pages, y) == if y.big then pages(y.val) else 0
  {
  }

  function EntriesOf(d: Db): seq<Entry> {
    if d.root.None? then [] else Flat(d.root.value)
  }

  lemma EntriesAfterPut(e: Env, d: Db, k: Key, v: Val, inPlace: bool)
    requires DbOk(e, d) && Put(e, d, k, v, inPlace).Some?
    requires inPlace ==> d.root.Some? && FindsBig(d.root.value, k)
    ensures EntriesOf(Put(e, d, k, v, inPlace).value) == PutFlat(EntriesOf(d), Stored(e, k, v, inPlace))
    ensures Stored(e, k, v, inPlace).val == v && Stored(e, k, v, inPlace).key == k
    ensures Stored(e, k, v, inPlace).big == (inPlace || NewEntry(e, k, v).big)
  {
    hide Sound, PutTree, PutFlat, Find, Flat, Sum, KeySizes;
    if d.root.None? {
      PutIntoNone(e, k, v);
    } else {
      var t, h := d.root.value, d.depth - 1;
      DbRoot(e, d);
      var x, g := PutTreeKeeps(e, t, h, k, v, inPlace);
      GrownEntries(e, g, h, PutFlat(Flat(t), x), d.depth);
    }
  }

  lemma PutIntoNone(e: Env, k: Key, v: Val)
    ensures var x := NewEntry(e, k, v);
            Flat(Leaf([x])) == [x] == PutFlat([], x)
  {
  }

  lemma GrownEntries(e: Env, g: Grown, h: nat, es: seq<Entry>, depth: nat)
    requires Keeps(e, g, h, es) && GrowRoot(g, depth).Some?
    ensures EntriesOf(GrowRoot(g, depth).value) == es
  {
    hide Sound, Flat, Sum, KeySizes;
    if g.Two? {
      NewRoot(e, g, h, es);
    }
  }

  lemma EntriesAfterDel(e: Env, d: Db, k: Key)
    requires DbOk(e, d)
    ensures match Del(e, d, k)
            case Deleted(d') => EntriesOf(d') == DelFlat(EntriesOf(d), k)
            case NotFound => FindFlat(EntriesOf(d), k) == None
            case Failed => true
  {
    hide Sound, DelTree, DelFlat, Lookup, Flat, Sum, KeySizes, ShrunkKeeps, LookupFlat;
    if d.root.Some? {
      var t, h := d.root.value, d.depth - 1;
      DbRoot(e, d);
      LookupIsFlat(e, t, h, k);
      LookupFinds(Flat(t), k);
      if Lookup(t, k).Some? {
        DelTreeKeeps(e, t, h, k);
        ShrunkEntries(e, DelTree(e, t, k), h, DelFlat(Flat(t), k), d.depth);
      }
    } else {
      LookupFinds([], k);
      NothingFound(k);
    }
  }

  lemma NothingFound(k: Key)
    ensures LookupFlat([], k) == None
  {
  }

  lemma LookupFinds(es: seq<Entry>, k: Key)
    ensures LookupFlat(es, k).None? <==> FindFlat(es, k).None?
  {
  }

  lemma ShrunkEntries(e: Env, r: Shrunk, h: nat, es: seq<Entry>, depth: nat)
    requires ShrunkKeeps(e, r, h, es) && depth > 0
    ensures r.g.One? ==> EntriesOf(if r.check then ShrinkRoot(r.g.t, depth) else Db(Some(r.g.t), depth)) == es
    ensures r.g.Two? ==> EntriesOf(Db(Some(Branch([r.g.sep], [r.g.left, r.g.right])), depth + 1)) == es
  {
    hide Sound, Sum, KeySizes;
    if r.g.Two? {
      NewRoot(e, r.g, h, es);
    } else if r.g.One? && r.check {
      var t := r.g.t;
      if NumKeys(t) == 0 {
        EmptyPage(t);
      } else if t.Branch? && |t.kids| == 1 {
        BranchFlat(t);
        assert t.kids == [t.kids[0]];
        FlatOne(t.kids[0]);
      }
    }
  }

  lemma EmptyPage(t: Tree)
    requires NumKeys(t) == 0
    ensures Flat(t) == []
  {
  }
}
