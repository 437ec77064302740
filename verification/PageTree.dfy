/** Trees with their page numbers, as the whole-tree walks see them. */
module PageTree {
  import opened Base
  import opened Sizes
  import opened BTree

  /** A leaf node; big data lies on `pages` consecutive overflow pages from `at` on. */
  datatype Node = Inline(key: Key, val: Val) | Big(key: Key, val: Val, at: Pgno, pages: nat)

  datatype PTree =
    | PLeaf(pgno: Pgno, nodes: seq<Node>)
    | PBranch(pgno: Pgno, keys: seq<Key>, kids: seq<PTree>)

  // ---------------------------------------------------------------- how many pages

  function NodePages(n: Node): nat {
    if n.Big? then n.pages else 0
  }

  /** Overflow pages below a leaf. */
  function NodesPages(ns: seq<Node>): nat {
    if ns == [] then 0 else NodePages(ns[0]) + NodesPages(ns[1..])
  }

  function Pages(t: PTree): nat
    decreases t
  {
    match t
    case PLeaf(_, ns) => NodesPages(ns) + 1
    case PBranch(_, _, kids) => PagesAll(kids) + 1
  }

  function PagesAll(ts: seq<PTree>): nat
    decreases ts
  {
    if ts == [] then 0 else Pages(ts[0]) + PagesAll(ts[1..])
  }

  /** Every branch has a child, so that a first leaf exists. */
  predicate Proper(t: PTree)
    decreases t
  {
    t.PBranch? ==> t.kids != [] && forall i :: 0 <= i < |t.kids| ==> Proper(t.kids[i])
  }

  // ---------------------------------------------------------------- without page numbers

  function Plain(n: Node): Entry {
    Entry(n.key, n.val, n.Big?)
  }

  function PlainNodes(ns: seq<Node>): seq<Entry> {
    if ns == [] then [] else [Plain(ns[0])] + PlainNodes(ns[1..])
  }

  /** The tree as a value, without its page numbers. */
  function Strip(t: PTree): Tree
    decreases t
  {
    match t
    case PLeaf(_, ns) => Leaf(PlainNodes(ns))
    case PBranch(_, keys, kids) => Branch(keys, StripAll(kids))
  }

  function StripAll(ts: seq<PTree>): seq<Tree>
    decreases ts
  {
    if ts == [] then [] else [Strip(ts[0])] + StripAll(ts[1..])
  }

  // ---------------------------------------------------------------- which pages

  function Range(at: Pgno, n: nat): (r: seq<Pgno>)
    ensures |r| == n && forall i :: 0 <= i < n ==> r[i] == at + i
  {
    seq(n, i requires 0 <= i < n => at + i)
  }

  /** The overflow pages of a leaf. */
  function OverOf(ns: seq<Node>): (r: seq<Pgno>)
    ensures |r| == NodesPages(ns)
  {
    if ns == [] then [] else (if ns[0].Big? then Range(ns[0].at, ns[0].pages) else []) + OverOf(ns[1..])
  }

  /** Every page of the tree: branches, leaves and overflow pages. */
  function AllPages(t: PTree): (r: seq<Pgno>)
    ensures |r| == Pages(t)
    decreases t
  {
    match t
    case PLeaf(p, ns) => [p] + OverOf(ns)
    case PBranch(p, _, kids) => [p] + AllPagesOf(kids)
  }

  function AllPagesOf(ts: seq<PTree>): (r: seq<Pgno>)
    ensures |r| == PagesAll(ts)
    decreases ts
  {
    if ts == [] then [] else AllPages(ts[0]) + AllPagesOf(ts[1..])
  }

  predicate Distinct(s: seq<Pgno>) {
    forall i, j :: 0 <= i < j < |s| ==> s[i] != s[j]
  }

  function Elements(s: seq<Pgno>): set<Pgno> {
    set x | x in s
  }

  lemma {:induction false} DistinctCount(s: seq<Pgno>)
    requires Distinct(s)
    ensures |Elements(s)| == |s|
  {
    if s == [] {
      assert Elements(s) == {};
    } else {
      DistinctCount(s[1..]);
      assert Elements(s) == {s[0]} + Elements(s[1..]);
      assert s[0] !in Elements(s[1..]);
    }
  }

  /** The page numbers from 2 to the last one in use. */
  function InUse(next: Pgno): (r: set<Pgno>)
    ensures forall p :: p in r <==> NUM_METAS <= p < next
  {
    if next <= NUM_METAS then {} else InUse(next - 1) + {next - 1}
  }

  lemma {:induction false} InUseCount(next: Pgno)
    requires next >= NUM_METAS
    ensures |InUse(next)| == next - NUM_METAS
  {
    if next > NUM_METAS {
      InUseCount(next - 1);
    }
  }

  // ---------------------------------------------------------------- levels

  /** All leaves at depth h. */
  predicate Uniform(t: PTree, h: nat)
    decreases t
  {
    match t
    case PLeaf(_, _) => h == 0
    case PBranch(_, _, kids) => h > 0 && forall i :: 0 <= i < |kids| ==> Uniform(kids[i], h - 1)
  }

  predicate UniformAll(ts: seq<PTree>, h: nat) {
    forall i :: 0 <= i < |ts| ==> Uniform(ts[i], h)
  }

  function KidsOf(t: PTree): seq<PTree> {
    if t.PBranch? then t.kids else []
  }

  /** The next level: all children, in order. */
  function Below(ts: seq<PTree>): seq<PTree> {
    if ts == [] then [] else KidsOf(ts[0]) + Below(ts[1..])
  }

  /** The pages at depth l, in order. */
  function Level(ts: seq<PTree>, l: nat): seq<PTree> {
    if l == 0 then ts else Below(Level(ts, l - 1))
  }

  lemma {:induction false} BelowConcat(a: seq<PTree>, b: seq<PTree>)
    ensures Below(a + b) == Below(a) + Below(b)
  {
    if a == [] {
      assert a + b == b;
    } else {
      assert (a + b)[1..] == a[1..] + b;
      BelowConcat(a[1..], b);
    }
  }

  lemma {:induction false} UniformBelow(ts: seq<PTree>, h: nat)
    requires UniformAll(ts, h) && h > 0
    ensures UniformAll(Below(ts), h - 1)
  {
    if ts != [] {
      assert Uniform(ts[0], h);
      UniformBelow(ts[1..], h);
    }
  }

  lemma {:induction false} UniformLevel(t: PTree, h: nat, l: nat)
    requires Uniform(t, h) && l <= h
    ensures UniformAll(Level([t], l), h - l)
  {
    if l > 0 {
      UniformLevel(t, h, l - 1);
      UniformBelow(Level([t], l - 1), h - (l - 1));
    }
  }
}
