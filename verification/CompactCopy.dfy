/** The compacting copy's walk (mdb_env_cwalk): pages are renumbered in the order they are written. */
module CompactCopy {
  import opened Base
  import opened Sizes
  import opened BTree
  import opened PageTree

  // ---------------------------------------------------------------- renumbering

  function RelabelNodes(ns: seq<Node>, next: Pgno): (r: seq<Node>) {
    if ns == [] then []
    else [if ns[0].Big? then ns[0].(at := next) else ns[0]] + RelabelNodes(ns[1..], next + NodePages(ns[0]))
  }

  /** Overflow pages come before their leaf, children before their parent. */
  function Relabel(t: PTree, next: Pgno): (r: PTree)
    ensures r.pgno == next + Pages(t) - 1
    decreases t
  {
    match t
    case PLeaf(_, ns) => PLeaf(next + NodesPages(ns), RelabelNodes(ns, next))
    case PBranch(_, keys, kids) => PBranch(next + PagesAll(kids), keys, RelabelAll(kids, next))
  }

  function RelabelAll(ts: seq<PTree>, next: Pgno): (r: seq<PTree>)
    ensures |r| == |ts|
    decreases ts
  {
    if ts == [] then [] else [Relabel(ts[0], next)] + RelabelAll(ts[1..], next + Pages(ts[0]))
  }

  lemma {:induction false} SameNodes(ns: seq<Node>, next: Pgno)
    ensures PlainNodes(RelabelNodes(ns, next)) == PlainNodes(ns)
  {
    if ns != [] {
      var r := RelabelNodes(ns, next);
      assert r[1..] == RelabelNodes(ns[1..], next + NodePages(ns[0]));
      SameNodes(ns[1..], next + NodePages(ns[0]));
    }
  }

  /** Renumbering changes nothing but page numbers. */
  lemma {:induction false} SameTree(t: PTree, next: Pgno)
    ensures Strip(Relabel(t, next)) == Strip(t)
    decreases t
  {
    if t.PLeaf? {
      SameNodes(t.nodes, next);
    } else {
      SameTrees(t.kids, next);
    }
  }

  lemma {:induction false} SameTrees(ts: seq<PTree>, next: Pgno)
    ensures StripAll(RelabelAll(ts, next)) == StripAll(ts)
    decreases ts
  {
    if ts != [] {
      var r := RelabelAll(ts, next);
      assert r[1..] == RelabelAll(ts[1..], next + Pages(ts[0]));
      SameTree(ts[0], next);
      SameTrees(ts[1..], next + Pages(ts[0]));
    }
  }

  // ---------------------------------------------------------------- what is written

  datatype SlotImage = InlineSlot(key: Key, val: Val) | BigSlot(key: Key, at: Pgno)

  /** The contents of one page of the copy. */
  datatype Image =
    | LeafImage(slots: seq<SlotImage>)
    | BranchImage(keys: seq<Key>, kids: seq<Pgno>)
    | OverImage(val: Val, part: nat, pages: nat)

  function Slot(n: Node): SlotImage {
    match n
    case Inline(k, v) => InlineSlot(k, v)
    case Big(k, _, at, _) => BigSlot(k, at)
  }

  function Slots(ns: seq<Node>): (r: seq<SlotImage>)
    ensures |r| == |ns| && forall i :: 0 <= i < |r| ==> r[i] == Slot(ns[i])
  {
    seq(|ns|, i requires 0 <= i < |ns| => Slot(ns[i]))
  }

  function Numbers(ts: seq<PTree>): (r: seq<Pgno>)
    ensures |r| == |ts| && forall i :: 0 <= i < |r| ==> r[i] == ts[i].pgno
  {
    seq(|ts|, i requires 0 <= i < |ts| => ts[i].pgno)
  }

  function OverPages(v: Val, pages: nat): (r: seq<Image>)
    ensures |r| == pages && forall i :: 0 <= i < pages ==> r[i] == OverImage(v, i, pages)
  {
    seq(pages, i requires 0 <= i < pages => OverImage(v, i, pages))
  }

  function WrittenNodes(ns: seq<Node>): (r: seq<Image>)
    ensures |r| == NodesPages(ns)
  {
    if ns == [] then []
    else (if ns[0].Big? then OverPages(ns[0].val, ns[0].pages) else []) + WrittenNodes(ns[1..])
  }

  /** The pages of a tree in the order of the copy. */
  function Written(t: PTree): (r: seq<Image>)
    ensures |r| == Pages(t)
    decreases t
  {
    match t
    case PLeaf(_, ns) => WrittenNodes(ns) + [LeafImage(Slots(ns))]
    case PBranch(_, keys, kids) => WrittenAll(kids) + [BranchImage(keys, Numbers(kids))]
  }

  function WrittenAll(ts: seq<PTree>): (r: seq<Image>)
    ensures |r| == PagesAll(ts)
    decreases ts
  {
    if ts == [] then [] else Written(ts[0]) + WrittenAll(ts[1..])
  }

  // ---------------------------------------------------------------- reading the copy back

  /** file[i] is page base + i. The tree t can be read from it. */
  predicate Readable(file: seq<Image>, base: Pgno, t: PTree)
    decreases t
  {
    && base <= t.pgno < base + |file|
    && match t
       case PLeaf(p, ns) =>
         && file[p - base] == LeafImage(Slots(ns))
         && ReadableNodes(file, base, ns)
       case PBranch(p, keys, kids) =>
         && file[p - base] == BranchImage(keys, Numbers(kids))
         && ReadableAll(file, base, kids)
  }

  predicate ReadableAll(file: seq<Image>, base: Pgno, ts: seq<PTree>)
    decreases ts
  {
    ts == [] || (Readable(file, base, ts[0]) && ReadableAll(file, base, ts[1..]))
  }

  predicate ReadableNodes(file: seq<Image>, base: Pgno, ns: seq<Node>) {
    ns == [] || (ReadableNode(file, base, ns[0]) && ReadableNodes(file, base, ns[1..]))
  }

  predicate ReadableNode(file: seq<Image>, base: Pgno, n: Node) {
    n.Big? ==>
      && base <= n.at && n.at + n.pages <= base + |file|
      && file[n.at - base..n.at - base + n.pages] == OverPages(n.val, n.pages)
  }

  /** What RelabelNodes makes of the first node and of the others. */
  lemma RelabelStep(ns: seq<Node>, next: Pgno)
    requires ns != []
    ensures var r := RelabelNodes(ns, next);
            && r != [] && r[0] == (if ns[0].Big? then ns[0].(at := next) else ns[0])
            && r[1..] == RelabelNodes(ns[1..], next + NodePages(ns[0]))
  {
  }

  lemma {:induction false} SamePages(ns: seq<Node>, next: Pgno)
    ensures |RelabelNodes(ns, next)| == |ns| && NodesPages(RelabelNodes(ns, next)) == NodesPages(ns)
  {
    if ns != [] {
      RelabelStep(ns, next);
      SamePages(ns[1..], next + NodePages(ns[0]));
    }
  }

  lemma {:induction false} SameTreePages(t: PTree, next: Pgno)
    ensures Pages(Relabel(t, next)) == Pages(t)
    decreases t
  {
    if t.PLeaf? {
      SamePages(t.nodes, next);
    } else {
      SameTreesPages(t.kids, next);
    }
  }

  lemma {:induction false} SameTreesPages(ts: seq<PTree>, next: Pgno)
    ensures PagesAll(RelabelAll(ts, next)) == PagesAll(ts)
    decreases ts
  {
    if ts != [] {
      var r := RelabelAll(ts, next);
      assert r[1..] == RelabelAll(ts[1..], next + Pages(ts[0]));
      SameTreePages(ts[0], next);
      SameTreesPages(ts[1..], next + Pages(ts[0]));
    }
  }

  /** file holds s from page p on. */
  predicate HeldAt(file: seq<Image>, base: Pgno, p: Pgno, s: seq<Image>) {
    base <= p && p + |s| <= base + |file| && file[p - base..p - base + |s|] == s
  }

  lemma HeldParts(file: seq<Image>, base: Pgno, p: Pgno, a: seq<Image>, b: seq<Image>)
    requires HeldAt(file, base, p, a + b)
    ensures HeldAt(file, base, p, a) && HeldAt(file, base, p + |a|, b)
  {
    var s := file[p - base..p - base + |a + b|];
    assert s == a + b;
    assert file[p - base..p - base + |a|] == s[..|a|];
    assert file[p + |a| - base..p + |a| - base + |b|] == s[|a|..];
  }

  lemma {:induction false} NodesReadable(file: seq<Image>, base: Pgno, ns: seq<Node>, next: Pgno)
    requires HeldAt(file, base, next, WrittenNodes(RelabelNodes(ns, next)))
    ensures ReadableNodes(file, base, RelabelNodes(ns, next))
    decreases ns
  {
    if ns != [] {
      var r := RelabelNodes(ns, next);
      RelabelStep(ns, next);
      var head := if r[0].Big? then OverPages(r[0].val, r[0].pages) else [];
      HeldParts(file, base, next, head, WrittenNodes(r[1..]));
      NodesReadable(file, base, ns[1..], next + NodePages(ns[0]));
    }
  }

  /** The copy of a tree can be read back from what was written. */
  lemma {:induction false} TreeReadable(file: seq<Image>, base: Pgno, t: PTree, next: Pgno)
    requires HeldAt(file, base, next, Written(Relabel(t, next)))
    ensures Readable(file, base, Relabel(t, next))
    decreases t
  {
    var r := Relabel(t, next);
    if t.PLeaf? {
      HeldParts(file, base, next, WrittenNodes(r.nodes), [LeafImage(Slots(r.nodes))]);
      SamePages(t.nodes, next);
      NodesReadable(file, base, t.nodes, next);
      OnePage(file, base, r.pgno, LeafImage(Slots(r.nodes)));
    } else {
      HeldParts(file, base, next, WrittenAll(r.kids), [BranchImage(r.keys, Numbers(r.kids))]);
      SameTreesPages(t.kids, next);
      TreesReadable(file, base, t.kids, next);
      OnePage(file, base, r.pgno, BranchImage(r.keys, Numbers(r.kids)));
    }
  }

  lemma OnePage(file: seq<Image>, base: Pgno, p: Pgno, x: Image)
    requires HeldAt(file, base, p, [x])
    ensures base <= p < base + |file| && file[p - base] == x
  {
    assert file[p - base..p - base + 1][0] == x;
  }

  lemma {:induction false} TreesReadable(file: seq<Image>, base: Pgno, ts: seq<PTree>, next: Pgno)
    requires HeldAt(file, base, next, WrittenAll(RelabelAll(ts, next)))
    ensures ReadableAll(file, base, RelabelAll(ts, next))
    decreases ts
  {
    hide Relabel, Written, Pages, Readable;
    if ts != [] {
      var r := RelabelAll(ts, next);
      var rest := RelabelAll(ts[1..], next + Pages(ts[0]));
      assert r[0] == Relabel(ts[0], next) && r[1..] == rest;
      SameTreePages(ts[0], next);
      HeldParts(file, base, next, Written(r[0]), WrittenAll(rest));
      TreeReadable(file, base, ts[0], next);
      TreesReadable(file, base, ts[1..], next + Pages(ts[0]));
    }
  }

  // ---------------------------------------------------------------- buffers

  const WBUF: nat := 0x10_0000   // MDB_WBUF

  /** What the walk does with its buffer: append a page, or hand it over with an overflow tail. */
  datatype Act = Append(page: Image) | HandOver(tail: seq<Image>)

  function ActPages(a: Act): seq<Image> {
    match a
    case Append(page) => [page]
    case HandOver(tail) => tail
  }

  /** All pages that have been appended or handed over, in order. */
  function Streamed(acts: seq<Act>): seq<Image> {
    if acts == [] then [] else Streamed(acts[..|acts| - 1]) + ActPages(acts[|acts| - 1])
  }

  /** Bytes in the walk's buffer, which has the meta pages in it at first. */
  function Filled(acts: seq<Act>, psize: nat): nat {
    if acts == [] then NUM_METAS * psize
    else if acts[|acts| - 1].HandOver? then 0
    else Filled(acts[..|acts| - 1], psize) + psize
  }

  /** No buffer is ever filled beyond its end. */
  ghost predicate BuffersFit(acts: seq<Act>, psize: nat) {
    forall k :: 0 <= k <= |acts| ==> Filled(acts[..k], psize) <= WBUF
  }

  /** The acts so far, and mc_wlen. */
  datatype Buffer = Buffer(acts: seq<Act>, wlen: nat)

  ghost predicate BufferOk(b: Buffer, psize: nat) {
    Multiple(b.wlen, psize) && b.wlen == Filled(b.acts, psize) && BuffersFit(b.acts, psize)
  }

  /** Page sizes divide the size of a buffer. */
  ghost predicate PageSize(psize: nat) {
    Multiple(WBUF, psize) && NUM_METAS * psize <= WBUF
  }

  function Times(m: nat, q: nat): nat {
    m * q
  }

  ghost predicate Multiple(n: nat, m: nat) {
    exists q :: n == Times(m, q)
  }

  lemma FitsOneMore(acts: seq<Act>, a: Act, psize: nat)
    requires BuffersFit(acts, psize) && Filled(acts + [a], psize) <= WBUF
    ensures BuffersFit(acts + [a], psize)
    ensures Streamed(acts + [a]) == Streamed(acts) + ActPages(a)
  {
    var more := acts + [a];
    assert more[..|acts|] == acts;
    forall k | 0 <= k <= |more|
      ensures Filled(more[..k], psize) <= WBUF
    {
      if k <= |acts| {
        assert more[..k] == acts[..k];
      } else {
        assert more[..k] == more;
      }
    }
  }

  /** A multiple below the buffer's size leaves space for one more page. */
  lemma RoomForPage(wlen: nat, psize: nat)
    requires PageSize(psize) && Multiple(wlen, psize) && wlen < WBUF
    ensures wlen + psize <= WBUF && Multiple(wlen + psize, psize)
  {
    var q: nat :| wlen == Times(psize, q);
    var n: nat :| WBUF == Times(psize, n);
    assert wlen + psize == Times(psize, q + 1);
    if q + 1 > n {
      TimesGrows(psize, n, q);
    } else {
      TimesGrows(psize, q + 1, n);
    }
  }

  lemma TimesGrows(m: nat, a: nat, b: nat)
    requires a <= b
    ensures Times(m, a) <= Times(m, b)
  {
    assert Times(m, b) == Times(m, a) + m * (b - a);
  }

  /** mdb_env_cthr_toggle(my, 1) */
  function Toggled(b: Buffer, tail: seq<Image>): Buffer {
    Buffer(b.acts + [HandOver(tail)], 0)
  }

  lemma ToggledOk(b: Buffer, tail: seq<Image>, psize: nat)
    requires BufferOk(b, psize)
    ensures BufferOk(Toggled(b, tail), psize) && Streamed(Toggled(b, tail).acts) == Streamed(b.acts) + tail
  {
    FitsOneMore(b.acts, HandOver(tail), psize);
    assert 0 == Times(psize, 0);
  }

  /** Appends a page; a full buffer is handed over first. */
  method AppendPage(b: Buffer, page: Image, psize: nat) returns (r: Buffer)
    requires BufferOk(b, psize) && PageSize(psize)
    ensures BufferOk(r, psize) && Streamed(r.acts) == Streamed(b.acts) + [page]
  {
    hide BuffersFit, PageSize, Streamed, Multiple;
    r := b;
    if r.wlen >= WBUF {
      ToggledOk(r, [], psize);
      r := Toggled(r, []);
    }
    RoomForPage(r.wlen, psize);
    assert (r.acts + [Append(page)])[..|r.acts|] == r.acts;
    FitsOneMore(r.acts, Append(page), psize);
    assert Streamed(b.acts) + [] == Streamed(b.acts);
    r := Buffer(r.acts + [Append(page)], r.wlen + psize);
  }

  /** The pages of big data: the first into the buffer, the others written from where they are. */
  method AppendOver(b: Buffer, v: Val, pages: nat, psize: nat) returns (r: Buffer)
    requires BufferOk(b, psize) && PageSize(psize) && pages > 0
    ensures BufferOk(r, psize) && Streamed(r.acts) == Streamed(b.acts) + OverPages(v, pages)
  {
    hide BufferOk, PageSize, Streamed;
    ghost var over := OverPages(v, pages);
    r := AppendPage(b, OverImage(v, 0, pages), psize);
    assert over == [over[0]] + over[1..];
    if pages > 1 {
      ToggledOk(r, OverPages(v, pages)[1..], psize);
      r := Toggled(r, OverPages(v, pages)[1..]);
    }
  }

  // ---------------------------------------------------------------- the walk

  /** A branch page on the walk's stack: its first children have been copied, as pages `nums`. */
  datatype Stack = Nil | Frame(t: PTree, nums: seq<Pgno>, below: Stack)

  /** What remains to be written of a branch, and of the tree around it. */
  function RestOfBranch(t: PTree, nums: seq<Pgno>, below: Stack, next: Pgno): seq<Image>
    requires t.PBranch? && |nums| <= |t.kids|
    decreases below, 2
  {
    var ts := RelabelAll(t.kids[|nums|..], next);
    WrittenAll(ts) + RestAtEnd(t, nums + Numbers(ts), below, next + PagesAll(t.kids[|nums|..]))
  }

  /** The same, once all its children have been copied. */
  function RestAtEnd(t: PTree, nums: seq<Pgno>, below: Stack, next: Pgno): seq<Image>
    requires t.PBranch?
    decreases below, 1
  {
    [BranchImage(t.keys, nums)] + RestAfter(below, next, next + 1)
  }

  /** What remains to be written once the page on top has been copied as page num. */
  function RestAfter(stack: Stack, num: Pgno, next: Pgno): seq<Image>
    decreases stack, 0
  {
    if stack.Nil? || !stack.t.PBranch? || |stack.nums| >= |stack.t.kids| then []
    else RestOfBranch(stack.t, stack.nums + [num], stack.below, next)
  }

  /** What remains to be written from page t on, not yet started. */
  function RestFrom(t: PTree, stack: Stack, next: Pgno): seq<Image> {
    Written(Relabel(t, next)) + RestAfter(stack, next + Pages(t) - 1, next + Pages(t))
  }

  /** Big data has at least one page. */
  predicate BigNodesOk(ns: seq<Node>) {
    forall i :: 0 <= i < |ns| && ns[i].Big? ==> ns[i].pages > 0
  }

  predicate BigOk(t: PTree)
    decreases t
  {
    match t
    case PLeaf(_, ns) => BigNodesOk(ns)
    case PBranch(_, _, kids) => forall i :: 0 <= i < |kids| ==> BigOk(kids[i])
  }

  predicate StackOk(stack: Stack) {
    stack.Nil? || (stack.t.PBranch? && |stack.nums| < |stack.t.kids| && Proper(stack.t) && BigOk(stack.t)
                      && StackOk(stack.below))
  }

  /** A branch not yet started has all its children to copy. */
  lemma StartBranch(t: PTree, below: Stack, next: Pgno)
    requires t.PBranch?
    ensures RestFrom(t, below, next) == RestOfBranch(t, [], below, next)
  {
    hide RestAfter;
    assert t.kids[0..] == t.kids;
    assert [] + Numbers(RelabelAll(t.kids, next)) == Numbers(RelabelAll(t.kids, next));
  }

  lemma NothingAfter(t: PTree, num: Pgno, next: Pgno)
    ensures RestFrom(t, Nil, next) == Written(Relabel(t, next))
    ensures RestAfter(Nil, num, next) == []
  {
  }

  /** What is left of a branch is its next child, and what is left after that. */
  lemma BranchSplits(t: PTree, nums: seq<Pgno>, below: Stack, next: Pgno)
    requires t.PBranch? && |nums| < |t.kids|
    ensures var kid, rest := t.kids[|nums|], t.kids[|nums| + 1..];
            var r, ts := Relabel(kid, next), RelabelAll(rest, next + Pages(kid));
            var tail := RestAtEnd(t, nums + [r.pgno] + Numbers(ts), below, next + Pages(kid) + PagesAll(rest));
            RestOfBranch(t, nums, below, next) == (Written(r) + WrittenAll(ts)) + tail
  {
    hide Relabel, RelabelAll, Written, WrittenAll, Pages, PagesAll, RestAfter, RestAtEnd;
    var k := |nums|;
    var kid, rest := t.kids[k], t.kids[k + 1..];
    assert t.kids[k..][0] == kid && t.kids[k..][1..] == rest;
    FirstOfAll(t.kids[k..], next);
    NumbersJoin(nums, Relabel(kid, next), RelabelAll(rest, next + Pages(kid)));
  }

  lemma ChildSplits(t: PTree, nums: seq<Pgno>, below: Stack, next: Pgno)
    requires t.PBranch? && |nums| < |t.kids|
    ensures var kid, rest := t.kids[|nums|], t.kids[|nums| + 1..];
            var r, ts := Relabel(kid, next), RelabelAll(rest, next + Pages(kid));
            var tail := RestAtEnd(t, nums + [r.pgno] + Numbers(ts), below, next + Pages(kid) + PagesAll(rest));
            RestFrom(kid, Frame(t, nums, below), next) == Written(r) + (WrittenAll(ts) + tail)
  {
    hide Relabel, RelabelAll, Written, WrittenAll, Pages, PagesAll, RestAtEnd, RestAfter;
    var kid := t.kids[|nums|];
    AfterChild(t, nums, below, Relabel(kid, next).pgno, next + Pages(kid));
  }

  /** The next child of a branch, before the other ones. */
  lemma NextChild(t: PTree, nums: seq<Pgno>, below: Stack, next: Pgno)
    requires t.PBranch? && |nums| < |t.kids|
    ensures RestOfBranch(t, nums, below, next) == RestFrom(t.kids[|nums|], Frame(t, nums, below), next)
  {
    hide *;
    BranchSplits(t, nums, below, next);
    ChildSplits(t, nums, below, next);
    var kid, rest := t.kids[|nums|], t.kids[|nums| + 1..];
    var r, ts := Relabel(kid, next), RelabelAll(rest, next + Pages(kid));
    Assoc(Written(r), WrittenAll(ts), RestAtEnd(t, nums + [r.pgno] + Numbers(ts), below, next + Pages(kid) + PagesAll(rest)));
  }

  lemma FirstOfAll(ts: seq<PTree>, next: Pgno)
    requires ts != []
    ensures var r, rest := Relabel(ts[0], next), RelabelAll(ts[1..], next + Pages(ts[0]));
            && RelabelAll(ts, next) == [r] + rest
            && WrittenAll(RelabelAll(ts, next)) == Written(r) + WrittenAll(rest)
            && PagesAll(ts) == Pages(ts[0]) + PagesAll(ts[1..])
  {
    hide Relabel, Written, Pages;
    var r, rest := Relabel(ts[0], next), RelabelAll(ts[1..], next + Pages(ts[0]));
    assert ([r] + rest)[1..] == rest;
  }

  lemma NumbersJoin(nums: seq<Pgno>, r: PTree, ts: seq<PTree>)
    ensures nums + Numbers([r] + ts) == nums + [r.pgno] + Numbers(ts)
  {
  }

  lemma AfterChild(t: PTree, nums: seq<Pgno>, below: Stack, num: Pgno, next: Pgno)
    requires t.PBranch? && |nums| < |t.kids|
    ensures RestAfter(Frame(t, nums, below), num, next) == RestOfBranch(t, nums + [num], below, next)
  {
  }

  /** The branch page itself, after its children. */
  lemma FinishBranch(t: PTree, nums: seq<Pgno>, below: Stack, next: Pgno)
    requires t.PBranch? && |nums| == |t.kids|
    ensures RestOfBranch(t, nums, below, next) == [BranchImage(t.keys, nums)] + RestAfter(below, next, next + 1)
  {
    hide RestAfter;
    assert t.kids[|nums|..] == [];
    assert nums + Numbers(RelabelAll([], next)) == nums;
  }

  lemma Assoc<T>(a: seq<T>, b: seq<T>, c: seq<T>)
    ensures a + (b + c) == (a + b) + c
  {
  }

  lemma NothingLeft(next: Pgno)
    ensures RelabelNodes([], next) == [] && WrittenNodes([]) == [] && NodesPages([]) == 0
  {
  }

  lemma NoneAdded<T>(a: seq<T>)
    ensures a + [] == a
  {
  }

  lemma CopyStep(ns: seq<Node>, next: Pgno)
    requires ns != []
    ensures var r0 := if ns[0].Big? then ns[0].(at := next) else ns[0];
            var rest := RelabelNodes(ns[1..], next + NodePages(ns[0]));
            && RelabelNodes(ns, next) == [r0] + rest
            && WrittenNodes([r0] + rest) == (if r0.Big? then OverPages(r0.val, r0.pages) else []) + WrittenNodes(rest)
            && NodesPages(ns) == NodePages(ns[0]) + NodesPages(ns[1..])
  {
    var r0 := if ns[0].Big? then ns[0].(at := next) else ns[0];
    var rest := RelabelNodes(ns[1..], next + NodePages(ns[0]));
    assert ([r0] + rest)[1..] == rest;
  }

  /** The overflow pages of a leaf's nodes, each renumbered on the way. */
  method CopyNodes(ns: seq<Node>, first: Pgno, buf0: Buffer, psize: nat)
    returns (ghost out: seq<Image>, copied: seq<Node>, next: Pgno, buf: Buffer)
    requires BufferOk(buf0, psize) && PageSize(psize) && BigNodesOk(ns)
    ensures copied == RelabelNodes(ns, first) && out == WrittenNodes(copied)
    ensures next == first + NodesPages(ns) && |out| == NodesPages(ns)
    ensures BufferOk(buf, psize) && Streamed(buf.acts) == Streamed(buf0.acts) + out
  {
    hide RelabelNodes, WrittenNodes, NodesPages, BufferOk, PageSize, Streamed;
    out, copied, next, buf := [], [], first, buf0;
    NoneAdded(Streamed(buf0.acts));
    ghost var all := RelabelNodes(ns, first);
    var i := 0;
    assert ns[0..] == ns;
    while i < |ns|
      invariant i <= |ns|
      invariant all == copied + RelabelNodes(ns[i..], next)
      invariant WrittenNodes(all) == out + WrittenNodes(RelabelNodes(ns[i..], next))
      invariant first + NodesPages(ns) == next + NodesPages(ns[i..])
      invariant BufferOk(buf, psize) && Streamed(buf.acts) == Streamed(buf0.acts) + out
    {
      var n := ns[i];
      ghost var rest := RelabelNodes(ns[i + 1..], next + NodePages(n));
      assert ns[i..][1..] == ns[i + 1..] && ns[i..][0] == n;
      CopyStep(ns[i..], next);
      Assoc(copied, [if n.Big? then n.(at := next) else n], rest);
      Assoc(out, if n.Big? then OverPages(n.val, n.pages) else [], WrittenNodes(rest));
      if n.Big? {
        copied := copied + [n.(at := next)];
        Assoc(Streamed(buf0.acts), out, OverPages(n.val, n.pages));
        buf := AppendOver(buf, n.val, n.pages, psize);
        out := out + OverPages(n.val, n.pages);
        next := next + n.pages;
      } else {
        copied := copied + [n];
        NoneAdded(out);
      }
      i := i + 1;
    }
    assert ns[i..] == [];
    NothingLeft(next);
    NoneAdded(copied);
    NoneAdded(out);
    SamePages(ns, first);
  }

  lemma LeafRest(t: PTree, stack: Stack, next: Pgno)
    requires t.PLeaf?
    ensures var copied := RelabelNodes(t.nodes, next);
            var num := next + NodesPages(t.nodes);
            RestFrom(t, stack, next) ==
            WrittenNodes(copied) + ([LeafImage(Slots(copied))] + RestAfter(stack, num, num + 1))
  {
    hide RestAfter;
    var copied := RelabelNodes(t.nodes, next);
    assert Written(Relabel(t, next)) == WrittenNodes(copied) + [LeafImage(Slots(copied))];
  }

  lemma LeafDone(all: seq<Image>, out: seq<Image>, t: PTree, stack: Stack, next: Pgno)
    requires t.PLeaf? && all == out + RestFrom(t, stack, next)
    ensures var copied, num := RelabelNodes(t.nodes, next), next + NodesPages(t.nodes);
            all == (out + WrittenNodes(copied) + [LeafImage(Slots(copied))]) + RestAfter(stack, num, num + 1)
  {
    LeafRest(t, stack, next);
    var copied, num := RelabelNodes(t.nodes, next), next + NodesPages(t.nodes);
    hide RestFrom, RestAfter, WrittenNodes, RelabelNodes;
    Assoc(out, WrittenNodes(copied), [LeafImage(Slots(copied))] + RestAfter(stack, num, num + 1));
    Assoc(out + WrittenNodes(copied), [LeafImage(Slots(copied))], RestAfter(stack, num, num + 1));
  }

  lemma BranchDone(all: seq<Image>, out: seq<Image>, t: PTree, nums: seq<Pgno>, stack: Stack, next: Pgno)
    requires t.PBranch? && |nums| == |t.kids| && all == out + RestOfBranch(t, nums, stack, next)
    ensures all == (out + [BranchImage(t.keys, nums)]) + RestAfter(stack, next, next + 1)
  {
    FinishBranch(t, nums, stack, next);
    hide RestOfBranch, RestAfter;
    Assoc(out, [BranchImage(t.keys, nums)], RestAfter(stack, next, next + 1));
  }

  /** The meta pages are in the buffer before the walk begins. */
  lemma BufferStarts(psize: nat)
    requires PageSize(psize)
    ensures BufferOk(Buffer([], NUM_METAS * psize), psize) && Streamed([]) == []
  {
    assert NUM_METAS * psize == Times(psize, NUM_METAS);
  }

  lemma BufferFits(b: Buffer, psize: nat)
    requires BufferOk(b, psize)
    ensures BuffersFit(b.acts, psize)
  {
  }

  lemma BigLeaf(t: PTree)
    requires t.PLeaf? && BigOk(t)
    ensures BigNodesOk(t.nodes)
  {
  }

  /** Down to the first leaf below a branch's next child. */
  method Descend(t: PTree, nums: seq<Pgno>, below: Stack, ghost next: Pgno)
    returns (page: PTree, pageNums: seq<Pgno>, stack: Stack)
    requires t.PBranch? && |nums| < |t.kids| && Proper(t) && BigOk(t) && StackOk(below)
    ensures page.PLeaf? && pageNums == [] && StackOk(stack) && Proper(page) && BigOk(page)
    ensures RestFrom(page, stack, next) == RestOfBranch(t, nums, below, next)
  {
    hide RestFrom, RestOfBranch;
    NextChild(t, nums, below, next);
    page, stack := t.kids[|nums|], Frame(t, nums, below);
    while page.PBranch?
      invariant Proper(page) && BigOk(page) && StackOk(stack)
      invariant RestFrom(page, stack, next) == RestOfBranch(t, nums, below, next)
      decreases page
    {
      StartBranch(page, stack, next);
      NextChild(page, [], stack, next);
      page, stack := page.kids[0], Frame(page, [], stack);
    }
    pageNums := [];
  }

  /**
   mdb_env_cwalk on a tree that is not empty: a depth-first walk with a stack of branch pages.
   The copy starts at page 2, after the meta pages.
   */
  method CopyWalk(root: PTree, psize: nat) returns (acts: seq<Act>, newRoot: Pgno)
    requires Proper(root) && BigOk(root) && PageSize(psize)
    ensures Streamed(acts) == Written(Relabel(root, NUM_METAS)) && BuffersFit(acts, psize)
    ensures newRoot == Relabel(root, NUM_METAS).pgno
  {
    hide Relabel, Written, RestFrom, RestOfBranch, RestAfter, Pages, Proper, WrittenNodes, RelabelNodes, RestAtEnd,
         BufferOk, PageSize, Streamed, BigOk;
    var buf := Buffer([], NUM_METAS * psize);
    BufferStarts(psize);
    ghost var out := [];
    var next := NUM_METAS;
    var page, nums, stack := root, [], Nil;
    ghost var all := Written(Relabel(root, NUM_METAS));
    newRoot := 0;
    var done := false;
    NothingAfter(root, 0, next);
    if page.PBranch? {
      StartBranch(page, stack, next);
    }
    while !done
      invariant StackOk(stack) && Proper(page) && BigOk(page) && next == NUM_METAS + |out|
      invariant BufferOk(buf, psize) && Streamed(buf.acts) == out
      invariant !done && page.PLeaf? ==> nums == [] && all == out + RestFrom(page, stack, next)
      invariant !done && page.PBranch? ==> |nums| <= |page.kids| && all == out + RestOfBranch(page, nums, stack, next)
      invariant done ==> all == out && newRoot == NUM_METAS + |out| - 1
      decreases !done, |all| - |out|, page.PBranch?
    {
      var image;
      if page.PLeaf? {
        ghost var over;
        var copied;
        LeafDone(all, out, page, stack, next);
        BigLeaf(page);
        over, copied, next, buf := CopyNodes(page.nodes, next, buf, psize);
        out := out + over;
        image := LeafImage(Slots(copied));
      } else if |nums| < |page.kids| {
        // go on to the first leaf below the next child
        page, nums, stack := Descend(page, nums, stack, next);
        continue;
      } else {
        BranchDone(all, out, page, nums, stack, next);
        image := BranchImage(page.keys, nums);
      }
      buf := AppendPage(buf, image, psize);
      out := out + [image];
      if stack.Frame? {
        AfterChild(stack.t, stack.nums, stack.below, next, next + 1);
        page, nums, stack := stack.t, stack.nums + [next], stack.below;
      } else {
        NothingAfter(root, next, next + 1);
        NoneAdded(out);
        newRoot := next;
        done := true;
      }
      next := next + 1;
    }
    SameTreePages(root, NUM_METAS);
    acts := buf.acts;
    BufferFits(buf, psize);
  }

  // ---------------------------------------------------------------- the whole copy

  /** The copy holds the same tree, at other pages: reading it gives the same map. */
  lemma CopyIsTheSame(root: PTree)
    ensures var copy := Relabel(root, NUM_METAS);
            && Readable(Written(copy), NUM_METAS, copy)
            && Strip(copy) == Strip(root)
            && ToMap(Flat(Strip(copy))) == ToMap(Flat(Strip(root)))
  {
    var copy := Relabel(root, NUM_METAS);
    assert Written(copy)[0..|Written(copy)|] == Written(copy);
    TreeReadable(Written(copy), NUM_METAS, root, NUM_METAS);
    SameTree(root, NUM_METAS);
  }

  // ---------------------------------------------------------------- the meta page

  function Count(records: seq<seq<Pgno>>): nat {
    if records == [] then 0 else |records[0]| + Count(records[1..])
  }

  function Joined(records: seq<seq<Pgno>>): (r: seq<Pgno>)
    ensures |r| == Count(records)
  {
    if records == [] then [] else records[0] + Joined(records[1..])
  }

  /** What meta page 1 of the copy says; no root stands for P_INVALID. */
  datatype Meta = Meta(root: Option<int>, txnid: Txnid)

  /** The free pages in the freeDB's records, and the pages of the freeDB itself. */
  method FreeCount(records: seq<seq<Pgno>>, freeDbPages: nat) returns (n: nat)
    ensures n == Count(records) + freeDbPages
  {
    n := 0;
    var i := 0;
    assert records[0..] == records;
    while i < |records|
      invariant i <= |records| && n + Count(records[i..]) == Count(records)
    {
      assert records[i..][1..] == records[i + 1..];
      n := n + |records[i]|;
      i := i + 1;
    }
    n := n + freeDbPages;
  }

  /**
   mdb_env_copyfd1: the root's new number is predicted from the page accounts, written into the
   meta page, and checked after the walk. When the check fails, with MDB_INCOMPATIBLE, pages have
   leaked. An empty database is copied without any pages, and without a check; its meta page
   is only used if the database has flags.
   */
  method CopyCompact(root: Option<PTree>, flags: nat, nextPgno: Pgno, records: seq<seq<Pgno>>, freeDbPages: nat, psize: nat)
    returns (acts: seq<Act>, meta: Meta, ok: bool)
    requires PageSize(psize) && (root.Some? ==> Proper(root.value) && BigOk(root.value))
    ensures BuffersFit(acts, psize) && meta.root.Some? == root.Some?
    ensures root.None? ==> acts == [] && ok && meta.txnid == if flags != 0 then 1 else 0
    ensures root.Some? ==>
              && Streamed(acts) == Written(Relabel(root.value, NUM_METAS)) && meta.txnid == 1
              && (ok <==> meta.root.value == Relabel(root.value, NUM_METAS).pgno)
              && (ok <==> Pages(root.value) + Count(records) + freeDbPages == nextPgno - NUM_METAS)
  {
    hide Relabel, Written, Pages, Proper, Streamed, BuffersFit, PageSize, BigOk, Count;
    BufferStarts(psize);
    BufferFits(Buffer([], NUM_METAS * psize), psize);
    acts, ok, meta := [], true, Meta(None, 0);
    if root.Some? {
      var freecount := FreeCount(records, freeDbPages);
      meta := meta.(root := Some(nextPgno - 1 - freecount));
    }
    if root.Some? || flags != 0 {
      meta := meta.(txnid := 1);
    }
    if root.Some? {
      var newRoot;
      acts, newRoot := CopyWalk(root.value, psize);
      ok := meta.root.value == newRoot;
    }
  }

  /** If every page is in exactly one place, the predicted root is right. */
  lemma PredictedRoot(root: PTree, records: seq<seq<Pgno>>, freeDb: seq<Pgno>, nextPgno: Pgno)
    requires Distinct(AllPages(root) + Joined(records) + freeDb) && nextPgno >= NUM_METAS
    requires Elements(AllPages(root) + Joined(records) + freeDb) == InUse(nextPgno)
    ensures Pages(root) + Count(records) + |freeDb| == nextPgno - NUM_METAS
    ensures Relabel(root, NUM_METAS).pgno == nextPgno - 1 - (Count(records) + |freeDb|)
  {
    hide AllPages, Relabel, InUse, Joined;
    DistinctCount(AllPages(root) + Joined(records) + freeDb);
    InUseCount(nextPgno);
  }
}
