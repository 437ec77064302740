/** Page and node size arithmetic. */
module Sizes {
  type Key = int
  type Val = int

  const PAGEHDRSZ: nat := 16
  const NODESIZE: nat := 8
  const SLOT: nat := 2        // sizeof(indx_t)
  const PGNO_SIZE: nat := 8   // sizeof(pgno_t)

  /**
   What the trees need to know of an environment. Keys are their places in the comparator's
   order; how many bytes a key or a value takes is any function within the limits below.
   */
  datatype Parameters = Parameters(psize: nat, ksize: Key -> nat, vsize: Val -> nat)

  ghost predicate Supported(e: Parameters) {
    && 4096 <= e.psize <= 0x8000 && e.psize % 2 == 0
    && forall k :: 1 <= e.ksize(k) <= 511
  }

  type Env = e: Parameters | Supported(e) witness Parameters(4096, _ => 1, _ => 0)

  function Even(n: nat): nat {
    (n + 1) / 2 * 2
  }

  /** Space for nodes and their slots on an empty page. */
  function PageMax(e: Env): nat {
    e.psize - PAGEHDRSZ
  }

  /** me_nodemax */
  function NodeMax(e: Env): nat {
    PageMax(e) / 2 / 2 * 2 - SLOT
  }

  /** A leaf node; `big` data lies on overflow pages. */
  datatype Entry = Entry(key: Key, val: Val, big: bool)

  /** mdb_node_add puts data on overflow pages when the node would exceed NodeMax. */
  function NewEntry(e: Env, k: Key, v: Val): Entry {
    Entry(k, v, NODESIZE + e.ksize(k) + e.vsize(v) > NodeMax(e))
  }

  /** Bytes a leaf node takes, slot included: mdb_leaf_size. */
  function LeafSlot(e: Env, x: Entry): nat {
    Even(NODESIZE + e.ksize(x.key) + (if x.big then PGNO_SIZE else e.vsize(x.val))) + SLOT
  }

  /** Bytes a branch node takes, slot included: mdb_branch_size, rounded. */
  function KeySlot(e: Env, k: Key): nat {
    Even(NODESIZE + e.ksize(k)) + SLOT
  }

  /** The first node of a branch has no key. */
  const FIRST_SLOT: nat := NODESIZE + SLOT

  predicate EntryOk(e: Env, x: Entry) {
    x.big || NODESIZE + e.ksize(x.key) + e.vsize(x.val) <= NodeMax(e)
  }

  /** Data lie on overflow pages exactly when two such nodes would not fit on one page. */
  lemma BigIfTwoDoNotFit(e: Env, k: Key, v: Val)
    ensures NewEntry(e, k, v).big <==> 2 * LeafSlot(e, Entry(k, v, false)) > PageMax(e)
  {
  }

  /** No leaf node takes more than half a page, and no branch node more than 522 bytes. */
  lemma SlotLimits(e: Env, x: Entry, k: Key)
    requires EntryOk(e, x)
    ensures 12 <= LeafSlot(e, x) && 2 * LeafSlot(e, x) <= PageMax(e) && LeafSlot(e, x) % 2 == 0
    ensures 12 <= KeySlot(e, k) <= 522 && KeySlot(e, k) % 2 == 0
  {
  }

  function Sum(s: seq<nat>): nat {
    if s == [] then 0 else s[0] + Sum(s[1..])
  }

  lemma {:induction false} SumConcat(a: seq<nat>, b: seq<nat>)
    ensures Sum(a + b) == Sum(a) + Sum(b)
  {
    if a == [] {
      assert a + b == b;
    } else {
      assert (a + b)[1..] == a[1..] + b;
      SumConcat(a[1..], b);
    }
  }

  lemma SumSplit(s: seq<nat>, i: nat)
    requires i <= |s|
    ensures Sum(s) == Sum(s[..i]) + Sum(s[i..])
  {
    assert s == s[..i] + s[i..];
    SumConcat(s[..i], s[i..]);
  }

  lemma {:induction false} SumAtLeast(s: seq<nat>, each: nat)
    requires forall i :: 0 <= i < |s| ==> s[i] >= each
    ensures Sum(s) >= each * |s|
  {
    if s != [] {
      SumAtLeast(s[1..], each);
    }
  }

  lemma {:induction false} SumAtMost(s: seq<nat>, each: nat)
    requires forall i :: 0 <= i < |s| ==> s[i] <= each
    ensures Sum(s) <= each * |s|
  {
    if s != [] {
      SumAtMost(s[1..], each);
    }
  }

  lemma {:induction false} SumEven(s: seq<nat>)
    requires forall i :: 0 <= i < |s| ==> s[i] % 2 == 0
    ensures Sum(s) % 2 == 0
  {
    if s != [] {
      SumEven(s[1..]);
    }
  }
}
