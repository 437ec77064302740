/**
 The walk of the compacting copy and its two threads together: the file that the writer thread
 leaves is the meta pages and then the pages of the walk, in the walk's order.
 */
module CopyStream {
  import opened Base
  import opened PageTree
  import opened CopyHandoff
  import C = CompactCopy

  // ---------------------------------------------------------------- what is handed over

  /** What a step adds to the stream of bytes. */
  function Given(step: Step): Bytes {
    match step
    case Append(page) => page
    case HandOver(tail) => tail
    case _ => []
  }

  function Sent(steps: seq<Step>): Bytes {
    if steps == [] then [] else Sent(steps[..|steps| - 1]) + Given(steps[|steps| - 1])
  }

  /** Bytes in the walker's buffer that have not been handed over. */
  function Unsent(s: State): Bytes
    requires Shaped(s)
  {
    match s.walker
    case Filling => s.wbuf[s.toggle]
    case Locking(_) => Whole(s, s.toggle)
    case Adding(_) => Whole(s, s.toggle)
    case _ => []
  }

  /** The walker turns to a buffer without a tail, and keeps it so. */
  lemma NoTail(s: State)
    requires Inv(s)
    ensures Shaped(s)
    ensures s.walker.Filling? ==> s.over[s.toggle] == []
    ensures s.walker.Turning? ==> s.over[Other(s.toggle)] == []
  {
    hide MutexOk, WaitOk, DataOk;
  }

  lemma Appends(s: State, t: State, page: Bytes)
    requires Shaped(s) && WalkerStep(s, t, Append(page))
    ensures Shaped(t) && t.handed + Unsent(t) == (s.handed + Unsent(s)) + page
  {
    assert Unsent(t) == Unsent(s) + page;
  }

  lemma HandsOver(s: State, t: State, step: Step)
    requires Shaped(s) && WalkerStep(s, t, step) && (step.HandOver? || step.Finish?)
    requires s.over[s.toggle] == []
    ensures Shaped(t) && t.handed + Unsent(t) == (s.handed + Unsent(s)) + Given(step)
  {
    assert Unsent(t) == Unsent(s) + Given(step);
  }

  lemma AddsAll(s: State, t: State)
    requires Shaped(s) && WalkerStep(s, t, Adds)
    ensures Shaped(t) && t.handed + Unsent(t) == (s.handed + Unsent(s)) + []
  {
    assert t.handed == s.handed + Unsent(s);
  }

  lemma NothingSent(s: State, t: State, step: Step)
    requires Shaped(s) && WalkerStep(s, t, step)
    requires !step.Append? && !step.HandOver? && !step.Finish? && !step.Adds?
    requires s.walker.Turning? ==> s.over[Other(s.toggle)] == []
    ensures Shaped(t) && Given(step) == [] && t.handed == s.handed && Unsent(t) == Unsent(s)
  {
  }

  lemma WalkerSends(s: State, t: State, step: Step)
    requires Inv(s) && WalkerStep(s, t, step)
    ensures Shaped(t) && t.handed + Unsent(t) == (s.handed + Unsent(s)) + Given(step)
  {
    hide Unsent, Inv, Whole;
    NoTail(s);
    if step.Append? {
      Appends(s, t, step.page);
    } else if step.HandOver? || step.Finish? {
      HandsOver(s, t, step);
    } else if step.Adds? {
      AddsAll(s, t);
    } else {
      NothingSent(s, t, step);
      assert (s.handed + Unsent(s)) + [] == s.handed + Unsent(s);
    }
  }

  /** While the writer works on a buffer, the walker's is the other one. */
  lemma BuffersDiffer(s: State)
    requires Inv(s) && (s.writer.WWriting? || s.writer.WReturning?)
    ensures s.walker.Filling? || s.walker.Locking? || s.walker.Adding? ==> s.toggle != s.wtoggle
  {
    hide MutexOk, WaitOk, DataOk, TailsOk;
  }

  lemma InvShaped(s: State)
    requires Inv(s)
    ensures Shaped(s)
  {
  }

  lemma PartDoneSpares(s: State, t: State)
    requires Shaped(s) && WriterStep(s, t, PartDone)
    requires s.walker.Filling? || s.walker.Locking? || s.walker.Adding? ==> s.toggle != s.wtoggle
    ensures Shaped(t) && t.handed == s.handed && Unsent(t) == Unsent(s)
  {
  }

  lemma ReturnsSpares(s: State, t: State)
    requires Shaped(s) && WriterStep(s, t, Returns)
    requires s.walker.Filling? || s.walker.Locking? || s.walker.Adding? ==> s.toggle != s.wtoggle
    ensures Shaped(t) && t.handed == s.handed && Unsent(t) == Unsent(s)
  {
  }

  lemma OthersSpare(s: State, t: State, step: Step)
    requires Shaped(s) && WriterStep(s, t, step) && !step.PartDone? && !step.Returns?
    ensures Shaped(t) && t.handed == s.handed && Unsent(t) == Unsent(s) && Given(step) == []
  {
  }

  /** The writer does not touch the buffer that the walker fills. */
  lemma WriterSpares(s: State, t: State, step: Step)
    requires Inv(s) && WriterStep(s, t, step)
    ensures Shaped(t) && t.handed == s.handed && Unsent(t) == Unsent(s) && Given(step) == []
  {
    InvShaped(s);
    hide Inv, Unsent;
    if step.PartDone? {
      BuffersDiffer(s);
      PartDoneSpares(s, t);
    } else if step.Returns? {
      BuffersDiffer(s);
      ReturnsSpares(s, t);
    } else {
      OthersSpare(s, t, step);
    }
  }

  lemma {:induction false} AllSent(run: seq<State>, steps: seq<Step>, k: nat)
    requires IsRun(run, steps) && k < |run|
    ensures |run[0].wbuf| == 2 && Shaped(run[k])
    ensures run[k].handed + Unsent(run[k]) == run[0].wbuf[0] + Sent(steps[..k])
  {
    hide Inv, WalkerStep, WriterStep, Unsent, Given;
    RunKeepsInv(run, steps, k);
    if k == 0 {
      Starts(run[0]);
      assert steps[..0] == [];
      assert [] + run[0].wbuf[0] == run[0].wbuf[0] + [];
    } else {
      AllSent(run, steps, k - 1);
      RunKeepsInv(run, steps, k - 1);
      assert StepAt(run, steps, k - 1);
      assert steps[..k][..k - 1] == steps[..k - 1];
      var s, t, step := run[k - 1], run[k], steps[k - 1];
      if WriterStep(s, t, step) {
        WriterSpares(s, t, step);
      } else {
        WalkerSends(s, t, step);
      }
    }
  }

  lemma Starts(s: State)
    requires Init(s)
    ensures Shaped(s) && s.handed == [] && Unsent(s) == s.wbuf[0]
  {
  }

  /** When the writer has exited without an error, all that the walker gave it is in the file. */
  lemma OutputIsStream(run: seq<State>, steps: seq<Step>, k: nat)
    requires IsRun(run, steps) && k < |run| && run[k].writer.WExited? && !run[k].error
    ensures |run[0].wbuf| == 2 && run[k].output == run[0].wbuf[0] + Sent(steps[..k])
  {
    AllSent(run, steps, k);
    OutputIsInOrder(run, steps, k);
    WriterExitsLast(run, steps, k);
  }

  // ---------------------------------------------------------------- the walk's acts

  /** The bytes of the page image that becomes page p, its number included. */
  type Encoding = (Pgno, C.Image) -> Bytes

  function Encoded(enc: Encoding, pages: seq<C.Image>, first: Pgno): Bytes {
    if pages == [] then []
    else Encoded(enc, pages[..|pages| - 1], first) + enc(first + |pages| - 1, pages[|pages| - 1])
  }

  /** The walker's step for an act, when n pages have gone before. */
  function StepOf(enc: Encoding, a: C.Act, n: nat): Step {
    match a
    case Append(page) => Append(enc(NUM_METAS + n, page))
    case HandOver(tail) => HandOver(Encoded(enc, tail, NUM_METAS + n))
  }

  function StepsOf(enc: Encoding, acts: seq<C.Act>): seq<Step> {
    if acts == [] then []
    else
      var before := acts[..|acts| - 1];
      StepsOf(enc, before) + [StepOf(enc, acts[|acts| - 1], |C.Streamed(before)|)]
  }

  /** The steps by which a walker gives pages away, without those of handing over and waiting. */
  function Client(steps: seq<Step>): seq<Step> {
    if steps == [] then []
    else
      var last := steps[|steps| - 1];
      Client(steps[..|steps| - 1]) + (if last.Append? || last.HandOver? then [last] else [])
  }

  lemma SentMore(steps: seq<Step>, last: Step)
    ensures Sent(steps + [last]) == Sent(steps) + Given(last)
  {
    assert (steps + [last])[..|steps|] == steps;
  }

  lemma {:induction false} ClientSends(steps: seq<Step>)
    ensures Sent(Client(steps)) == Sent(steps)
  {
    if steps != [] {
      var before, last := steps[..|steps| - 1], steps[|steps| - 1];
      ClientSends(before);
      SentMore(Client(before), last);
      assert Client(before) + [] == Client(before);
    }
  }

  lemma {:induction false} EncodedConcat(enc: Encoding, a: seq<C.Image>, b: seq<C.Image>, first: Pgno)
    ensures Encoded(enc, a + b, first) == Encoded(enc, a, first) + Encoded(enc, b, first + |a|)
    decreases |b|
  {
    if b == [] {
      assert a + b == a;
    } else {
      var b' := b[..|b| - 1];
      EncodedConcat(enc, a, b', first);
      assert (a + b)[..|a + b| - 1] == a + b';
    }
  }

  /** The acts of the walk send just the pages of the walk. */
  lemma {:induction false} ActsSend(enc: Encoding, acts: seq<C.Act>)
    ensures Sent(StepsOf(enc, acts)) == Encoded(enc, C.Streamed(acts), NUM_METAS)
  {
    if acts != [] {
      var before, last := acts[..|acts| - 1], acts[|acts| - 1];
      var n := |C.Streamed(before)|;
      ActsSend(enc, before);
      SentMore(StepsOf(enc, before), StepOf(enc, last, n));
      EncodedConcat(enc, C.Streamed(before), C.ActPages(last), NUM_METAS);
      OneEncoded(enc, last, n);
    }
  }

  lemma OneEncoded(enc: Encoding, a: C.Act, n: nat)
    ensures Given(StepOf(enc, a, n)) == Encoded(enc, C.ActPages(a), NUM_METAS + n)
  {
    if a.Append? {
      assert C.ActPages(a)[..0] == [];
    }
  }

  /**
   If the walker does what the walk does, and both threads come to their end without an error,
   the file is the meta pages followed by the renumbered tree, children before parents, every
   page at the place that its number says.
   */
  lemma CopyReachesFile(root: PTree, acts: seq<C.Act>, enc: Encoding, run: seq<State>, steps: seq<Step>, k: nat)
    requires C.Streamed(acts) == C.Written(C.Relabel(root, NUM_METAS))
    requires IsRun(run, steps) && k < |run| && Client(steps[..k]) == StepsOf(enc, acts)
    requires run[k].writer.WExited? && !run[k].error
    ensures |run[0].wbuf| == 2
    ensures run[k].output == run[0].wbuf[0] + Encoded(enc, C.Written(C.Relabel(root, NUM_METAS)), NUM_METAS)
    ensures C.Readable(C.Written(C.Relabel(root, NUM_METAS)), NUM_METAS, C.Relabel(root, NUM_METAS))
  {
    hide Encoded, C.Streamed, C.Written, C.Relabel, StepsOf, Client, Sent, C.Readable;
    OutputIsStream(run, steps, k);
    ClientSends(steps[..k]);
    ActsSend(enc, acts);
    C.CopyIsTheSame(root);
  }

  ghost predicate OfSize(enc: Encoding, psize: nat) {
    forall p, image :: |enc(p, image)| == psize
  }

  lemma {:induction false} Length(enc: Encoding, pages: seq<C.Image>, first: Pgno, psize: nat)
    requires OfSize(enc, psize)
    ensures |Encoded(enc, pages, first)| == C.Times(psize, |pages|)
    decreases |pages|
  {
    if pages != [] {
      var n := |pages| - 1;
      hide OfSize;
      Length(enc, pages[..n], first, psize);
      OneSize(enc, psize, first + n, pages[n]);
      TimesNext(psize, n);
    }
  }

  lemma OneSize(enc: Encoding, psize: nat, p: Pgno, image: C.Image)
    requires OfSize(enc, psize)
    ensures |enc(p, image)| == psize
  {
  }

  lemma TimesNext(m: nat, n: nat)
    ensures C.Times(m, n + 1) == C.Times(m, n) + m
  {
  }

  /** Page p of the copy is at the offset that its number says. */
  lemma {:induction false} PageAt(enc: Encoding, pages: seq<C.Image>, first: Pgno, psize: nat, i: nat)
    requires i < |pages| && OfSize(enc, psize)
    ensures var at := C.Times(psize, i);
            && at + psize <= |Encoded(enc, pages, first)|
            && Encoded(enc, pages, first)[at..at + psize] == enc(first + i, pages[i])
    decreases |pages|
  {
    hide OfSize, C.Times;
    var n, at := |pages| - 1, C.Times(psize, i);
    var before, last := Encoded(enc, pages[..n], first), enc(first + n, pages[n]);
    Length(enc, pages[..n], first, psize);
    OneSize(enc, psize, first + n, pages[n]);
    if i < n {
      PageAt(enc, pages[..n], first, psize, i);
      assert (before + last)[at..at + psize] == before[at..at + psize];
    } else {
      assert (before + last)[at..at + psize] == last;
    }
  }
}
