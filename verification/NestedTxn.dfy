/**
 A write transaction nested in a top-level one: its dirty and spilled pages, the room left in the
 dirty list, and what committing or aborting it makes of the parent's.
 */
module NestedTxn {
  import opened Base

  /** MDB_IDL_UM_MAX: how many pages a dirty list can hold. */
  const DIRTY_MAX: nat := 131071

  type Pages = map<Pgno, Content>

  datatype State = State(
    parentDirty: Pages,         // parent's mt_u.dirty_list
    parentSpill: set<Pgno>,     // parent's mt_spill_pgs
    dirty: Pages,               // the child's
    spill: set<Pgno>,
    file: Pages,                // the map; spilled pages have been written to it
    room: nat)                  // mt_dirty_room of the child

  /** The dirty pages the child sees: the parent's, unless hidden by its own. */
  function Visible(s: State): set<Pgno> {
    (s.parentDirty.Keys - s.spill) + s.dirty.Keys
  }

  ghost predicate Inv(s: State) {
    ListsOk(s) && s.room + |Visible(s)| == DIRTY_MAX
  }

  datatype Step =
    | Alloc(p: Pgno, c: Content)  // mdb_page_alloc, mdb_page_dirty
    | CopyDown(p: Pgno)           // mdb_page_touch of a page the parent has dirtied
    | Unspill(p: Pgno)            // mdb_page_unspill
    | Write(p: Pgno, c: Content)
    | Spill(p: Pgno)              // one page of mdb_page_spill and mdb_page_flush

  ghost predicate Next(s: State, t: State, step: Step) {
    match step
    case Alloc(p, c) =>
      // a page that is free in this transaction
      && p !in s.parentDirty && p !in s.parentSpill && p !in s.dirty && p !in s.spill
      && s.room > 0 && t == s.(dirty := s.dirty[p := c], room := s.room - 1)
    case CopyDown(p) =>
      && p in s.parentDirty && p !in s.spill && p !in s.dirty
      && t == s.(dirty := s.dirty[p := s.parentDirty[p]])
    case Unspill(p) =>
      && p in s.file && s.room > 0
      && if p in s.spill
         then t == s.(dirty := s.dirty[p := s.file[p]], spill := s.spill - {p}, room := s.room - 1)
         // the page remains in the parent's list until the child commits
         else p in s.parentSpill && p !in s.dirty && t == s.(dirty := s.dirty[p := s.file[p]], room := s.room - 1)
    case Write(p, c) =>
      p in s.dirty && t == s.(dirty := s.dirty[p := c])
    case Spill(p) =>
      // never a page that an ancestor has spilled
      && p in s.dirty && p !in s.parentSpill
      && t == s.(file := s.file[p := s.dirty[p]], dirty := s.dirty - {p}, spill := s.spill + {p}, room := s.room + 1)
  }

  /** mdb_txn_begin with a parent. */
  ghost predicate Init(s: State) {
    && s.parentDirty.Keys !! s.parentSpill && s.parentSpill <= s.file.Keys
    && s.dirty == map[] && s.spill == {}
    && s.room + |s.parentDirty| == DIRTY_MAX
  }

  /** The lists agree with each other: no page is both dirty and spilled, or spilled twice. */
  predicate ListsOk(s: State) {
    && s.parentDirty.Keys !! s.parentSpill
    && s.dirty.Keys !! s.spill
    && s.spill !! s.parentSpill
    && s.spill <= s.file.Keys && s.parentSpill <= s.file.Keys
  }

  lemma StepKeepsLists(s: State, t: State, step: Step)
    requires ListsOk(s) && Next(s, t, step)
    ensures ListsOk(t)
  {
  }

  lemma StepVisible(s: State, t: State, step: Step)
    requires ListsOk(s) && Next(s, t, step)
    ensures match step
            case Alloc(p, _) => p !in Visible(s) && Visible(t) == Visible(s) + {p}
            case Unspill(p) => p !in Visible(s) && Visible(t) == Visible(s) + {p}
            case Spill(p) => p in Visible(s) && Visible(t) == Visible(s) - {p}
            case _ => Visible(t) == Visible(s)
  {
  }

  /** mt_dirty_room stays the capacity less the dirty pages the child sees. */
  lemma StepKeepsRoom(s: State, t: State, step: Step)
    requires Inv(s) && Next(s, t, step)
    ensures Inv(t)
  {
    hide Visible;
    StepKeepsLists(s, t, step);
    StepVisible(s, t, step);
    hide ListsOk;
  }

  lemma InitHasRoom(s: State)
    requires Init(s)
    ensures Inv(s)
  {
    assert Visible(s) == s.parentDirty.Keys;
    assert |s.parentDirty.Keys| == |s.parentDirty|;
  }

  /** Copying a parent's page down finds room in the child's list without counting it. */
  lemma CopyDownFits(s: State, p: Pgno)
    requires Inv(s) && p in s.parentDirty && p !in s.spill && p !in s.dirty
    ensures |s.dirty| < DIRTY_MAX
  {
    assert |s.dirty.Keys + {p}| <= |Visible(s)| by { Subset(s.dirty.Keys + {p}, Visible(s)); }
    assert |s.dirty.Keys| == |s.dirty|;
  }

  lemma {:induction false} Subset(a: set<Pgno>, b: set<Pgno>)
    requires a <= b
    ensures |a| <= |b|
    decreases a
  {
    if a != {} {
      var x :| x in a;
      Subset(a - {x}, b - {x});
    }
  }

  // ---------------------------------------------------------------- runs

  ghost predicate StepAt(run: seq<State>, steps: seq<Step>, k: nat)
    requires |run| == |steps| + 1 && k < |steps|
  {
    Next(run[k], run[k + 1], steps[k])
  }

  ghost predicate IsRun(run: seq<State>, steps: seq<Step>) {
    && |run| == |steps| + 1
    && Init(run[0])
    && forall k :: 0 <= k < |steps| ==> StepAt(run, steps, k)
  }

  lemma {:induction false} RoomIsExact(run: seq<State>, steps: seq<Step>, k: nat)
    requires IsRun(run, steps) && k < |run|
    ensures Inv(run[k])
  {
    hide Inv, Next, Init;
    if k == 0 {
      InitHasRoom(run[0]);
    } else {
      RoomIsExact(run, steps, k - 1);
      assert StepAt(run, steps, k - 1);
      StepKeepsRoom(run[k - 1], run[k], steps[k - 1]);
    }
  }

  // ---------------------------------------------------------------- what a page reads as

  /** mdb_page_get in the child: its own lists first, then the parent's, then the map. */
  function ChildSees(s: State, p: Pgno): Option<Content> {
    if p in s.spill then FileAt(s.file, p)
    else if p in s.dirty then Some(s.dirty[p])
    else ParentSees(s.parentDirty, s.parentSpill, s.file, p)
  }

  function ParentSees(dirty: Pages, spill: set<Pgno>, file: Pages, p: Pgno): Option<Content> {
    if p in spill then FileAt(file, p)
    else if p in dirty then Some(dirty[p])
    else FileAt(file, p)
  }

  function FileAt(file: Pages, p: Pgno): Option<Content> {
    if p in file then Some(file[p]) else None
  }

  /** The parent's dirty list after the child's commit. */
  function CommittedDirty(s: State): Pages {
    (s.parentDirty - s.spill) + s.dirty
  }

  /** The parent's spill list after the child's commit. */
  function CommittedSpill(s: State): set<Pgno> {
    (s.parentSpill - s.dirty.Keys) + s.spill
  }

  /** After a nested commit the parent sees every page as the child did, and its lists are consistent. */
  lemma CommitKeepsPages(s: State, p: Pgno)
    requires Inv(s)
    ensures ParentSees(CommittedDirty(s), CommittedSpill(s), s.file, p) == ChildSees(s, p)
    ensures CommittedDirty(s).Keys !! CommittedSpill(s)
  {
    hide Visible;
  }

  /** The parent takes over the child's room, which is right for its merged list. */
  lemma CommitKeepsRoom(s: State)
    requires Inv(s)
    ensures s.room + |CommittedDirty(s)| == DIRTY_MAX
  {
    assert CommittedDirty(s).Keys == Visible(s);
    assert |CommittedDirty(s).Keys| == |CommittedDirty(s)|;
  }

  /** After an abort the parent sees its pages as before the child began. */
  lemma StepKeepsParent(s: State, t: State, step: Step, p: Pgno)
    requires Inv(s) && Next(s, t, step)
    requires step.Spill? ==> p != step.p || p in s.parentDirty
    ensures ParentSees(t.parentDirty, t.parentSpill, t.file, p) == ParentSees(s.parentDirty, s.parentSpill, s.file, p)
    ensures t.parentDirty == s.parentDirty && t.parentSpill == s.parentSpill
  {
    hide Visible;
  }

  /** Only pages new in the child are spilled to places that the parent reads from the map. */
  ghost predicate NewInChild(run: seq<State>, steps: seq<Step>, p: Pgno) {
    exists k :: 0 <= k < |steps| && IsAlloc(steps[k], p)
  }

  predicate IsAlloc(step: Step, p: Pgno) {
    step.Alloc? && step.p == p
  }

  /** Where a page on the child's lists came from. */
  lemma {:induction false} Origin(run: seq<State>, steps: seq<Step>, k: nat, p: Pgno)
    requires IsRun(run, steps) && k < |run| && (p in run[k].dirty || p in run[k].spill)
    ensures p in run[k].parentDirty || p in run[k].parentSpill || NewInChild(run, steps, p)
  {
    assert k > 0;
    assert StepAt(run, steps, k - 1);
    if p in run[k - 1].dirty || p in run[k - 1].spill {
      Origin(run, steps, k - 1, p);
    } else {
      assert steps[k - 1].Alloc? ==> IsAlloc(steps[k - 1], steps[k - 1].p);
    }
  }

  lemma SpilledWasDirty(s: State, t: State, step: Step)
    requires Next(s, t, step) && step.Spill?
    ensures step.p in s.dirty && step.p !in s.parentSpill
  {
  }

  /**
   Aborting the child undoes it: every page that was not newly allocated in the child reads, in
   the parent, as it did when the child began. Pages spilled by the parent are safe because the
   child never spills them again.
   */
  lemma {:induction false} AbortUndoes(run: seq<State>, steps: seq<Step>, k: nat, p: Pgno)
    requires IsRun(run, steps) && k < |run| && !NewInChild(run, steps, p)
    ensures run[k].parentDirty == run[0].parentDirty && run[k].parentSpill == run[0].parentSpill
    ensures ParentSees(run[k].parentDirty, run[k].parentSpill, run[k].file, p) ==
            ParentSees(run[0].parentDirty, run[0].parentSpill, run[0].file, p)
  {
    hide Inv, Init, ParentSees, Next;
    if k > 0 {
      AbortUndoes(run, steps, k - 1, p);
      assert StepAt(run, steps, k - 1);
      RoomIsExact(run, steps, k - 1);
      if steps[k - 1].Spill? && p == steps[k - 1].p {
        SpilledWasDirty(run[k - 1], run[k], steps[k - 1]);
        Origin(run, steps, k - 1, p);
      }
      StepKeepsParent(run[k - 1], run[k], steps[k - 1], p);
    }
  }

  // ---------------------------------------------------------------- what the child can do

  /** A page of the child's or the parent's lists, made writable. */
  function Touched(s: State, p: Pgno): State
    requires ListsOk(s) && (p in s.dirty || p in s.spill || p in s.parentDirty || p in s.parentSpill)
    requires s.room > 0 || p in s.dirty || (p in s.parentDirty && p !in s.spill)
  {
    if p in s.dirty then s
    else if p in s.spill then s.(dirty := s.dirty[p := s.file[p]], spill := s.spill - {p}, room := s.room - 1)
    else if p in s.parentDirty then s.(dirty := s.dirty[p := s.parentDirty[p]])
    else s.(dirty := s.dirty[p := s.file[p]], room := s.room - 1)
  }

  /** One step is enough for that, and every page reads as before. */
  lemma PagesCanBeTouched(s: State, p: Pgno, q: Pgno)
    requires ListsOk(s) && (p in s.dirty || p in s.spill || p in s.parentDirty || p in s.parentSpill)
    requires s.room > 0 || p in s.dirty || (p in s.parentDirty && p !in s.spill)
    ensures var t := Touched(s, p);
            && p in t.dirty && (t == s || Next(s, t, Unspill(p)) || Next(s, t, CopyDown(p)))
            && ChildSees(t, q) == ChildSees(s, q)
  {
  }

  /** A dirty page that the parent has not spilled can be spilled to make room. */
  lemma PagesCanBeSpilled(s: State, p: Pgno, q: Pgno)
    requires ListsOk(s) && p in s.dirty && p !in s.parentSpill
    ensures var t := s.(file := s.file[p := s.dirty[p]], dirty := s.dirty - {p}, spill := s.spill + {p}, room := s.room + 1);
            && Next(s, t, Spill(p)) && ChildSees(t, q) == ChildSees(s, q)
  {
  }

  /** While there is room, any page that neither of them has on its lists can be allocated. */
  lemma PagesCanBeAllocated(s: State, p: Pgno, c: Content)
    requires ListsOk(s) && s.room > 0
    requires p !in s.parentDirty && p !in s.parentSpill && p !in s.dirty && p !in s.spill
    ensures var t := s.(dirty := s.dirty[p := c], room := s.room - 1);
            Next(s, t, Alloc(p, c)) && ChildSees(t, p) == Some(c)
  {
  }

  /** A dirty page takes any new contents, which only the child sees. */
  lemma PagesCanBeRewritten(s: State, p: Pgno, c: Content, q: Pgno)
    requires ListsOk(s) && p in s.dirty
    ensures var t := s.(dirty := s.dirty[p := c]);
            && Next(s, t, Write(p, c)) && ChildSees(t, q) == (if q == p then Some(c) else ChildSees(s, q))
            && ParentSees(t.parentDirty, t.parentSpill, t.file, q) == ParentSees(s.parentDirty, s.parentSpill, s.file, q)
  {
  }
}
