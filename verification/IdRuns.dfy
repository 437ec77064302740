/**
 Runs of consecutive page numbers in me_pghead: how mdb_page_alloc finds and removes one, and
 how mdb_ovpage_free puts one back.
 */
module IdRuns {
  import opened IdList

  /** All of start, start + 1, ..., start + num - 1 are listed. */
  ghost predicate HasRun(s: seq<ID>, start: nat, num: nat) {
    forall k :: start <= k < start + num ==> k in s
  }

  /** Ids fall by at least one from each slot to the next. */
  lemma {:induction false} Gap(s: seq<ID>, i: nat, j: nat)
    requires StrictlyDescending(s) && i <= j < |s|
    ensures s[i] >= s[j] + (j - i)
  {
    if i < j {
      Gap(s, i, j - 1);
    }
  }

  /** The test of mdb_page_alloc on slots i-n2 and i recognises a run. */
  lemma TestMeansRun(s: seq<ID>, i: nat, n2: nat)
    requires StrictlyDescending(s) && n2 <= i < |s| && s[i - n2] == s[i] + n2
    ensures HasRun(s, s[i], n2 + 1)
  {
    forall x | s[i] <= x < s[i] + (n2 + 1)
      ensures x in s
    {
      var p := i - (x - s[i]);
      Gap(s, p, i);
      Gap(s, i - n2, p);
      assert s[p] == x;
    }
  }

  /** Conversely, every run is seen by the test at the slot of its first page. */
  lemma {:induction false} RunMeansTest(s: seq<ID>, i: nat, n2: nat)
    requires StrictlyDescending(s) && i < |s| && HasRun(s, s[i], n2 + 1)
    ensures n2 <= i && s[i - n2] == s[i] + n2
  {
    if n2 > 0 {
      RunMeansTest(s, i, n2 - 1);
      var p := i - (n2 - 1);
      assert s[i] + n2 in s;
      var j :| 0 <= j < |s| && s[j] == s[i] + n2;
      assert j < p;
      Gap(s, j, p);
    }
  }

  /** s' is the list s without the run. */
  ghost predicate RunRemoved(s: seq<ID>, s': seq<ID>, start: nat, num: nat) {
    && StrictlyDescending(s')
    && forall x :: x in s' <==> x in s && !(start <= x < start + num)
  }

  /** Ids lo..hi-1 are cut out. */
  ghost predicate CutOut(s: seq<ID>, s': seq<ID>, lo: nat, hi: nat) {
    && lo <= hi <= |s| && |s'| == |s| - (hi - lo)
    && (forall k :: 0 <= k < lo ==> s'[k] == s[k])
    && (forall k :: lo <= k < |s'| ==> s'[k] == s[k + (hi - lo)])
  }

  lemma CutOutRemovesRun(s: seq<ID>, s': seq<ID>, i: nat, num: nat)
    requires StrictlyDescending(s) && 1 <= num <= i + 1 <= |s| && s[i + 1 - num] == s[i] + (num - 1)
    requires CutOut(s, s', i + 1 - num, i + 1)
    ensures RunRemoved(s, s', s[i], num)
  {
    var lo := i + 1 - num;
    forall x | x in s'
      ensures x in s && !(s[i] <= x < s[i] + num)
    {
      var k :| 0 <= k < |s'| && s'[k] == x;
      var j := if k < lo then k else k + num;
      assert s[j] == x;
      assert j < lo ==> s[j] > s[lo];
    }
    forall x | x in s && !(s[i] <= x < s[i] + num)
      ensures x in s'
    {
      var j :| 0 <= j < |s| && s[j] == x;
      assert j < lo || j == lo || s[lo] > s[j];
      var k := if j < lo then j else j - num;
      assert s'[k] == x;
    }
    forall p, q | 0 <= p < q < |s'|
      ensures s'[p] > s'[q]
    {
      var p', q' := if p < lo then p else p + num, if q < lo then q else q + num;
      assert s'[p] == s[p'] && s'[q] == s[q'];
    }
  }

  /**
   The search of mdb_page_alloc for `num` consecutive pages: the slot of the first page of the
   lowest run, or 0 when there is no run. It scans from the tail, the small end.
   */
  method FindRun(mop: array<ID>, num: nat) returns (i: nat)
    requires IsList(mop) && StrictlyDescending(Ids(mop)) && num >= 1
    ensures i == 0 || num <= i <= Len(mop)
    ensures i == 0 ==> forall q :: !HasRun(Ids(mop), q, num)
    ensures i > 0 ==> HasRun(Ids(mop), mop[i], num) && mop[i + 1 - num] == mop[i] + (num - 1)
    ensures i > 0 ==> forall q :: HasRun(Ids(mop), q, num) ==> mop[i] <= q
  {
    ghost var s := Ids(mop);
    var n2, len: nat := num - 1, mop[0];
    i := 0;
    if len > n2 {
      i := len;
      while i > n2
        invariant n2 <= i <= len == |s|
        invariant forall k :: i <= k < len ==> s[k - n2] != s[k] + n2
      {
        assert mop[i] == s[i - 1] && mop[i - n2] == s[i - 1 - n2];
        if mop[i - n2] == mop[i] + n2 {
          TestMeansRun(s, i - 1, n2);
          NoLowerRun(s, i - 1, num);
          return;
        }
        i := i - 1;
      }
      i := 0;
    }
    NoRun(s, num);
  }

  lemma NoLowerRun(s: seq<ID>, i: nat, num: nat)
    requires StrictlyDescending(s) && i < |s| && num >= 1
    requires forall k :: i < k < |s| && k >= num - 1 ==> s[k - (num - 1)] != s[k] + (num - 1)
    ensures forall q :: HasRun(s, q, num) ==> s[i] <= q
  {
    forall q | HasRun(s, q, num)
      ensures s[i] <= q
    {
      assert q in s;
      var j :| 0 <= j < |s| && s[j] == q;
      RunMeansTest(s, j, num - 1);
    }
  }

  lemma NoRun(s: seq<ID>, num: nat)
    requires StrictlyDescending(s) && num >= 1
    requires forall k :: num - 1 <= k < |s| ==> s[k - (num - 1)] != s[k] + (num - 1)
    ensures forall q :: !HasRun(s, q, num)
  {
    forall q
      ensures !HasRun(s, q, num)
    {
      if HasRun(s, q, num) {
        assert q in s;
        var j :| 0 <= j < |s| && s[j] == q;
        RunMeansTest(s, j, num - 1);
      }
    }
  }

  /** Moves slots from+num+1..len+num down by num. */
  method MoveStragglers(mop: array<ID>, from: nat, num: nat, len: nat)
    requires from <= len && len + num < mop.Length
    modifies mop
    ensures forall k :: 0 <= k <= from ==> mop[k] == old(mop[k])
    ensures forall k :: from < k <= len ==> mop[k] == old(mop[k + num])
  {
    var j, i := from, from + num;
    while j < len
      invariant i == j + num && from <= j <= len
      invariant forall k :: 0 <= k <= from || j < k < mop.Length ==> mop[k] == old(mop[k])
      invariant forall k :: from < k <= j ==> mop[k] == old(mop[k + num])
    {
      j, i := j + 1, i + 1;
      mop[j] := mop[i];
    }
  }

  /** Takes the run that FindRun found out of the list. */
  method RemoveRun(mop: array<ID>, i: nat, num: nat)
    requires IsList(mop) && StrictlyDescending(Ids(mop))
    requires 1 <= num <= i <= Len(mop) && mop[i + 1 - num] == mop[i] + (num - 1)
    modifies mop
    ensures IsList(mop) && RunRemoved(old(Ids(mop)), Ids(mop), old(mop[i]), num)
    ensures Len(mop) == old(Len(mop)) - num
  {
    ghost var s := Ids(mop);
    var len: nat := mop[0];
    len := len - num;
    mop[0] := len;
    MoveStragglers(mop, i - num, num, len);
    CutOutRemovesRun(s, Ids(mop), i - 1, num);
  }

  // ---------------------------------------------------------------- giving a run back

  ghost predicate RunAdded(s: seq<ID>, s': seq<ID>, start: nat, num: nat) {
    && StrictlyDescending(s')
    && forall x :: x in s' <==> x in s || start <= x < start + num
  }

  /** s' is s with start+num-1, ..., start put in before slot i. */
  ghost predicate PutIn(s: seq<ID>, s': seq<ID>, i: nat, start: nat, num: nat) {
    && i <= |s| && |s'| == |s| + num
    && (forall k :: 0 <= k < i ==> s'[k] == s[k])
    && (forall k :: i <= k < i + num ==> s'[k] == start + (num - 1 - (k - i)))
    && (forall k :: i + num <= k < |s'| ==> s'[k] == s[k - num])
  }

  lemma PutInAddsRun(s: seq<ID>, s': seq<ID>, i: nat, start: nat, num: nat)
    requires StrictlyDescending(s) && PutIn(s, s', i, start, num)
    requires forall x :: x in s ==> !(start <= x < start + num)
    requires (forall k :: 0 <= k < i ==> s[k] >= start) && (forall k :: i <= k < |s| ==> s[k] < start)
    ensures RunAdded(s, s', start, num)
  {
    forall k | 0 <= k < i
      ensures s[k] >= start + num
    {
      assert s[k] in s;
    }
    forall x | x in s'
      ensures x in s || start <= x < start + num
    {
      var k :| 0 <= k < |s'| && s'[k] == x;
      assert k < i ==> s[k] == x;
      assert i + num <= k ==> s[k - num] == x;
    }
    forall x | x in s || start <= x < start + num
      ensures x in s'
    {
      if start <= x < start + num {
        assert s'[i + (start + num - 1 - x)] == x;
      } else {
        var k :| 0 <= k < |s| && s[k] == x;
        assert s'[if k < i then k else k + num] == x;
      }
    }
  }

  /** Moves the ids below pg up by num slots; i is the last slot that stays. */
  method MoveSmallerUp(mop: array<ID>, pg: ID, num: nat, len: nat) returns (i: nat)
    requires len + num < mop.Length
    modifies mop
    ensures i <= len && (i > 0 ==> old(mop[i]) >= pg)
    ensures forall k :: 0 <= k <= i ==> mop[k] == old(mop[k])
    ensures forall k :: i < k <= len ==> mop[k + num] == old(mop[k]) && old(mop[k]) < pg
  {
    i := len;
    var j := len + num;
    while i > 0 && mop[i] < pg
      invariant i <= len && j == i + num
      invariant forall k :: 0 <= k <= i ==> mop[k] == old(mop[k])
      invariant forall k :: i < k <= len ==> mop[k + num] == old(mop[k]) && old(mop[k]) < pg
    {
      mop[j] := mop[i];
      j := j - 1;
      i := i - 1;
    }
  }

  /** Writes pg+num-1, ..., pg into slots i+1..i+num. */
  method WriteRun(mop: array<ID>, pg: ID, num: nat, i: nat)
    requires i + num < mop.Length && pg + num <= MAX_ID
    modifies mop
    ensures forall k :: 0 <= k < mop.Length && (k <= i || i + num < k) ==> mop[k] == old(mop[k])
    ensures forall k :: i < k <= i + num ==> mop[k] == pg + (i + num - k)
  {
    var j, next: nat := i + num, pg;
    while j > i
      invariant i <= j <= i + num && next == pg + (i + num - j)
      invariant forall k :: 0 <= k < mop.Length && (k <= i || i + num < k) ==> mop[k] == old(mop[k])
      invariant forall k :: j < k <= i + num ==> mop[k] == pg + (i + num - k)
    {
      mop[j] := next;
      j := j - 1;
      next := next + 1;
    }
  }

  /** The end of mdb_ovpage_free: inserts pages pg..pg+num-1 into me_pghead. */
  method InsertRun(mop: array<ID>, pg: ID, num: nat)
    requires IsList(mop) && StrictlyDescending(Ids(mop))
    requires Len(mop) + num < mop.Length && pg + num <= MAX_ID
    requires forall x :: x in Ids(mop) ==> !(pg <= x < pg + num)
    modifies mop
    ensures IsList(mop) && Len(mop) == old(Len(mop)) + num
    ensures RunAdded(old(Ids(mop)), Ids(mop), pg, num)
  {
    ghost var s, was := Ids(mop), mop[..];
    var len: nat := mop[0];
    var i := MoveSmallerUp(mop, pg, num, len);
    ghost var moved := mop[..];
    WriteRun(mop, pg, num, i);
    mop[0] := len + num;
    PutInFromSlots(was, moved, mop[..], i, len, pg, num);
    assert Ids(mop) == mop[..][1..len + num + 1] && s == was[1..len + 1];
    BelowPage(was, s, i, pg);
    PutInAddsRun(s, Ids(mop), i, pg, num);
  }

  lemma BelowPage(was: seq<ID>, s: seq<ID>, i: nat, pg: ID)
    requires i <= |s| < |was| && s == was[1..|s| + 1] && StrictlyDescending(s)
    requires (i > 0 ==> was[i] >= pg) && forall k :: i < k <= |s| ==> was[k] < pg
    ensures forall k :: 0 <= k < i ==> s[k] >= pg
    ensures forall k :: i <= k < |s| ==> s[k] < pg
  {
    forall k | 0 <= k < i
      ensures s[k] >= pg
    {
      assert s[k] >= s[i - 1] == was[i];
    }
  }

  lemma PutInFromSlots(was: seq<ID>, moved: seq<ID>, now: seq<ID>, i: nat, len: nat, pg: ID, num: nat)
    requires i <= len && len + num < |was| == |moved| == |now|
    requires forall k :: 0 <= k <= i ==> moved[k] == was[k]
    requires forall k :: i < k <= len ==> moved[k + num] == was[k]
    requires forall k :: 0 < k < |now| && (k <= i || i + num < k) ==> now[k] == moved[k]
    requires forall k :: i < k <= i + num ==> k != 0 && now[k] == pg + (i + num - k)
    ensures PutIn(was[1..len + 1], now[1..len + num + 1], i, pg, num)
  {
    forall k | i + num < k <= len + num
      ensures now[k] == was[k - num]
    {
      assert moved[(k - num) + num] == was[k - num];
    }
  }

  // ---------------------------------------------------------------- round trip

  /** A strictly descending list is determined by its ids. */
  lemma {:induction false} SameIdsSameList(s: seq<ID>, t: seq<ID>)
    requires StrictlyDescending(s) && StrictlyDescending(t)
    requires forall x :: x in s <==> x in t
    ensures s == t
  {
    if s != [] {
      assert s[0] in t;
    }
    if t != [] {
      assert t[0] in s;
    }
    if s != [] {
      assert s[0] in t && t[0] in s;
      assert s[0] == t[0];
      forall x
        ensures x in s[1..] <==> x in t[1..]
      {
        assert x in s[1..] <==> x in s && x != s[0];
        assert x in t[1..] <==> x in t && x != t[0];
      }
      SameIdsSameList(s[1..], t[1..]);
    }
  }

  /** Putting a run back after taking it out restores the list. */
  lemma TakeThenInsert(s: seq<ID>, t: seq<ID>, u: seq<ID>, start: ID, num: nat)
    requires StrictlyDescending(s) && HasRun(s, start, num)
    requires RunRemoved(s, t, start, num) && RunAdded(t, u, start, num)
    ensures u == s
  {
    SameIdsSameList(u, s);
  }
}
