/**
 Where mdb_page_split divides a page. `c` holds the sizes of the page's nodes with the new
 node's size at `newindx`.
 */
module SplitPoint {
  import opened Sizes

  /** From the left: the first node that does not fit any more, or the last one allowed. */
  function Forward(c: seq<nat>, i: nat, psize: nat, k: nat, pmax: nat): (r: nat)
    requires i < k <= |c|
    ensures i <= r < k
    decreases k - i
  {
    if psize + c[i] > pmax || i == k - 1 then i else Forward(c, i + 1, psize + c[i], k, pmax)
  }

  /** From the right: one past the first node that does not fit any more, or past `stop`. */
  function Backward(c: seq<nat>, i: nat, psize: nat, stop: nat, pmax: nat): (r: nat)
    requires stop <= i < |c|
    ensures stop < r <= i + 1
    decreases i
  {
    if psize + c[i] > pmax || i == stop then i + 1 else Backward(c, i - 1, psize + c[i], stop, pmax)
  }

  /** Whether the code looks for a split point at all, rather than take the middle. */
  predicate Searched(c: seq<nat>, newindx: nat, pmax: nat)
    requires newindx < |c|
  {
    |c| - 1 < 32 || c[newindx] > pmax / 16 || newindx >= |c| - 1
  }

  function SplitIndex(c: seq<nat>, newindx: nat, leaf: bool, pmax: nat): nat
    requires newindx < |c| && |c| >= 3
  {
    var n := |c| - 1;
    var middle := (n + 1) / 2;
    if !Searched(c, newindx, pmax) then middle
    else if newindx >= n then Forward(c, 0, 0, n, pmax)
    else if newindx <= middle then Forward(c, 0, 0, middle + 1 + (if leaf then 1 else 0), pmax)
    else Backward(c, n, 0, middle, pmax)
  }

  /** The search as the loop of mdb_page_split runs it. */
  method FindSplit(c: seq<nat>, newindx: nat, leaf: bool, pmax: nat) returns (split: nat)
    requires newindx < |c| && |c| >= 3
    ensures split == SplitIndex(c, newindx, leaf, pmax)
    ensures Overfull(c, newindx, pmax) && (|c| <= 32 || c[newindx] > pmax / 16 || newindx == |c| - 1) ==>
              PartsFit(c, split, leaf, pmax)
  {
    if Overfull(c, newindx, pmax) && Searched(c, newindx, pmax) {
      SearchedSplitFits(c, newindx, leaf, pmax);
    }
    hide Overfull, PartsFit;
    var n := |c| - 1;
    split := (n + 1) / 2;
    if n < 32 || c[newindx] > pmax / 16 || newindx >= n {
      var middle := split;
      var psize: nat := 0;
      var i, j, k := 0, 1, 0;
      if newindx <= split || newindx >= n {
        k := if newindx >= n then n else split + 1 + (if leaf then 1 else 0);
      } else {
        i, j, k := n, -1, split - 1;
      }
      while i != k
        invariant newindx <= middle || newindx >= n ==>
          j == 1 && 0 <= i < k <= |c| && SplitIndex(c, newindx, leaf, pmax) == Forward(c, i, psize, k, pmax)
        invariant middle < newindx < n ==>
          j == -1 && k == middle - 1 && middle <= i < |c| && SplitIndex(c, newindx, leaf, pmax) == Backward(c, i, psize, middle, pmax)
        decreases if j == 1 then k - i else i - k
      {
        psize := psize + c[i];
        if psize > pmax || i == k - j {
          split := i + (if j < 0 then 1 else 0);
          break;
        }
        i := i + j;
      }
    }
  }

  // ---------------------------------------------------------------- what the search finds

  lemma {:induction false} ForwardFinds(c: seq<nat>, i: nat, psize: nat, k: nat, pmax: nat)
    requires i < k <= |c| && psize == Sum(c[..i]) <= pmax
    ensures var r := Forward(c, i, psize, k, pmax);
            Sum(c[..r]) <= pmax && (r == k - 1 || Sum(c[..r + 1]) > pmax)
    decreases k - i
  {
    assert c[..i + 1] == c[..i] + [c[i]];
    SumConcat(c[..i], [c[i]]);
    if !(psize + c[i] > pmax || i == k - 1) {
      ForwardFinds(c, i + 1, psize + c[i], k, pmax);
    }
  }

  lemma {:induction false} BackwardFinds(c: seq<nat>, i: nat, psize: nat, stop: nat, pmax: nat)
    requires stop <= i < |c| && psize == Sum(c[i + 1..]) <= pmax
    ensures var r := Backward(c, i, psize, stop, pmax);
            Sum(c[r..]) <= pmax && (r == stop + 1 || Sum(c[r - 1..]) > pmax)
    decreases i
  {
    assert c[i..] == [c[i]] + c[i + 1..];
    if !(psize + c[i] > pmax || i == stop) {
      BackwardFinds(c, i - 1, psize + c[i], stop, pmax);
    }
  }

  /** A page with a new node that does not fit beside its old ones; no node over half a page. */
  ghost predicate Overfull(c: seq<nat>, newindx: nat, pmax: nat) {
    && newindx < |c|
    && Sum(c) > pmax
    && Sum(c) - c[newindx] <= pmax
    && (forall i :: 0 <= i < |c| ==> FIRST_SLOT <= c[i] && 2 * c[i] <= pmax)
  }

  lemma OverfullHasThree(c: seq<nat>, newindx: nat, pmax: nat)
    requires Overfull(c, newindx, pmax)
    ensures |c| >= 3
  {
    SumAtMost(c, pmax / 2);
  }

  lemma Without(c: seq<nat>, i: nat)
    requires i < |c|
    ensures Sum(c) == Sum(c[..i]) + c[i] + Sum(c[i + 1..])
  {
    SumSplit(c, i);
    assert c[i..][1..] == c[i + 1..];
  }

  /** What is left of a page whose other part contains the new node. */
  lemma PartWithoutNew(c: seq<nat>, newindx: nat, pmax: nat, i: nat)
    requires Overfull(c, newindx, pmax) && i <= |c|
    ensures newindx < i ==> Sum(c[i..]) <= pmax
    ensures i <= newindx ==> Sum(c[..i]) <= pmax
    ensures i <= newindx ==> Sum(c[i..]) - c[newindx] <= pmax - FIRST_SLOT * i
  {
    SumSplit(c, i);
    if newindx < i {
      Without(c[..i], newindx);
    } else {
      Without(c[i..], newindx - i);
      SumAtLeast(c[..i], FIRST_SLOT);
    }
  }

  lemma ForwardPartsFit(c: seq<nat>, newindx: nat, leaf: bool, pmax: nat, k: nat, j: nat)
    requires Overfull(c, newindx, pmax) && 2 <= k <= |c| && j < k
    requires Sum(c[..j]) <= pmax && (j == k - 1 || Sum(c[..j + 1]) > pmax)
    requires k == |c| - 1 || (leaf && newindx < k - 1) || (!leaf && newindx <= k - 1)
    ensures 0 < j && (if leaf then Sum(c[j..]) else Sum(c[j..]) - c[j] + FIRST_SLOT) <= pmax
  {
    SumSplit(c, j);
    Without(c, j);
    assert c[..j + 1][..j] == c[..j];
    Without(c[..j + 1], j);
    if j < k - 1 {
    } else if k == |c| - 1 {
      Without(c[j..], 1);
      assert c[j..][..1] == [c[j]] && c[j..][2..] == [];
      assert Sum(c[j..]) == c[j] + c[j + 1];
    } else {
      PartWithoutNew(c, newindx, pmax, j);
    }
  }

  lemma BackwardPartsFit(c: seq<nat>, newindx: nat, pmax: nat, middle: nat, j: nat)
    requires Overfull(c, newindx, pmax) && middle < newindx < |c| - 1 && middle < j <= |c|
    requires Sum(c[j..]) <= pmax && (j == middle + 1 || Sum(c[j - 1..]) > pmax)
    ensures j < |c| && Sum(c[..j]) <= pmax
  {
    SumSplit(c, j);
    Without(c, j - 1);
    SumSplit(c, j - 1);
    if j == middle + 1 {
      PartWithoutNew(c, newindx, pmax, j);
    }
  }

  ghost predicate PartsFit(c: seq<nat>, j: nat, leaf: bool, pmax: nat) {
    && 0 < j < |c|
    && Sum(c[..j]) <= pmax
    && (if leaf then Sum(c[j..]) else Sum(c[j..]) - c[j] + FIRST_SLOT) <= pmax
  }

  lemma ForwardFits(c: seq<nat>, newindx: nat, leaf: bool, pmax: nat, k: nat)
    requires Overfull(c, newindx, pmax) && 2 <= k <= |c|
    requires k == |c| - 1 || (leaf && newindx < k - 1) || (!leaf && newindx <= k - 1)
    ensures PartsFit(c, Forward(c, 0, 0, k, pmax), leaf, pmax)
  {
    ForwardFinds(c, 0, 0, k, pmax);
    ForwardPartsFit(c, newindx, leaf, pmax, k, Forward(c, 0, 0, k, pmax));
  }

  lemma BackwardFits(c: seq<nat>, newindx: nat, leaf: bool, pmax: nat, middle: nat)
    requires Overfull(c, newindx, pmax) && middle < newindx < |c| - 1
    ensures PartsFit(c, Backward(c, |c| - 1, 0, middle, pmax), leaf, pmax)
  {
    assert c[|c|..] == [];
    BackwardFinds(c, |c| - 1, 0, middle, pmax);
    BackwardPartsFit(c, newindx, pmax, middle, Backward(c, |c| - 1, 0, middle, pmax));
  }

  /**
   Whenever the split point is searched, both parts are non-empty and fit on a page. On a
   branch this needs the right part's first node to lose its key.
   */
  lemma SearchedSplitFits(c: seq<nat>, newindx: nat, leaf: bool, pmax: nat)
    requires Overfull(c, newindx, pmax) && Searched(c, newindx, pmax)
    ensures |c| >= 3 && PartsFit(c, SplitIndex(c, newindx, leaf, pmax), leaf, pmax)
  {
    OverfullHasThree(c, newindx, pmax);
    var n := |c| - 1;
    var middle := (n + 1) / 2;
    if newindx >= n {
      ForwardFits(c, newindx, leaf, pmax, n);
    } else if newindx <= middle {
      ForwardFits(c, newindx, leaf, pmax, middle + 1 + (if leaf then 1 else 0));
    } else {
      BackwardFits(c, newindx, leaf, pmax, middle);
    }
  }

  /**
   When it is not searched, the page is divided in the middle without looking at sizes. That
   fits exactly when the part the new node falls into has room for it.
   */
  lemma MiddleSplitFits(c: seq<nat>, newindx: nat, leaf: bool, pmax: nat)
    requires Overfull(c, newindx, pmax) && !Searched(c, newindx, pmax)
    ensures |c| >= 3
    ensures var j := SplitIndex(c, newindx, leaf, pmax);
            PartsFit(c, j, leaf, pmax) <==>
            (if newindx < j then Sum(c[..j]) <= pmax
             else (if leaf then Sum(c[j..]) else Sum(c[j..]) - c[j] + FIRST_SLOT) <= pmax)
  {
    var j := SplitIndex(c, newindx, leaf, pmax);
    PartWithoutNew(c, newindx, pmax, j);
    SumSplit(c, j);
    Without(c, j);
  }

  lemma PrefixGrows(c: seq<nat>, i: nat, j: nat)
    requires i <= j <= |c|
    ensures Sum(c[..i]) <= Sum(c[..j]) && Sum(c[i..]) >= Sum(c[j..])
  {
    SumSplit(c[..j], i);
    assert c[..j][..i] == c[..i];
    SumSplit(c[i..], j - i);
    assert c[i..][j - i..] == c[j..];
  }

  lemma ForwardIsLast(c: seq<nat>, k: nat, pmax: nat)
    requires 0 < k <= |c|
    ensures var r := Forward(c, 0, 0, k, pmax);
            Sum(c[..r]) <= pmax && forall j :: r < j < k ==> Sum(c[..j]) > pmax
  {
    var r := Forward(c, 0, 0, k, pmax);
    ForwardFinds(c, 0, 0, k, pmax);
    hide Sum, Forward;
    forall j | r < j < k
      ensures Sum(c[..j]) > pmax
    {
      PrefixGrows(c, r + 1, j);
    }
  }

  lemma BackwardIsFirst(c: seq<nat>, middle: nat, pmax: nat)
    requires middle < |c|
    ensures var r := Backward(c, |c| - 1, 0, middle, pmax);
            r <= |c| && Sum(c[r..]) <= pmax && forall j :: middle < j < r ==> Sum(c[j..]) > pmax
  {
    var r := Backward(c, |c| - 1, 0, middle, pmax);
    assert c[|c|..] == [];
    BackwardFinds(c, |c| - 1, 0, middle, pmax);
    hide Sum, Backward;
    forall j | middle < j < r
      ensures Sum(c[j..]) > pmax
    {
      PrefixGrows(c, j, r - 1);
    }
  }

  /**
   Where the page is divided. Unless it has 32 nodes, the new one is small and not the last: for a
   new last node, at the last point that leaves the left part within the page; for a node in the
   left half, the same up to just behind the middle; for one in the right half, at the first point
   behind the middle that leaves the right part within the page.
   */
  lemma SplitPointIs(c: seq<nat>, newindx: nat, leaf: bool, pmax: nat)
    requires newindx < |c| && |c| >= 3
    ensures var r, middle := SplitIndex(c, newindx, leaf, pmax), |c| / 2;
            if newindx == |c| - 1 then
              r <= |c| - 2 && Sum(c[..r]) <= pmax && forall j :: r < j <= |c| - 2 ==> Sum(c[..j]) > pmax
            else if |c| > 32 && c[newindx] <= pmax / 16 then
              r == middle
            else if newindx <= middle then
              var last := if leaf then middle + 1 else middle;
              r <= last && Sum(c[..r]) <= pmax && forall j :: r < j <= last ==> Sum(c[..j]) > pmax
            else
              middle < r <= |c| && Sum(c[r..]) <= pmax && forall j :: middle < j < r ==> Sum(c[j..]) > pmax
  {
    hide Sum, Forward, Backward;
    var middle := |c| / 2;
    if !Searched(c, newindx, pmax) {
    } else if newindx == |c| - 1 || newindx <= middle {
      ForwardIsLast(c, if newindx == |c| - 1 then |c| - 1 else if leaf then middle + 2 else middle + 1, pmax);
    } else {
      BackwardIsFirst(c, middle, pmax);
    }
  }

  // ---------------------------------------------------------------- a page the middle fails on

  function Repeat(x: nat, n: nat): (s: seq<nat>)
    ensures |s| == n && forall i :: 0 <= i < n ==> s[i] == x
  {
    seq(n, _ => x)
  }

  lemma {:induction false} SumRepeat(x: nat, n: nat)
    ensures Sum(Repeat(x, n)) == x * n
  {
    if n > 0 {
      assert Repeat(x, n)[1..] == Repeat(x, n - 1);
      SumRepeat(x, n - 1);
    }
  }

  /**
   A full 4096-byte leaf of 16 nodes of 240 bytes and 17 of 12, and a new node of 254 bytes
   at the front: the middle split leaves too much on the left, so the insertion fails with
   MDB_PAGE_FULL, although other split points would do.
   */
  lemma MiddleSplitMayFail()
    ensures var c := [254] + Repeat(240, 16) + Repeat(12, 17);
            && Overfull(c, 0, 4080)
            && !Searched(c, 0, 4080)
            && !PartsFit(c, SplitIndex(c, 0, true, 4080), true, 4080)
            && PartsFit(c, 10, true, 4080)
  {
    var c := [254] + Repeat(240, 16) + Repeat(12, 17);
    assert c[..17] == [254] + Repeat(240, 16) && c[17..] == Repeat(12, 17);
    assert c[..10] == [254] + Repeat(240, 9) && c[10..17] == Repeat(240, 7);
    LargeAndSmall(240, 16, 12, 17, c[..17], c[17..]);
    LargeAndSmall(240, 9, 240, 7, c[..10], c[10..17]);
    SumSplit(c, 17);
    SumSplit(c, 10);
  }

  lemma LargeAndSmall(x: nat, m: nat, y: nat, n: nat, a: seq<nat>, b: seq<nat>)
    requires a == [254] + Repeat(x, m) && b == Repeat(y, n)
    ensures Sum(a) == 254 + x * m && Sum(b) == y * n
  {
    assert a[1..] == Repeat(x, m);
    SumRepeat(x, m);
    SumRepeat(y, n);
  }
}
