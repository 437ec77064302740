/** ID lists: arrays of page numbers in descending order, with their length in slot 0. */
module IdList {
  /** MDB_ID, a 64-bit unsigned number. */
  type ID = n: nat | n < 0x1_0000_0000_0000_0000

  const MAX_ID: ID := 0xFFFF_FFFF_FFFF_FFFF

  predicate Descending(s: seq<ID>) {
    forall i, j :: 0 <= i < j < |s| ==> s[i] >= s[j]
  }

  predicate StrictlyDescending(s: seq<ID>) {
    forall i, j :: 0 <= i < j < |s| ==> s[i] > s[j]
  }

  /** The array holds a list: slot 0 counts the ids that follow it. */
  predicate IsList(ids: array<ID>)
    reads ids
  {
    0 < ids.Length <= MAX_ID && ids[0] < ids.Length
  }

  function Len(ids: array<ID>): nat
    requires 0 < ids.Length
    reads ids
  {
    ids[0]
  }

  function Ids(ids: array<ID>): seq<ID>
    requires IsList(ids)
    reads ids
  {
    ids[1..Len(ids) + 1]
  }
}
