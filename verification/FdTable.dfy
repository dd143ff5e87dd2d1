// fuzz/linux_pilot_harness.c: the descriptor table.

/** The table of handles; 0 marks a free slot. */
module FdTable {
  const FD_MAX: nat := 1024

  /** The first free slot at or after `from`, or the table's length. */
  ghost function FirstFree(t: seq<nat>, from: nat): (i: nat)
    requires from <= |t|
    ensures from <= i <= |t| && (i < |t| ==> t[i] == 0)
    decreases |t| - from
  {
    if from == |t| || t[from] == 0 then from else FirstFree(t, from + 1)
  }

  lemma {:induction false} FirstFreeIs(t: seq<nat>, from: nat, i: nat)
    requires from <= i <= |t| && (i < |t| ==> t[i] == 0) && forall k :: from <= k < i ==> t[k] != 0
    ensures FirstFree(t, from) == i
    decreases i - from
  {
    if from < i { FirstFreeIs(t, from + 1, i); }
  }

  lemma {:induction false} FirstFreeSkips(t: seq<nat>, from: nat, k: nat)
    requires from <= |t| && from <= k < FirstFree(t, from)
    ensures t[k] != 0
    decreases |t| - from
  {
    if from < k { FirstFreeSkips(t, from + 1, k); }
  }
}
