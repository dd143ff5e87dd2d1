// What an endless run of a machine with finitely many places and two counters comes back to.

/** Infinite sequences of numbers. */
module Dickson {
  ghost predicate Beyond(p: nat -> bool, n: nat) { exists m: nat :: n <= m && p(m) }

  /** p holds of infinitely many numbers. */
  ghost predicate Often(p: nat -> bool) { forall n: nat :: Beyond(p, n) }

  /** One of finitely many values is taken infinitely often. */
  lemma {:induction false} ValueTaken(p: nat -> bool, g: nat -> nat, bound: nat, from: nat) returns (v: nat)
    requires Often(p) && forall i: nat :: from <= i && p(i) ==> g(i) < bound
    ensures v < bound && Often((i: nat) => p(i) && g(i) == v)
  {
    assert Beyond(p, from);
    var some: nat :| from <= some && p(some);
    v := bound - 1;
    var taken := (i: nat) => p(i) && g(i) == bound - 1;
    if !Often(taken) {
      var n: nat :| !Beyond(taken, n);
      var later := from + n;
      forall i: nat | later <= i && p(i) ensures g(i) < bound - 1 { assert !taken(i); }
      v := ValueTaken(p, g, bound - 1, later);
    }
  }

  lemma {:induction false} LeastTaken(p: nat -> bool, g: nat -> nat, i: nat) returns (k: nat)
    requires p(i)
    ensures p(k) && forall j: nat :: p(j) ==> g(k) <= g(j)
    decreases g(i)
  {
    k := i;
    if j: nat :| p(j) && g(j) < g(i) { k := LeastTaken(p, g, j); }
  }

  /** Dickson's lemma for two counters: at some place the machine has been before, neither is smaller. */
  lemma {:induction false} ComesBack(place: nat -> nat, n: nat, c: nat -> nat, d: nat -> nat) returns (i: nat, j: nat)
    requires forall k: nat :: place(k) < n
    ensures i < j && place(i) == place(j) && c(i) <= c(j) && d(i) <= d(j)
  {
    var all := (k: nat) => true;
    forall m: nat ensures Beyond(all, m) { assert all(m); }
    var v := ValueTaken(all, place, n, 0);
    var here := (k: nat) => all(k) && place(k) == v;
    i := AnyTaken(here, 0);
    i := LeastTaken(here, d, i);
    if higher: nat :| i < higher && here(higher) && c(i) <= c(higher) {
      j := higher;
    } else {
      var w := ValueTaken(here, c, c(i), i + 1);
      var again := (k: nat) => here(k) && c(k) == w;
      i := AnyTaken(again, 0);
      i := LeastTaken(again, d, i);
      j := AnyTaken(again, i + 1);
    }
  }

  lemma {:induction false} AnyTaken(p: nat -> bool, n: nat) returns (m: nat)
    requires Often(p)
    ensures n <= m && p(m)
  {
    assert Beyond(p, n);
    m :| n <= m && p(m);
  }
}
