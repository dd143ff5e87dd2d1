// What several modules share: optional values, digits and counting facts.

module Options {
  datatype Option<+T> = None | Some(value: T)
}

module Ascii {
  predicate Digit(c: char) { '0' <= c <= '9' }
}

module Counting {
  function Upto(n: nat): set<int> { if n == 0 then {} else Upto(n - 1) + {n - 1} }

  lemma {:induction false} UptoIs(n: nat)
    ensures |Upto(n)| == n && forall x :: x in Upto(n) <==> 0 <= x < n
  {
    if n > 0 { UptoIs(n - 1); }
  }

  function Elements(l: seq<int>): set<int> { set x | x in l }

  lemma {:induction false} DistinctSize(l: seq<int>)
    requires forall j, k :: 0 <= j < k < |l| ==> l[j] != l[k]
    ensures |Elements(l)| == |l|
  {
    if l != [] {
      var init, x := l[..|l| - 1], l[|l| - 1];
      DistinctSize(init);
      assert l == init + [x];
      assert Elements(l) == Elements(init) + {x};
    }
  }

  /** Distinct numbers below m are at most m. */
  lemma {:induction false} Pigeonhole(l: seq<int>, m: nat)
    requires (forall k :: 0 <= k < |l| ==> 0 <= l[k] < m) && forall j, k :: 0 <= j < k < |l| ==> l[j] != l[k]
    ensures |l| <= m
  {
    UptoIs(m);
    DistinctSize(l);
    assert Elements(l) <= Upto(m);
    assert Upto(m) == Elements(l) + (Upto(m) - Elements(l));
  }
}
