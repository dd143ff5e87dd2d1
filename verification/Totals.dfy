// fuzz/linux_pilot_test_thread.c: sums over threads, for both arms of the thread pilot.

module Totals {
  function Sum(s: seq<nat>): nat { if s == [] then 0 else s[0] + Sum(s[1..]) }

  lemma {:induction false} SumUpdate(s: seq<nat>, t: nat, v: nat)
    requires t < |s|
    ensures Sum(s[t := v]) + s[t] == Sum(s) + v
  {
    if t == 0 {
      assert s[t := v][1..] == s[1..];
    } else {
      SumUpdate(s[1..], t - 1, v);
      assert s[t := v][1..] == s[1..][t - 1 := v];
    }
  }

  lemma {:induction false} SumConstant(s: seq<nat>, v: nat)
    requires forall t :: 0 <= t < |s| ==> s[t] == v
    ensures Sum(s) == |s| * v
  {
    if s != [] {
      SumConstant(s[1..], v);
      assert |s| * v == (|s| - 1) * v + v;
    }
  }

  lemma {:induction false} SumAdd(a: seq<nat>, b: seq<nat>, c: seq<nat>)
    requires |a| == |b| == |c| && forall t :: 0 <= t < |a| ==> c[t] == a[t] + b[t]
    ensures Sum(c) == Sum(a) + Sum(b)
  {
    if a != [] { SumAdd(a[1..], b[1..], c[1..]); }
  }

  lemma {:induction false} SumAtLeast(s: seq<nat>, t: nat)
    requires t < |s|
    ensures s[t] <= Sum(s)
  {
    if 0 < t { SumAtLeast(s[1..], t - 1); }
  }

  /** Amounts within `caps` that add up to `p`. */
  function Fill(caps: seq<nat>, p: nat): (r: seq<nat>)
    requires p <= Sum(caps)
    ensures |r| == |caps|
  {
    if caps == [] then [] else
    var x := if p <= caps[0] then p else caps[0];
    [x] + Fill(caps[1..], p - x)
  }

  lemma {:induction false} FillFits(caps: seq<nat>, p: nat)
    requires p <= Sum(caps)
    ensures Sum(Fill(caps, p)) == p && forall t :: 0 <= t < |caps| ==> Fill(caps, p)[t] <= caps[t]
  {
    if caps != [] {
      var x := if p <= caps[0] then p else caps[0];
      FillFits(caps[1..], p - x);
      assert Fill(caps, p)[1..] == Fill(caps[1..], p - x);
      forall t | 0 <= t < |caps| ensures Fill(caps, p)[t] <= caps[t] {
        if 0 < t { assert Fill(caps, p)[t] == Fill(caps[1..], p - x)[t - 1] <= caps[1..][t - 1]; }
      }
    }
  }
}
