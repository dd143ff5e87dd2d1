// fuzz/linux_pilot_harness_pthread_mutex.c: why the slot counter is atomic.

/** The same counter read and written in two steps. */
module PoolSplit {
  datatype Call = Start | Loaded(v: int) | Taken(slot: int)

  datatype State = State(next: int, calls: seq<Call>)

  function Next(s: State, c: nat): State
    requires c < |s.calls|
  {
    match s.calls[c]
    case Start => s.(calls := s.calls[c := Loaded(s.next)])
    case Loaded(v) => State(v + 1, s.calls[c := Taken(v)])
    case Taken(_) => s
  }

  function After(s: State, run: seq<nat>): (r: State)
    requires forall k :: 0 <= k < |run| ==> run[k] < |s.calls|
    ensures |r.calls| == |s.calls|
    decreases |run|
  {
    if run == [] then s else After(Next(s, run[0]), run[1..])
  }

  /** Any two calls can be given the same slot. */
  lemma {:induction false} SlotShared(s: State, c: nat, d: nat)
    requires c < |s.calls| && d < |s.calls| && c != d && s.calls[c] == s.calls[d] == Start
    ensures var t := After(s, [c, d, c, d]); t.calls[c] == t.calls[d] == Taken(s.next)
  {
    var s1 := Next(s, c);
    var s2 := Next(s1, d);
    var s3 := Next(s2, c);
    var s4 := Next(s3, d);
    assert [c, d, c, d][1..] == [d, c, d] && [d, c, d][1..] == [c, d] && [c, d][1..] == [d] && [d][1..] == [];
    assert After(s3, [d]) == After(s4, []) == s4;
    assert After(s2, [c, d]) == After(s3, [d]);
    assert After(s1, [d, c, d]) == After(s2, [c, d]);
  }
}
