// fuzz/fuzz_sed.c: what the filter rejects, as loops over its own segments.

/** The back edges of the filter and the ways round that consume nothing. */
module SedCycles {
  import opened SedClassify
  import opened SedFlow

  /** From a segment to the next one, or by a branch to a label of its name at or before it. */
  predicate Goes(ks: seq<Kind>, i: nat, j: nat) {
    && i < |ks| && j < |ks| && !ks[i].Consume?
    && (j == i + 1 || (j <= i && ks[i].Branch? && ks[i].name != "" && ks[j] == Label(ks[i].name)))
  }

  predicate Route(ks: seq<Kind>, path: seq<nat>) {
    forall k :: 0 <= k < |path| - 1 ==> Goes(ks, path[k], path[k + 1])
  }

  /** A way round that executes no consuming segment. */
  predicate Cycle(ks: seq<Kind>, path: seq<nat>) {
    1 < |path| && path[0] == path[|path| - 1] && Route(ks, path)
  }

  lemma {:induction false} EdgeHasCycle(ks: seq<Kind>, i: nat, j: nat) returns (path: seq<nat>)
    requires BackEdge(ks, i, j)
    ensures Cycle(ks, path)
  {
    path := seq(i - j + 1, (k: nat) => j + k) + [j];
    forall k | 0 <= k < |path| - 1 ensures Goes(ks, path[k], path[k + 1]) {
      if ks[path[k]].Consume? { assert Consumer(ks, j, i); }
    }
  }

  /** Steps go up by one at most, so a route from below v to above passes through v. */
  lemma {:induction false} PassesThrough(ks: seq<Kind>, path: seq<nat>, a: nat, b: nat, v: nat) returns (k: nat)
    requires Route(ks, path) && a <= b < |path| && path[a] <= v <= path[b]
    ensures a <= k <= b && path[k] == v
    decreases b - a
  {
    if path[a] == v {
      k := a;
    } else {
      assert Goes(ks, path[a], path[a + 1]);
      k := PassesThrough(ks, path, a + 1, b, v);
    }
  }

  /** Once round and round again. */
  lemma {:induction false} Twice(ks: seq<Kind>, path: seq<nat>)
    requires Cycle(ks, path)
    ensures Route(ks, path + path[1..])
  {
    hide Goes;
    var m, twice := |path| - 1, path + path[1..];
    forall k | 0 <= k < |twice| - 1 ensures Goes(ks, twice[k], twice[k + 1]) {
      if k < m {
        assert Goes(ks, path[k], path[k + 1]);
      } else {
        assert Goes(ks, path[k - m], path[k - m + 1]);
        assert twice[k] == path[k - m] && twice[k + 1] == path[k - m + 1];
      }
    }
  }

  lemma {:induction false} Highest(path: seq<nat>) returns (k: nat)
    requires path != []
    ensures k < |path| && forall j :: 0 <= j < |path| ==> path[j] <= path[k]
  {
    k := 0;
    for j := 1 to |path|
      invariant k < |path| && forall h :: 0 <= h < j ==> path[h] <= path[k]
    {
      if path[j] > path[k] { k := j; }
    }
  }

  /** From its highest segment a way round goes back, and comes up again through all between. */
  lemma {:induction false} CycleHasEdge(ks: seq<Kind>, path: seq<nat>) returns (i: nat, j: nat)
    requires Cycle(ks, path)
    ensures BackEdge(ks, i, j)
  {
    var m := |path| - 1;
    var top := Highest(path[..m]);
    i, j := path[top], path[top + 1];
    assert path[..m][top] == i;
    assert forall k :: 0 <= k < m ==> path[k] == path[..m][k] <= i;
    assert Goes(ks, path[top], path[top + 1]);
    assert j <= i by { if top + 1 < m { assert path[top + 1] <= i; } else { assert path[m] == path[0]; } }
    Twice(ks, path);
    var twice := path + path[1..];
    assert twice[top + 1] == j && twice[top + m] == i;
    forall v: nat | j <= v <= i ensures !ks[v].Consume? {
      var k := PassesThrough(ks, twice, top + 1, top + m, v);
      if k < top + m { assert Goes(ks, twice[k], twice[k + 1]); }
    }
  }

  /** The filter rejects a script exactly when its segments, falling through and branching back to labels, have a way
      round on which nothing consumes. */
  lemma {:induction false} RejectedExactly(ks: seq<Kind>)
    ensures LoopsBack(ks) <==> exists path :: Cycle(ks, path)
  {
    if LoopsBack(ks) {
      var i, j :| BackEdge(ks, i, j);
      var path := EdgeHasCycle(ks, i, j);
    }
    if path :| Cycle(ks, path) {
      var i, j := CycleHasEdge(ks, path);
    }
  }
}
