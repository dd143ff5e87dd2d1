// fuzz/fuzz_sed.c: the filter itself, over script text.

/** The filter on script text. */
module SedFilter {
  import opened SedSegments
  import opened SedClassify
  import opened SedFlow

  const SCRIPT_CAP := 480
  const MAXSEG := SCRIPT_CAP + 1

  function KindsOf(s: string, segs: seq<Seg>): (ks: seq<Kind>)
    requires forall k :: 0 <= k < |segs| ==> segs[k].off + segs[k].len <= |s|
    ensures |ks| == |segs| && forall k :: 0 <= k < |segs| ==> ks[k] == Classify(Text(s, segs[k]))
  {
    if segs == [] then [] else [Classify(Text(s, segs[0]))] + KindsOf(s, segs[1..])
  }

  ghost function Kinds(s: string): seq<Kind> {
    Within(s);
    KindsOf(s, Segments(s))
  }

  lemma {:induction false} Within(s: string)
    ensures forall k :: 0 <= k < |Segments(s)| ==> Segments(s)[k].off + Segments(s)[k].len <= |s|
  {
    SegmentsTile(s);
    forall k | 0 <= k < |Segments(s)| ensures Segments(s)[k].off + Segments(s)[k].len <= |s| {
      TilesWithin(s, 0, Segments(s), k);
    }
  }

  /** The part of the script that fits the segment table. */
  ghost function Tabled(s: string): seq<Kind> {
    if |Kinds(s)| <= MAXSEG then Kinds(s) else Kinds(s)[..MAXSEG]
  }

  /** For every script the harness runs, that is all of it. */
  lemma AllTabled(s: string)
    requires |s| <= SCRIPT_CAP
    ensures Tabled(s) == Kinds(s)
  {
  }

  datatype Entry = Entry(name: string, idx: nat)

  /** The label table lists the labels before `i`. */
  ghost predicate Listed(ks: seq<Kind>, i: nat, labels: seq<Entry>)
    requires i <= |ks|
  {
    (forall e :: e in labels ==> e.idx < i && ks[e.idx] == Label(e.name))
    && forall j :: 0 <= j < i && ks[j].Label? ==> Entry(ks[j].name, j) in labels
  }

  /** The segment table holds the segments that `ks` classifies. */
  ghost predicate Table(s: string, segs: array<Seg>, ks: seq<Kind>)
    reads segs
  {
    |ks| <= segs.Length
    && forall k :: 0 <= k < |ks| ==> segs[k].off + segs[k].len <= |s| && ks[k] == Classify(Text(s, segs[k]))
  }

  method ConsumesBetween(s: string, segs: array<Seg>, lo: nat, hi: nat, ghost ks: seq<Kind>) returns (consumes: bool)
    requires lo <= hi < |ks| && Table(s, segs, ks)
    ensures consumes == Consumer(ks, lo, hi)
  {
    hide Classify;
    var between := lo;
    while between <= hi
      invariant lo <= between <= hi + 1
      invariant forall k :: lo <= k < between ==> !ks[k].Consume?
    {
      var kind := ClassifySegment(Text(s, segs[between]));
      if kind.Consume? { return true; }
      between := between + 1;
    }
    return false;
  }

  lemma {:induction false} EdgeListed(ks: seq<Kind>, i: nat, labels: seq<Entry>, name: string, j: nat)
    requires i < |ks| && ks[i] == Branch(name) && Listed(ks, i, labels) && BackEdge(ks, i, j)
    ensures Entry(name, j) in labels
  {
    assert j != i && ks[j] == Label(name);
  }

  /** The branch at `i`, against every label recorded so far. */
  method BranchLoops(s: string, segs: array<Seg>, labels: seq<Entry>, i: nat, name: string, ghost ks: seq<Kind>)
    returns (loops: bool)
    requires i < |ks| && ks[i] == Branch(name) && Listed(ks, i, labels) && Table(s, segs, ks)
    ensures loops == exists j :: BackEdge(ks, i, j)
  {
    hide Classify, Consumer;
    loops := false;
    if name == "" { return; }
    for k := 0 to |labels|
      invariant forall e :: e in labels[..k] && e.name == name ==> !BackEdge(ks, i, e.idx)
    {
      var e := labels[k];
      assert e in labels;
      if e.name == name && e.idx <= i {
        var consumes := ConsumesBetween(s, segs, e.idx, i, ks);
        if !consumes {
          assert BackEdge(ks, i, e.idx);
          return true;
        }
      }
    }
    assert labels[..|labels|] == labels;
    forall j ensures !BackEdge(ks, i, j) {
      if BackEdge(ks, i, j) { EdgeListed(ks, i, labels, name, j); }
    }
  }

  method SegmentTable(s: string) returns (segs: array<Seg>, nseg: nat)
    ensures nseg == |Tabled(s)| && Table(s, segs, Tabled(s))
  {
    hide Classify;
    segs := new Seg[MAXSEG](_ => Seg(0, 0));
    nseg := SplitSegments(s, segs);
    Within(s);
    assert forall k :: 0 <= k < nseg ==> segs[k] == segs[..nseg][k] == Segments(s)[k];
  }

  /** The filter: exactly the test for a back edge, on the segments its table holds. */
  method MayLoopForever(s: string) returns (loops: bool)
    ensures loops == LoopsBack(Tabled(s))
  {
    hide Classify, Consumer, KindsOf, Tabled;
    var segs, nseg := SegmentTable(s);
    ghost var ks := Tabled(s);
    var labels: seq<Entry> := [];
    for i := 0 to nseg
      invariant |ks| == nseg && Table(s, segs, ks) && Listed(ks, i, labels)
      invariant forall a, b :: 0 <= a < i ==> !BackEdge(ks, a, b)
    {
      var k := ClassifySegment(Text(s, segs[i]));
      if k.Label? {
        labels := labels + [Entry(k.name, i)];
      } else if k.Branch? {
        var bad := BranchLoops(s, segs, labels, i, k.name, ks);
        if bad { return true; }
      }
    }
    return false;
  }
}
