// fuzz/fuzz_sed.c: cutting a script into segments.

/** Cutting a script into segments. */
module SedSegments {
  datatype Seg = Seg(off: nat, len: nat)

  /** Segments of `s` from `start` on, having read up to `i` with `odd` telling whether an odd
      number of backslashes immediately precedes it. */
  function Cut(s: string, i: nat, start: nat, odd: bool): (r: seq<Seg>)
    requires start <= i <= |s|
    ensures 1 <= |r| <= |s| - start + 1
    decreases |s| - i
  {
    if i == |s| then [Seg(start, i - start)]
    else if s[i] == '\\' then Cut(s, i + 1, start, !odd)
    else if (s[i] == ';' || s[i] == '\n') && !odd then [Seg(start, i - start)] + Cut(s, i + 1, i + 1, false)
    else Cut(s, i + 1, start, false)
  }

  function Segments(s: string): (r: seq<Seg>)
    ensures 1 <= |r| <= |s| + 1
  {
    Cut(s, 0, 0, false)
  }

  function Text(s: string, seg: Seg): string
    requires seg.off + seg.len <= |s|
  {
    s[seg.off..seg.off + seg.len]
  }

  /** The number of backslashes that immediately precede `i`, back to `lo`. */
  function Backslashes(s: string, lo: nat, i: nat): nat
    requires lo <= i <= |s|
    decreases i
  {
    if lo < i && s[i - 1] == '\\' then 1 + Backslashes(s, lo, i - 1) else 0
  }

  /** A separator that no odd run of backslashes protects. */
  predicate Separates(s: string, lo: nat, i: nat)
    requires lo <= i < |s|
  {
    (s[i] == ';' || s[i] == '\n') && Backslashes(s, lo, i) % 2 == 0
  }

  /** `segs` covers `s` from `start` on: each segment ends at the first separator after it
      begins, the next one begins behind that separator, and the last one reaches the end. */
  ghost predicate Tiles(s: string, start: nat, segs: seq<Seg>)
    requires start <= |s|
    decreases |segs|
  {
    segs != [] && segs[0].off == start && start + segs[0].len <= |s|
    && (forall k :: start <= k < start + segs[0].len ==> !Separates(s, start, k))
    && if |segs| == 1 then start + segs[0].len == |s|
       else start + segs[0].len < |s| && Separates(s, start, start + segs[0].len)
            && Tiles(s, start + segs[0].len + 1, segs[1..])
  }

  lemma {:induction false} CutTiles(s: string, i: nat, start: nat, odd: bool)
    requires start <= i <= |s| && odd == (Backslashes(s, start, i) % 2 == 1)
    requires forall k :: start <= k < i ==> !Separates(s, start, k)
    ensures Tiles(s, start, Cut(s, i, start, odd))
    decreases |s| - i
  {
    if i == |s| {
    } else if s[i] == '\\' {
      CutTiles(s, i + 1, start, !odd);
    } else if (s[i] == ';' || s[i] == '\n') && !odd {
      CutTiles(s, i + 1, i + 1, false);
      var segs := Cut(s, i, start, odd);
      assert segs[1..] == Cut(s, i + 1, i + 1, false);
    } else {
      CutTiles(s, i + 1, start, false);
    }
  }

  /** The segments tile the whole script, cut exactly at its unprotected separators. */
  lemma SegmentsTile(s: string)
    ensures Tiles(s, 0, Segments(s))
  {
    CutTiles(s, 0, 0, false);
  }

  lemma {:induction false} TilesWithin(s: string, start: nat, segs: seq<Seg>, k: nat)
    requires start <= |s| && Tiles(s, start, segs) && k < |segs|
    ensures segs[k].off + segs[k].len <= |s|
    decreases |segs|
  {
    if 0 < k { TilesWithin(s, start + segs[0].len + 1, segs[1..], k - 1); }
  }

  /** The loop, into a table of fixed size: what does not fit is dropped. */
  method SplitSegments(s: string, out: array<Seg>) returns (cnt: nat)
    modifies out
    ensures cnt == (if |Segments(s)| <= out.Length then |Segments(s)| else out.Length)
    ensures out[..cnt] == Segments(s)[..cnt]
  {
    ghost var all := Segments(s);
    ghost var done: seq<Seg> := [];
    var start, i, bs := 0, 0, 0;
    cnt := 0;
    while i < |s|
      invariant start <= i <= |s| && all == done + Cut(s, i, start, bs % 2 == 1)
      invariant cnt == (if |done| <= out.Length then |done| else out.Length) && out[..cnt] == done[..cnt]
      decreases |s| - i
    {
      if s[i] == '\\' {
        bs, i := bs + 1, i + 1;
        continue;
      }
      if (s[i] == ';' || s[i] == '\n') && bs % 2 == 0 {
        ghost var seg := Seg(start, i - start);
        assert done + ([seg] + Cut(s, i + 1, i + 1, false)) == done + [seg] + Cut(s, i + 1, i + 1, false);
        if cnt < out.Length {
          out[cnt] := Seg(start, i - start);
          cnt := cnt + 1;
        }
        done := done + [seg];
        start := i + 1;
      }
      bs, i := 0, i + 1;
    }
    if cnt < out.Length {
      out[cnt] := Seg(start, |s| - start);
      cnt := cnt + 1;
    }
    assert all == done + [Seg(start, |s| - start)];
  }
}
