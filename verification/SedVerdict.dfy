// fuzz/fuzz_sed.c beside src/util/sed.c: when the filter's verdict on a script is right.

/** The commands sed reads in a script, found again among the filter's segments. */
module SedVerdict {
  import opened Options
  import opened SedSegments
  import opened SedClassify
  import opened SedParser
  import opened SedReading
  import opened SedMachine
  import opened SedFlow
  import opened SedFilter

  /** Where a segment's text begins, behind its blanks. */
  function Lead(s: string, seg: Seg): (i: nat)
    requires seg.off + seg.len <= |s|
    ensures seg.off <= i <= seg.off + seg.len
  {
    seg.off + (|Text(s, seg)| - |SkipWs(Text(s, seg))|)
  }

  /** The command is the segment's to both: it begins there, and the filter takes the segment for what it is. */
  ghost predicate Fit(s: string, item: Item, g: nat) {
    g < |Segments(s)| && (Within(s); item.from == s[Lead(s, Segments(s)[g])..]) && Agree(Kinds(s)[g], item.cmd.verb)
  }

  ghost function Place(s: string, item: Item): (g: int)
    ensures 0 <= g ==> Fit(s, item, g)
    ensures g < 0 ==> forall h: nat :: !Fit(s, item, h)
  {
    if h: nat :| Fit(s, item, h) then h else -1
  }

  /** The segment each command is seen in. */
  ghost function Places(s: string, items: seq<Item>): (at: seq<int>)
    ensures |at| == |items| && forall k :: 0 <= k < |at| ==> at[k] == Place(s, items[k])
  {
    seq(|items|, k requires 0 <= k < |items| => Place(s, items[k]))
  }

  // ---- both come in the order of the text

  lemma {:induction false} ItemsInOrder(t: string)
    requires Items(t).Some?
    ensures forall k :: 0 <= k < |Items(t).value| ==> |Items(t).value[k].from| <= |t|
    ensures forall j, k :: 0 <= j < k < |Items(t).value| ==> |Items(t).value[k].from| < |Items(t).value[j].from|
    decreases |t|
  {
    hide One;
    var u := SkipSeps(t);
    if u == "" {
    } else if u[0] == '#' {
      ItemsInOrder(SkipLine(u[1..]));
    } else {
      var c := One(u).value;
      ItemsInOrder(c.rest);
      var more := Items(c.rest).value;
      assert Items(t).value == [Item(c.cmd, u)] + more;
    }
  }

  lemma {:induction false} SegmentsInOrder(s: string, start: nat, segs: seq<Seg>, g: nat, h: nat)
    requires start <= |s| && Tiles(s, start, segs) && g < h < |segs|
    ensures segs[g].off + segs[g].len < segs[h].off
    decreases |segs|
  {
    if g > 0 {
      SegmentsInOrder(s, start + segs[0].len + 1, segs[1..], g - 1, h - 1);
    } else {
      SegmentsFollow(s, start + segs[0].len + 1, segs[1..], h - 1);
    }
  }

  lemma {:induction false} SegmentsFollow(s: string, start: nat, segs: seq<Seg>, h: nat)
    requires start <= |s| && Tiles(s, start, segs) && h < |segs|
    ensures start <= segs[h].off
    decreases |segs|
  {
    if h > 0 { SegmentsFollow(s, start + segs[0].len + 1, segs[1..], h - 1); }
  }

  lemma {:induction false} FitsInOrder(s: string, x: Item, y: Item, g: nat, h: nat)
    requires Fit(s, x, g) && Fit(s, y, h) && |y.from| <= |x.from|
    ensures g <= h && (|y.from| < |x.from| ==> g < h)
  {
    hide Segments, Kinds, Agree, Lead, Tiles;
    Within(s);
    SegmentsTile(s);
    if h < g { SegmentsInOrder(s, 0, Segments(s), h, g); }
  }

  /** What sed reads in a script; nothing if it rejects it. */
  ghost function SedReads(s: string): seq<Item> { if Items(s).Some? then Items(s).value else [] }

  ghost function Program(s: string): seq<Cmd> { Cmds(SedReads(s)) }

  lemma {:induction false} PlacesMatch(s: string)
    ensures Match(Kinds(s), Program(s), Places(s, SedReads(s)))
  {
    var items := SedReads(s);
    var at := Places(s, items);
    if Items(s).Some? { ItemsInOrder(s); }
    hide Items;
    forall j, k | 0 <= j < k < |at| && 0 <= at[j] && 0 <= at[k] ensures at[j] < at[k] {
      FitsInOrder(s, items[j], items[k], at[j], at[k]);
    }
  }

  /** On every script the harness runs, the filter is right exactly when it rejects one sed takes in which a back
      edge or a gap closes a way round, or accepts one in which no gap does. */
  lemma {:induction false} FilterRight(s: string)
    requires |s| <= SCRIPT_CAP
    ensures var ks, cs, at := Tabled(s), Program(s), Places(s, SedReads(s));
            && Match(ks, cs, at)
            && ((LoopsBack(ks) <==> Endless(cs)) <==>
                if LoopsBack(ks) then
                  Resolved(cs) && exists round :: GapCloses(ks, cs, at, round) || EdgeCloses(ks, cs, at, round)
                else !(Resolved(cs) && exists round :: GapCloses(ks, cs, at, round)))
  {
    AllTabled(s);
    PlacesMatch(s);
    FilterExactly(Kinds(s), Program(s), Places(s, SedReads(s)));
  }

  // ---- scripts of one command a segment

  ghost function Texts(s: string): seq<string> {
    Within(s);
    TextsOf(s, Segments(s))
  }

  function TextsOf(s: string, segs: seq<Seg>): (r: seq<string>)
    requires forall k :: 0 <= k < |segs| ==> segs[k].off + segs[k].len <= |s|
    ensures |r| == |segs| && forall k :: 0 <= k < |segs| ==> r[k] == Text(s, segs[k])
  {
    if segs == [] then [] else [Text(s, segs[0])] + TextsOf(s, segs[1..])
  }

  /** Every segment is one command, or empty. */
  ghost predicate Whole(s: string) { Singles(Texts(s)) }

  lemma {:induction false} TilesJoined(s: string, start: nat, segs: seq<Seg>)
    requires start <= |s| && Tiles(s, start, segs) && forall k :: 0 <= k < |segs| ==> segs[k].off + segs[k].len <= |s|
    ensures Joined(s[start..], TextsOf(s, segs))
    decreases |segs|
  {
    var t, u := s[start..], Text(s, segs[0]);
    assert u == t[..segs[0].len];
    var texts := TextsOf(s, segs);
    hide Separates;
    if |segs| == 1 {
      assert t == u;
    } else {
      var next := start + segs[0].len + 1;
      SeparatorFollows(s, start, next - 1);
      TilesJoined(s, next, segs[1..]);
      assert texts[1..] == TextsOf(s, segs[1..]);
      assert t[|u| + 1..] == s[next..];
    }
  }

  lemma {:induction false} SeparatorFollows(s: string, start: nat, i: nat)
    requires start <= i < |s| && Separates(s, start, i)
    ensures Follow(s[start..][i - start..])
  {
    assert s[start..][i - start..][0] == s[i];
  }

  /** sed's own parser finds just those commands. */
  lemma {:induction false} SedReadsWhole(s: string)
    requires Whole(s)
    ensures Joined(s, Texts(s)) && Items(s) == Some(Alone(s, Texts(s)))
  {
    Within(s);
    SegmentsTile(s);
    TilesJoined(s, 0, Segments(s));
    assert s[0..] == s;
    ItemsAlone(s, Texts(s));
  }

  /** An item that is a segment's one command. */
  ghost predicate Of(s: string, item: Item, seg: Seg) {
    && seg.off + seg.len <= |s| && Single(Text(s, seg)) && !Empty(Text(s, seg))
    && item.cmd == CmdOf(Text(s, seg)) && item.from == s[Lead(s, seg)..]
  }

  lemma {:induction false} LeadText(s: string, seg: Seg)
    requires seg.off + seg.len <= |s|
    ensures s[Lead(s, seg)..] == SkipWs(Text(s, seg)) + s[seg.off + seg.len..]
  {
    var t := Text(s, seg);
    WsIsSuffix(t);
    assert s[seg.off..] == t + s[seg.off + seg.len..];
  }

  lemma {:induction false} WsIsSuffix(t: string)
    ensures SkipWs(t) == t[|t| - |SkipWs(t)|..]
  {
    if t != "" && Blank(t[0]) { WsIsSuffix(t[1..]); }
  }

  ghost predicate HasSegment(s: string, item: Item, segs: seq<Seg>) {
    exists g :: 0 <= g < |segs| && Of(s, item, segs[g])
  }

  ghost predicate HasItem(s: string, seg: Seg, items: seq<Item>) {
    exists k :: 0 <= k < |items| && Of(s, items[k], seg)
  }

  /** The commands of these segments and the segments that are commands. */
  ghost predicate Paired(s: string, items: seq<Item>, segs: seq<Seg>) {
    && (forall k :: 0 <= k < |items| ==> HasSegment(s, items[k], segs))
    && (forall g :: 0 <= g < |segs| && segs[g].off + segs[g].len <= |s| && !Empty(Text(s, segs[g])) ==>
          HasItem(s, segs[g], items))
  }

  /** The first text's command, before those of the rest. */
  lemma {:induction false} AloneStep(t: string, texts: seq<string>, from: string, more: seq<Item>)
    requires Joined(t, texts) && Singles(texts) && from == SkipWs(texts[0]) + t[|texts[0]|..]
    requires more == if |texts| == 1 then [] else Alone(t[|texts[0]| + 1..], texts[1..])
    ensures Alone(t, texts) == (if Empty(texts[0]) then [] else [Item(CmdOf(texts[0]), from)]) + more
  {
    hide Single, CmdOf, SkipWs;
  }

  /** What follows the first segment. */
  lemma {:induction false} AfterFirst(s: string, start: nat, segs: seq<Seg>)
    requires start <= |s| && Tiles(s, start, segs) && forall k :: 0 <= k < |segs| ==> segs[k].off + segs[k].len <= |s|
    ensures var t, texts := s[start..], TextsOf(s, segs);
            && texts[1..] == TextsOf(s, segs[1..]) && |texts[0]| <= |t|
            && s[Lead(s, segs[0])..] == SkipWs(texts[0]) + t[|texts[0]|..]
            && (|segs| > 1 ==> |texts[0]| < |t| && t[|texts[0]| + 1..] == s[start + segs[0].len + 1..])
  {
    LeadText(s, segs[0]);
    hide Lead, SkipWs, Separates;
    assert s[start..][segs[0].len..] == s[start + segs[0].len..];
  }

  lemma {:induction false} AlonePaired(s: string, start: nat, segs: seq<Seg>)
    requires start <= |s| && Tiles(s, start, segs) && forall k :: 0 <= k < |segs| ==> segs[k].off + segs[k].len <= |s|
    requires Joined(s[start..], TextsOf(s, segs)) && Singles(TextsOf(s, segs))
    ensures Paired(s, Alone(s[start..], TextsOf(s, segs)), segs)
    decreases |segs|
  {
    hide Single, CmdOf, SkipWs, Lead, Separates, Alone, Paired, Joined, Empty;
    var t := Text(s, segs[0]);
    AfterFirst(s, start, segs);
    var more: seq<Item> := [];
    if |segs| > 1 {
      var next := start + segs[0].len + 1;
      TilesJoined(s, next, segs[1..]);
      AlonePaired(s, next, segs[1..]);
      more := Alone(s[next..], TextsOf(s, segs[1..]));
    } else {
      NonePaired(s, segs[1..]);
    }
    var from := s[Lead(s, segs[0])..];
    AloneStep(s[start..], TextsOf(s, segs), from, more);
    var x := if Empty(t) then Item(Cmd(Always, Plain), "") else Item(CmdOf(t), from);
    PairedStep(s, x, more, segs);
  }

  lemma {:induction false} NonePaired(s: string, segs: seq<Seg>)
    requires segs == []
    ensures Paired(s, [], segs)
  {
  }

  lemma {:induction false} PairedStep(s: string, x: Item, more: seq<Item>, segs: seq<Seg>)
    requires segs != [] && segs[0].off + segs[0].len <= |s| && Paired(s, more, segs[1..])
    requires Empty(Text(s, segs[0])) || Of(s, x, segs[0])
    ensures Paired(s, (if Empty(Text(s, segs[0])) then [] else [x]) + more, segs)
  {
    hide Of, Empty;
    var none := Empty(Text(s, segs[0]));
    var d := if none then 0 else 1;
    var items := (if none then [] else [x]) + more;
    forall k | 0 <= k < |items| ensures HasSegment(s, items[k], segs) {
      if k < d {
        assert Of(s, items[k], segs[0]);
      } else {
        assert HasSegment(s, more[k - d], segs[1..]);
        var g :| 0 <= g < |segs[1..]| && Of(s, more[k - d], segs[1..][g]);
        assert Of(s, items[k], segs[g + 1]);
      }
    }
    forall g | 0 <= g < |segs| && segs[g].off + segs[g].len <= |s| && !Empty(Text(s, segs[g]))
      ensures HasItem(s, segs[g], items)
    {
      if g == 0 {
        assert Of(s, items[0], segs[0]);
      } else {
        assert segs[1..][g - 1] == segs[g] && HasItem(s, segs[1..][g - 1], more);
        var k :| 0 <= k < |more| && Of(s, more[k], segs[g]);
        assert Of(s, items[k + d], segs[g]);
      }
    }
  }

  lemma {:induction false} OfFits(s: string, item: Item, g: nat)
    requires g < |Segments(s)| && Of(s, item, Segments(s)[g])
    ensures Fit(s, item, g)
  {
    Within(s);
    ClassifyAgrees(Text(s, Segments(s)[g]));
  }

  /** Only empty segments between two commands. */
  ghost predicate Clear(ks: seq<Kind>, i: int, j: int) { forall h :: i < h < j && 0 <= h < |ks| ==> !ks[h].Consume? }

  lemma {:induction false} WholePaired(s: string)
    requires Whole(s)
    ensures Items(s).Some? && Paired(s, Items(s).value, Segments(s))
  {
    SedReadsWhole(s);
    Within(s);
    SegmentsTile(s);
    assert s[0..] == s;
    AlonePaired(s, 0, Segments(s));
  }

  /** In a script of one command a segment the filter sees every command, and nothing it takes for a consuming one
      lies between a command and the next: it misses nothing but what is not selected, branched over, restarted or
      renamed. */
  lemma {:induction false} WholeStraight(s: string)
    requires Whole(s)
    ensures Items(s).Some?
    ensures forall k :: 0 <= k < |SedReads(s)| ==> 0 <= Places(s, SedReads(s))[k]
    ensures forall k :: 0 <= k < |SedReads(s)| - 1 ==>
              Clear(Kinds(s), Places(s, SedReads(s))[k], Places(s, SedReads(s))[k + 1])
  {
    hide Of, Fit, Kinds, Segments, Whole, Items;
    WholePaired(s);
    var items := SedReads(s);
    var at := Places(s, items);
    forall k | 0 <= k < |items| ensures 0 <= at[k] {
      assert HasSegment(s, items[k], Segments(s));
      var g :| 0 <= g < |Segments(s)| && Of(s, items[k], Segments(s)[g]);
      OfFits(s, items[k], g);
    }
    forall k | 0 <= k < |items| - 1 ensures Clear(Kinds(s), at[k], at[k + 1]) {
      forall h | at[k] < h < at[k + 1] && 0 <= h < |Kinds(s)| ensures !Kinds(s)[h].Consume? {
        NothingBetween(s, k, h);
      }
    }
  }

  lemma {:induction false} ConsumerHasItem(s: string, h: nat) returns (m: nat)
    requires Items(s).Some? && Paired(s, Items(s).value, Segments(s)) && h < |Kinds(s)| && Kinds(s)[h].Consume?
    ensures m < |Items(s).value| && Fit(s, Items(s).value[m], h)
  {
    Within(s);
    hide Segments, Items, Classify, Of, Fit, Empty, Text;
    var seg := Segments(s)[h];
    if Empty(Text(s, seg)) { EmptyIsOther(Text(s, seg)); }
    assert HasItem(s, seg, Items(s).value);
    m :| 0 <= m < |Items(s).value| && Of(s, Items(s).value[m], seg);
    OfFits(s, Items(s).value[m], h);
  }

  lemma {:induction false} NothingBetween(s: string, k: nat, h: nat)
    requires Items(s).Some? && Paired(s, Items(s).value, Segments(s)) && k + 1 < |Items(s).value| && h < |Kinds(s)|
    requires 0 <= Place(s, Items(s).value[k]) < h < Place(s, Items(s).value[k + 1])
    ensures !Kinds(s)[h].Consume?
  {
    hide Of, Fit, Kinds, Segments, Items, Paired;
    var items := Items(s).value;
    if Kinds(s)[h].Consume? {
      var m := ConsumerHasItem(s, h);
      ItemsInOrder(s);
      if m <= k {
        FitsInOrder(s, items[m], items[k], h, Place(s, items[k]));
      } else {
        FitsInOrder(s, items[k + 1], items[m], Place(s, items[k + 1]), h);
      }
    }
  }
}
