// fuzz/fuzz_sed.c beside src/util/sed.c: scripts on which the filter's verdict is wrong.

/** One script for each kind of mistake. */
module SedScripts {
  import opened Options
  import opened SedSegments
  import opened SedClassify
  import opened SedParser
  import opened SedMachine
  import opened SedFlow
  import opened SedFilter
  import opened SedVerdict

  const LEAP := ":a;bc;n;:c;ba"
  const TRAIL := ":a;ba "
  const INSIDE := ":a;s/;n;/x/;ba"
  const SHARED := ":a ba"
  const RESTART := "G;D"
  const LEAVES := ":a;b;ba"

  /** The script as both read it: its segments' kinds, and its commands, none with an address. */
  ghost predicate Script(s: string, ks: seq<Kind>, vs: seq<Verb>) {
    && |s| <= SCRIPT_CAP && Kinds(s) == ks && Items(s).Some? && |Items(s).value| == |vs|
    && forall k :: 0 <= k < |vs| ==> Items(s).value[k].cmd == Cmd(Always, vs[k])
  }

  ghost predicate Unaddressed(cs: seq<Cmd>, vs: seq<Verb>) {
    |cs| == |vs| && forall k :: 0 <= k < |vs| ==> cs[k] == Cmd(Always, vs[k])
  }

  /** Accepted by the filter, and sed can run it forever without reading a line. */
  ghost predicate Missed(s: string) {
    |s| <= SCRIPT_CAP && !LoopsBack(Tabled(s)) && Endless(Program(s))
  }

  /** Rejected by the filter, and sed always comes to read a line, or to the end. */
  ghost predicate Turned(s: string) {
    |s| <= SCRIPT_CAP && LoopsBack(Tabled(s)) && Items(s).Some? && !Endless(Program(s))
  }

  lemma {:induction false} ScriptMissed(s: string, ks: seq<Kind>, vs: seq<Verb>)
    requires Script(s, ks, vs) && !LoopsBack(ks) && forall cs :: Unaddressed(cs, vs) ==> Endless(cs)
    ensures Missed(s)
  {
    hide Kinds, Items, LoopsBack, Endless;
    AllTabled(s);
    assert Unaddressed(Program(s), vs);
  }

  // ---- segments

  /** A stretch of ordinary characters and the separator behind it make one segment. */
  lemma {:induction false} CutOne(s: string, i: nat, start: nat, j: nat)
    requires start <= i <= j < |s| && s[j] == ';'
    requires forall k :: i <= k < j ==> s[k] != '\\' && s[k] != ';' && s[k] != '\n'
    ensures Cut(s, i, start, false) == [Seg(start, j - start)] + Cut(s, j + 1, j + 1, false)
    decreases j - i
  {
    if i < j { CutOne(s, i + 1, start, j); }
  }

  lemma {:induction false} CutLast(s: string, i: nat, start: nat)
    requires start <= i <= |s| && forall k :: i <= k < |s| ==> s[k] != '\\' && s[k] != ';' && s[k] != '\n'
    ensures Cut(s, i, start, false) == [Seg(start, |s| - start)]
    decreases |s| - i
  {
    if i < |s| { CutLast(s, i + 1, start); }
  }

  /** The texts of the segments. */
  lemma {:induction false} TextsAre(s: string, segs: seq<Seg>, ts: seq<string>)
    requires Segments(s) == segs && |segs| == |ts|
    requires forall k :: 0 <= k < |segs| ==> segs[k].off + segs[k].len <= |s| && Text(s, segs[k]) == ts[k]
    ensures Texts(s) == ts
  {
    hide Segments;
    Within(s);
    assert forall k :: 0 <= k < |ts| ==> Texts(s)[k] == Text(s, segs[k]);
  }

  lemma {:induction false} KindsAre(s: string, ts: seq<string>, ks: seq<Kind>)
    requires Texts(s) == ts && |ts| == |ks| && forall k :: 0 <= k < |ks| ==> Classify(ts[k]) == ks[k]
    ensures Kinds(s) == ks
  {
    hide Classify;
    Within(s);
    forall k | 0 <= k < |ks| ensures Kinds(s)[k] == ks[k] { assert Texts(s)[k] == ts[k]; }
  }

  // ---- texts

  /** What a text is to the filter and to sed. */
  ghost predicate Reading(t: string, k: Kind, v: Verb) {
    !Empty(t) && Single(t) && Classify(t) == k && CmdOf(t) == Cmd(Always, v)
  }

  lemma {:induction false} LabelReads(c: char)
    requires c == 'a' || c == 'c'
    ensures Reading([':', c], Label([c]), Mark([c])) && Reading(['b', c], Branch([c]), Jump([c]))
  {
    var l, b := [':', c], ['b', c];
    assert l[1..] == [c] && b[1..] == [c] && [c][1..] == "";
    assert Name([c]) == [c] && Word([c]) == [c];
    assert SkipWs(l) == l && SkipWs(b) == b && SkipWs([c]) == [c];
    assert Head(l) == Some(Front(0, false, l)) && Head(b) == Some(Front(0, false, b));
    assert One(l) == Some(Parsed(Cmd(Always, Mark([c])), "", false));
    assert One(b) == Some(Parsed(Cmd(Always, Jump([c])), "", false));
  }

  lemma {:induction false} LettersRead()
    ensures Reading(":a", Label("a"), Mark("a")) && Reading("ba", Branch("a"), Jump("a"))
    ensures Reading(":c", Label("c"), Mark("c")) && Reading("bc", Branch("c"), Jump("c"))
  {
    hide Reading;
    LabelReads('a');
    LabelReads('c');
    assert ":a" == [':', 'a'] && "ba" == ['b', 'a'] && ":c" == [':', 'c'] &&
      "bc" == ['b', 'c'] && "a" == ['a'] && "c" == ['c'];
  }

  lemma {:induction false} LetterReads(c: char, v: Verb)
    requires (c == 'n' && v == Next) || (c == 'G' && v == GetAppend) || (c == 'D' && v == DeleteFirst)
    ensures Reading([c], if c == 'G' then Other else Consume, v)
  {
    var t := [c];
    assert SkipWs(t) == t && t[1..] == "" && Head(t) == Some(Front(0, false, t));
    assert One(t) == Some(Parsed(Cmd(Always, v), "", false));
  }

  lemma {:induction false} EndReads()
    ensures Reading("b", Branch(""), Jump(""))
  {
    assert One("b") == Some(Parsed(Cmd(Always, Jump("")), "", false));
  }

  lemma {:induction false} TrailReads()
    ensures Reading("ba ", Branch("a "), Jump("a"))
  {
    var t := "ba ";
    assert t[1..] == "a " && "a "[1..] == " " && " "[1..] == "" && SkipWs(" ") == "";
    assert Name("a ") == "a";
    assert Head(t) == Some(Front(0, false, t));
    assert One(t) == Some(Parsed(Cmd(Always, Jump("a")), "", false));
  }

  lemma {:induction false} ReadingKind(t: string, k: Kind, v: Verb)
    requires Reading(t, k, v)
    ensures Classify(t) == k
  {
  }

  lemma {:induction false} ReadingOne(t: string, k: Kind, v: Verb)
    requires Reading(t, k, v) && t != "" && !Blank(t[0])
    ensures One(t) == Some(Parsed(Cmd(Always, v), "", false))
  {
    hide One, Classify;
    assert SkipWs(t) == t;
  }

  lemma {:induction false} AloneCmds(t: string, texts: seq<string>)
    requires Joined(t, texts) && Singles(texts) && forall k :: 0 <= k < |texts| ==> !Empty(texts[k])
    ensures |Alone(t, texts)| == |texts| && forall k :: 0 <= k < |texts| ==> Alone(t, texts)[k].cmd == CmdOf(texts[k])
    decreases |texts|
  {
    hide Single, CmdOf, SkipWs;
    if |texts| > 1 { AloneCmds(t[|texts[0]| + 1..], texts[1..]); }
  }

  /** The script of these texts, as both read it. */
  lemma {:induction false} ReadsAll(s: string, ts: seq<string>, ks: seq<Kind>, vs: seq<Verb>)
    requires |s| <= SCRIPT_CAP && Texts(s) == ts && |ks| == |vs| == |ts|
    requires forall k :: 0 <= k < |ts| ==> Reading(ts[k], ks[k], vs[k])
    ensures Script(s, ks, vs)
  {
    hide Single, CmdOf, Classify, Kinds, Texts, Empty;
    forall k | 0 <= k < |ts| ensures Single(ts[k]) && !Empty(ts[k]) && Classify(ts[k]) == ks[k] {
      assert Reading(ts[k], ks[k], vs[k]);
    }
    KindsAre(s, ts, ks);
    SedReadsWhole(s);
    AloneCmds(s, ts);
    forall k | 0 <= k < |vs| ensures Items(s).value[k].cmd == Cmd(Always, vs[k]) {
      assert Reading(ts[k], ks[k], vs[k]);
    }
  }

  // ---- a forward branch over a command that reads

  const LEAP_TEXTS := [":a", "bc", "n", ":c", "ba"]
  const LEAP_KINDS := [Label("a"), Branch("c"), Consume, Label("c"), Branch("a")]
  const LEAP_VERBS := [Mark("a"), Jump("c"), Next, Mark("c"), Jump("a")]

  lemma {:induction false} LeapTexts()
    ensures Texts(LEAP) == LEAP_TEXTS
  {
    LeapSegments();
    LeapSlices();
    hide Segments, Texts;
    TextsAre(LEAP, [Seg(0, 2), Seg(3, 2), Seg(6, 1), Seg(8, 2), Seg(11, 2)], LEAP_TEXTS);
  }

  lemma {:induction false} LeapSegments()
    ensures Segments(LEAP) == [Seg(0, 2), Seg(3, 2), Seg(6, 1), Seg(8, 2), Seg(11, 2)]
  {
    var s := LEAP;
    CutLast(s, 11, 11);
    CutOne(s, 8, 8, 10);
    CutOne(s, 6, 6, 7);
    CutOne(s, 3, 3, 5);
    CutOne(s, 0, 0, 2);
    hide Cut;
  }

  lemma {:induction false} LeapSlices()
    ensures LEAP[0..2] == ":a" && LEAP[3..5] == "bc" && LEAP[6..7] == "n" && LEAP[8..10] == ":c" && LEAP[11..13] == "ba"
  {
  }

  /** It goes round jumping over the only command that reads. */
  lemma {:induction false} LeapMissed()
    ensures Missed(LEAP)
  {
    hide Texts, Script, Missed, LoopsBack, Endless, Unaddressed;
    LeapTexts();
    LeapReads();
    ReadsAll(LEAP, LEAP_TEXTS, LEAP_KINDS, LEAP_VERBS);
    LeapNoBackEdge();
    forall cs | Unaddressed(cs, LEAP_VERBS) ensures Endless(cs) { LeapRound(cs); }
    ScriptMissed(LEAP, LEAP_KINDS, LEAP_VERBS);
  }

  lemma {:induction false} LeapReads()
    ensures forall k :: 0 <= k < 5 ==> Reading(LEAP_TEXTS[k], LEAP_KINDS[k], LEAP_VERBS[k])
  {
    hide Reading;
    LettersRead();
    LetterReads('n', Next);
    assert "n" == ['n'];
  }

  lemma {:induction false} LeapNoBackEdge()
    ensures !LoopsBack(LEAP_KINDS)
  {
    var ks := LEAP_KINDS;
    assert ks[2].Consume?;
    forall i, j ensures !BackEdge(ks, i, j) {
      if j <= i && Jumps(ks, i, j) { assert i == 4 && j == 0; }
    }
  }

  /** Places gone round through, with nothing in either space. */
  function Bare(pcs: seq<nat>): (path: seq<State>)
    ensures |path| == |pcs| && forall k :: 0 <= k < |pcs| ==> path[k] == State(pcs[k], false, 0, 0)
  {
    seq(|pcs|, k requires 0 <= k < |pcs| => State(pcs[k], false, 0, 0))
  }

  lemma {:induction false} BareCircle(cs: seq<Cmd>, pcs: seq<nat>)
    requires Resolved(cs) && 1 < |pcs| <= 2 * |cs| + 1 && pcs[0] == 0 && pcs[|pcs| - 1] == 0
    requires forall k :: 0 <= k < |cs| ==> !cs[k].verb.DeleteFirst?
    requires Path(cs, Bare(pcs))
    ensures Endless(cs)
  {
    StartReached(cs);
    hide Resolved, Reached, Path;
    assert Circle(cs, Bare(pcs));
    RoundIsEndless(cs, Bare(pcs));
  }

  lemma {:induction false} LeapRound(cs: seq<Cmd>)
    requires Unaddressed(cs, LEAP_VERBS)
    ensures Endless(cs)
  {
    assert FirstMark(cs, "a") == 0;
    assert FirstMark(cs[3..], "c") == 0 && cs[2..][1..] == cs[3..] && cs[1..][1..] == cs[2..];
    assert FirstMark(cs[2..], "c") == 1 && FirstMark(cs[1..], "c") == 2;
    assert FirstMark(cs, "c") == 3;
    NoBlocks(cs, 0);
    hide FirstMark, Balanced;
    assert Path(cs, Bare([0, 1, 3, 4, 0]));
    BareCircle(cs, [0, 1, 3, 4, 0]);
  }

  lemma {:induction false} NoBlocks(cs: seq<Cmd>, j: nat)
    requires j <= |cs| && forall k :: 0 <= k < |cs| ==> !cs[k].verb.Open? && !cs[k].verb.Close?
    ensures Balanced(cs, j, 0)
    decreases |cs| - j
  {
    if j < |cs| { NoBlocks(cs, j + 1); }
  }

  // ---- a blank behind a branch's name

  const TRAIL_KINDS := [Label("a"), Branch("a ")]
  const TRAIL_VERBS := [Mark("a"), Jump("a")]

  lemma {:induction false} TrailTexts()
    ensures Texts(TRAIL) == [":a", "ba "]
  {
    var s := TRAIL;
    CutOne(s, 0, 0, 2);
    CutLast(s, 3, 3);
    assert s[0..2] == ":a" && s[3..6] == "ba ";
    TextsAre(s, [Seg(0, 2), Seg(3, 3)], [":a", "ba "]);
  }

  /** The filter takes the blank for part of the name. */
  lemma {:induction false} TrailMissed()
    ensures Missed(TRAIL)
  {
    hide Texts, Script, Missed, LoopsBack, Endless, Unaddressed, Reading;
    TrailTexts();
    LettersRead();
    TrailReads();
    ReadsAll(TRAIL, [":a", "ba "], TRAIL_KINDS, TRAIL_VERBS);
    TrailNoBackEdge();
    forall cs | Unaddressed(cs, TRAIL_VERBS) ensures Endless(cs) { TwoRound(cs); }
    ScriptMissed(TRAIL, TRAIL_KINDS, TRAIL_VERBS);
  }

  lemma {:induction false} TrailNoBackEdge()
    ensures !LoopsBack(TRAIL_KINDS)
  {
    assert "a" != "a ";
    forall i, j ensures !BackEdge(TRAIL_KINDS, i, j) { }
  }

  lemma {:induction false} TwoRound(cs: seq<Cmd>)
    requires Unaddressed(cs, TRAIL_VERBS)
    ensures Endless(cs)
  {
    assert FirstMark(cs, "a") == 0;
    NoBlocks(cs, 0);
    hide FirstMark, Balanced;
    assert Path(cs, Bare([0, 1, 0]));
    BareCircle(cs, [0, 1, 0]);
  }

  // ---- two commands in one segment

  /** The filter sees the label and not the branch behind it. */
  lemma {:induction false} SharedMissed()
    ensures Missed(SHARED)
  {
    hide Script, Missed, LoopsBack, Endless, Unaddressed;
    SharedScript();
    NoEdge([Label("a")]);
    forall cs | Unaddressed(cs, TRAIL_VERBS) ensures Endless(cs) { TwoRound(cs); }
    ScriptMissed(SHARED, [Label("a")], TRAIL_VERBS);
  }

  lemma {:induction false} NoEdge(ks: seq<Kind>)
    requires forall k :: 0 <= k < |ks| ==> !ks[k].Branch?
    ensures !LoopsBack(ks)
  {
    forall i, j ensures !BackEdge(ks, i, j) { }
  }

  lemma {:induction false} SharedScript()
    ensures Script(SHARED, [Label("a")], TRAIL_VERBS)
  {
    var s := SHARED;
    CutLast(s, 0, 0);
    assert s[0..5] == s;
    TextsAre(s, [Seg(0, 5)], [s]);
    SharedKind();
    KindsAre(s, [s], [Label("a")]);
    SharedItems();
    hide Kinds, Items, Texts;
  }

  lemma {:induction false} SharedKind()
    ensures Classify(SHARED) == Label("a")
  {
    var s := SHARED;
    assert s[1..] == "a ba" && "a ba"[1..] == " ba" && Word(" ba") == "" && Word("a ba") == "a";
    assert Command(s) == s;
  }

  lemma {:induction false} SharedOne()
    ensures One(SHARED) == Some(Parsed(Cmd(Always, Mark("a")), "ba", false))
  {
    var s := SHARED;
    assert s[1..] == "a ba" && "a ba"[1..] == " ba" && " ba"[1..] == "ba";
    assert Name("a ba") == "a" && SkipWs(" ba") == "ba";
    assert Head(s) == Some(Front(0, false, s));
  }

  lemma {:induction false} SharedItems()
    ensures Items(SHARED).Some? && |Items(SHARED).value| == 2
    ensures forall k :: 0 <= k < 2 ==> Items(SHARED).value[k].cmd == Cmd(Always, TRAIL_VERBS[k])
  {
    hide One, Items;
    SharedOne();
    BranchItem();
    ItemsOf(SHARED, Cmd(Always, Mark("a")), "ba", false, Items("ba").value);
  }

  // ---- a separator inside a command

  const INSIDE_TEXTS := [":a", "s/", "n", "/x/", "ba"]
  const INSIDE_KINDS := [Label("a"), Other, Consume, Other, Branch("a")]
  const INSIDE_VERBS := [Mark("a"), Substitute(false), Jump("a")]

  /** The filter takes part of an expression for a command that reads. */
  lemma {:induction false} InsideMissed()
    ensures Missed(INSIDE)
  {
    hide Script, Missed, LoopsBack, Endless, Unaddressed;
    InsideScript();
    InsideNoBackEdge();
    forall cs | Unaddressed(cs, INSIDE_VERBS) ensures Endless(cs) { InsideRound(cs); }
    ScriptMissed(INSIDE, INSIDE_KINDS, INSIDE_VERBS);
  }

  lemma {:induction false} InsideScript()
    ensures Script(INSIDE, INSIDE_KINDS, INSIDE_VERBS)
  {
    hide Kinds, Items, Texts, Classify;
    InsideTexts();
    InsideKinds();
    KindsAre(INSIDE, INSIDE_TEXTS, INSIDE_KINDS);
    InsideItems();
  }

  lemma {:induction false} InsideTexts()
    ensures Texts(INSIDE) == INSIDE_TEXTS
  {
    InsideSegments();
    InsideSlices();
    hide Segments, Texts;
    TextsAre(INSIDE, [Seg(0, 2), Seg(3, 2), Seg(6, 1), Seg(8, 3), Seg(12, 2)], INSIDE_TEXTS);
  }

  lemma {:induction false} InsideSegments()
    ensures Segments(INSIDE) == [Seg(0, 2), Seg(3, 2), Seg(6, 1), Seg(8, 3), Seg(12, 2)]
  {
    var s := INSIDE;
    CutLast(s, 12, 12);
    CutOne(s, 8, 8, 11);
    CutOne(s, 6, 6, 7);
    CutOne(s, 3, 3, 5);
    CutOne(s, 0, 0, 2);
    hide Cut;
  }

  lemma {:induction false} InsideSlices()
    ensures INSIDE[0..2] == ":a" && INSIDE[3..5] == "s/" && INSIDE[6..7] == "n"
    ensures INSIDE[8..11] == "/x/" && INSIDE[12..14] == "ba"
  {
  }

  lemma {:induction false} InsideKinds()
    ensures forall k :: 0 <= k < 5 ==> Classify(INSIDE_TEXTS[k]) == INSIDE_KINDS[k]
  {
    hide Classify, Reading;
    LettersRead();
    LetterReads('n', Next);
    assert "n" == ['n'];
    ReadingKind(":a", Label("a"), Mark("a"));
    ReadingKind("n", Consume, Next);
    ReadingKind("ba", Branch("a"), Jump("a"));
    AddressAlone();
  }

  lemma {:induction false} AddressAlone()
    ensures Classify("/x/") == Other && Classify("s/") == Other
  {
    var t := "/x/";
    assert t[1..] == "x/" && "x/"[1..] == "/" && "/"[1..] == "";
    assert SkipPast("x/", '/') == "";
    assert Command(t) == "" && Command("s/") == "s/";
  }

  lemma {:induction false} ExpressionReads()
    ensures Field(";n;/x/", '/') == Some("x/") && Field("x/", '/') == Some("") && !Grows("x/", '/')
  {
    assert ";n;/x/"[1..] == "n;/x/" && "n;/x/"[1..] == ";/x/" && ";/x/"[1..] == "/x/";
    assert "/x/"[1..] == "x/" && "x/"[1..] == "/" && "/"[1..] == "";
    assert Field("/x/", '/') == Some("x/");
    assert Field(";/x/", '/') == Some("x/");
    assert Field("n;/x/", '/') == Some("x/");
    assert Field("/", '/') == Some("") && !Grows("/", '/');
  }

  lemma {:induction false} SubstituteBody()
    ensures Body('s', "/;n;/x/") == Some(Read(Substitute(false), "", false))
  {
    hide Field, Grows;
    var u := "/;n;/x/";
    assert u[1..] == ";n;/x/";
    ExpressionReads();
  }

  lemma {:induction false} SubstituteReads()
    ensures One("s/;n;/x/") == Some(Parsed(Cmd(Always, Substitute(false)), "", false))
  {
    hide Body;
    var t := "s/;n;/x/";
    assert t[1..] == "/;n;/x/";
    SubstituteBody();
    assert Head(t) == Some(Front(0, false, t));
  }

  /** One command, and what is read behind it. */
  lemma {:induction false} ItemsOf(t: string, cmd: Cmd, rest: string, line: bool, more: seq<Item>)
    requires t != "" && !Blank(t[0]) && One(t) == Some(Parsed(cmd, rest, line)) && Items(rest) == Some(more)
    ensures Items(t) == Some([Item(cmd, t)] + more)
  {
    NoLeadingSep(t);
    hide One;
    assert SkipSeps(t) == t;
  }

  /** One command, a separator and more. */
  lemma {:induction false} ItemsThen(t: string, cmd: Cmd, r: string, more: seq<Item>)
    requires t != "" && !Blank(t[0]) && One(t) == Some(Parsed(cmd, "", false)) && Items(r) == Some(more)
    ensures Items(t + ";" + r) == Some([Item(cmd, t + ";" + r)] + more)
  {
    hide One, Items;
    var q := ";" + r;
    assert t + ";" + r == t + q && q[1..] == r;
    OneFollowed(t, q);
    ItemsSkip(q);
    assert (t + q)[0] == t[0];
    ItemsOf(t + q, cmd, q, false, more);
  }

  lemma {:induction false} BranchItem()
    ensures Items("ba") == Some([Item(Cmd(Always, Jump("a")), "ba")])
  {
    hide One, Items, Reading;
    LettersRead();
    ReadingOne("ba", Branch("a"), Jump("a"));
    ItemsEnd("");
    ItemsOf("ba", Cmd(Always, Jump("a")), "", false, []);
    assert [Item(Cmd(Always, Jump("a")), "ba")] + [] == [Item(Cmd(Always, Jump("a")), "ba")];
  }

  lemma {:induction false} InsideItems()
    ensures Items(INSIDE).Some? && |Items(INSIDE).value| == 3
    ensures forall k :: 0 <= k < 3 ==> Items(INSIDE).value[k].cmd == Cmd(Always, INSIDE_VERBS[k])
  {
    hide One, Items, Reading;
    LettersRead();
    ReadingOne(":a", Label("a"), Mark("a"));
    SubstituteReads();
    BranchItem();
    var r, last := "s/;n;/x/;ba", Items("ba").value;
    ItemsThen("s/;n;/x/", Cmd(Always, Substitute(false)), "ba", last);
    assert "s/;n;/x/" + ";" + "ba" == r;
    ItemsThen(":a", Cmd(Always, Mark("a")), r, Items(r).value);
    assert ":a" + ";" + r == INSIDE;
  }

  lemma {:induction false} InsideNoBackEdge()
    ensures !LoopsBack(INSIDE_KINDS)
  {
    var ks := INSIDE_KINDS;
    assert ks[2].Consume?;
    forall i, j ensures !BackEdge(ks, i, j) {
      if j <= i && Jumps(ks, i, j) { assert i == 4 && j == 0; }
    }
  }

  lemma {:induction false} InsideRound(cs: seq<Cmd>)
    requires Unaddressed(cs, INSIDE_VERBS)
    ensures Endless(cs)
  {
    assert FirstMark(cs, "a") == 0;
    NoBlocks(cs, 0);
    hide FirstMark, Balanced;
    assert Path(cs, Bare([0, 1, 2, 0]));
    BareCircle(cs, [0, 1, 2, 0]);
  }

  // ---- a restart that reads nothing

  const RESTART_KINDS := [Other, Consume]
  const RESTART_VERBS := [GetAppend, DeleteFirst]

  /** `G` puts back the newline that `D` takes away, and `D` begins the script anew without reading. */
  lemma {:induction false} RestartMissed()
    ensures Missed(RESTART)
  {
    hide Texts, Script, Missed, LoopsBack, Endless, Unaddressed, Reading;
    RestartTexts();
    LetterReads('G', GetAppend);
    LetterReads('D', DeleteFirst);
    assert "G" == ['G'] && "D" == ['D'];
    ReadsAll(RESTART, ["G", "D"], RESTART_KINDS, RESTART_VERBS);
    NoEdge(RESTART_KINDS);
    forall cs | Unaddressed(cs, RESTART_VERBS) ensures Endless(cs) { RestartRound(cs); }
    ScriptMissed(RESTART, RESTART_KINDS, RESTART_VERBS);
  }

  lemma {:induction false} RestartTexts()
    ensures Texts(RESTART) == ["G", "D"]
  {
    var s := RESTART;
    CutOne(s, 0, 0, 1);
    CutLast(s, 2, 2);
    assert s[0..1] == "G" && s[2..3] == "D";
    TextsAre(s, [Seg(0, 1), Seg(2, 1)], ["G", "D"]);
  }

  lemma {:induction false} RestartRound(cs: seq<Cmd>)
    requires Unaddressed(cs, RESTART_VERBS)
    ensures Endless(cs)
  {
    NoBlocks(cs, 0);
    StartReached(cs);
    var round := [START, State(1, false, 1, 0), START];
    assert Restarts(cs, round[1], round[1 + 1]);
    hide Balanced, Reached;
    assert Pump(cs, round);
    RoundIsEndless(cs, round);
  }

  // ---- a loop the filter finds and sed cannot walk

  const LEAVES_KINDS := [Label("a"), Branch(""), Branch("a")]
  const LEAVES_VERBS := [Mark("a"), Jump(""), Jump("a")]

  lemma {:induction false} LeavesTexts()
    ensures Texts(LEAVES) == [":a", "b", "ba"]
  {
    var s := LEAVES;
    CutOne(s, 0, 0, 2);
    CutOne(s, 3, 3, 4);
    CutLast(s, 5, 5);
    assert s[0..2] == ":a" && s[3..4] == "b" && s[5..7] == "ba";
    TextsAre(s, [Seg(0, 2), Seg(3, 1), Seg(5, 2)], [":a", "b", "ba"]);
  }

  /** The branch in between always ends the cycle. */
  lemma {:induction false} LeavesTurned()
    ensures Turned(LEAVES)
  {
    hide Texts, Kinds, LoopsBack, Endless, Unaddressed, Reading, Items;
    LeavesTexts();
    LettersRead();
    EndReads();
    ReadsAll(LEAVES, [":a", "b", "ba"], LEAVES_KINDS, LEAVES_VERBS);
    LeavesBackEdge();
    AllTabled(LEAVES);
    var cs := Program(LEAVES);
    LeavesEnds(cs) by { assert |cs| == 3 && forall k :: 0 <= k < 3 ==> cs[k] == Cmd(Always, LEAVES_VERBS[k]); }
  }

  lemma {:induction false} LeavesBackEdge()
    ensures LoopsBack(LEAVES_KINDS)
  {
    assert BackEdge(LEAVES_KINDS, 2, 0);
  }

  lemma {:induction false} LeavesEnds(cs: seq<Cmd>)
    requires |cs| == 3 && forall k :: 0 <= k < 3 ==> cs[k] == Cmd(Always, LEAVES_VERBS[k])
    ensures !Endless(cs)
  {
    EndlessExactly(cs);
    hide Endless, Restartless, Reached;
    forall round ensures !Round(cs, round) {
      if Round(cs, round) { Onwards(cs, round); }
    }
  }

  /** From 2 to 0 to 1 to the end: the positions come in that order. */
  function Order(pc: nat): int { if pc == 2 then 0 else pc + 1 }

  lemma {:induction false} Onwards(cs: seq<Cmd>, path: seq<State>)
    requires |cs| == 3 && forall k :: 0 <= k < 3 ==> cs[k] == Cmd(Always, LEAVES_VERBS[k])
    requires Path(cs, path) && 1 < |path|
    ensures Order(path[0].pc) < Order(path[|path| - 1].pc)
    decreases |path|
  {
    assert FirstMark(cs, "a") == 0;
    assert Step(cs, path[0], path[0 + 1]);
    if 2 < |path| {
      Part(cs, path, 1, |path|);
      Onwards(cs, path[1..]);
    }
  }
}
