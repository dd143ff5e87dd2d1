// fuzz/fuzz_sed.c beside src/util/sed.c: a segment as both read it.

/** The filter's kind of a segment against what sed reads there. */
module SedReading {
  import opened SedClassify
  import opened SedParser

  predicate Consumes(v: Verb) { v.Next? || v.NextAppend? || v.Delete? || v.DeleteFirst? || v.Quit? }

  /** Labels are read alike, consuming commands are recognised, and a branch's name is read with the blanks
      behind it. */
  predicate Agree(k: Kind, v: Verb) {
    match v
    case Mark(n) => k == Label(n)
    case Jump(n) => k.Branch? && n <= k.name && AllBlank(k.name[|n|..])
    case Test(n) => k.Branch? && n <= k.name && AllBlank(k.name[|n|..])
    case _ => if Consumes(v) then k == Consume else k == Other
  }

  lemma {:induction false} FieldIsPast(t: string, delim: char)
    requires Field(t, delim).Some?
    ensures SkipPast(t, delim) == Field(t, delim).value
    decreases |t|
  {
    if t[0] == delim {
    } else if t[0] == '\\' && 1 < |t| {
      FieldIsPast(t[2..], delim);
    } else {
      FieldIsPast(t[1..], delim);
    }
  }

  lemma {:induction false} AddressIsSkipped(t: string)
    requires Address(t).Found?
    ensures SkipAddress(t) == Address(t).rest
  {
    hide SkipPast, Field, SkipDigits;
    if Starts(t, '/') { FieldIsPast(t[1..], '/'); }
    if Starts(t, '\\') && 1 < |t| { FieldIsPast(t[2..], t[1]); }
  }

  lemma {:induction false} WsTwice(t: string)
    ensures SkipWs(SkipWs(t)) == SkipWs(t) && (SkipWs(t) == "" || !Blank(SkipWs(t)[0]))
  {
    if t != "" && Blank(t[0]) { WsTwice(t[1..]); }
  }

  /** The filter finds the command letter where sed does. */
  lemma {:induction false} HeadIsCommand(t: string)
    requires Head(SkipWs(t)).Some? && Head(SkipWs(t)).value.rest != "" && Head(SkipWs(t)).value.rest[0] != ','
    ensures Command(t) == Head(SkipWs(t)).value.rest
  {
    var s := SkipWs(t);
    WsTwice(t);
    AddressIsSkipped(s);
    var a := Address(s);
    WsTwice(a.rest);
    if a.present {
      var u := SkipWs(a.rest);
      if Starts(u, ',') {
        AddressIsSkipped(SkipWs(u[1..]));
      }
    }
    hide SkipWs, SkipAddress, Address;
  }

  lemma {:induction false} NameAndBlanks(t: string)
    requires SkipWs(t[|Name(t)|..]) == ""
    ensures Word(t) == Name(t) && AllBlank(t[|Name(t)|..])
  {
    var n := |Name(t)|;
    if t != "" && !EndsName(t[0]) {
      assert t[1..][n - 1..] == t[n..];
      NameAndBlanks(t[1..]);
    } else {
      BlankRest(t);
      assert t[0..] == t;
    }
  }

  lemma {:induction false} BlankRest(t: string)
    requires SkipWs(t) == ""
    ensures AllBlank(t)
  {
    if t != "" {
      BlankRest(t[1..]);
      assert forall k :: 1 <= k < |t| ==> t[k] == t[1..][k - 1];
    }
  }

  lemma {:induction false} KindOfBody(p: string)
    requires p != "" && Body(p[0], p[1..]).Some? && SkipWs(Body(p[0], p[1..]).value.rest) == ""
    ensures Agree(Kinded(p), Body(p[0], p[1..]).value.verb)
  {
    hide SkipWs, Name, Word, Subst, Trans, SubstGrows, TransBreaks, SkipText, SkipLine;
    if TakesName(p[0]) {
      var u := SkipWs(p[1..]);
      NameAndBlanks(u);
      NamePrefix(u);
    }
  }

  lemma {:induction false} NamePrefix(t: string)
    ensures Name(t) <= t
  {
    if t != "" && !EndsName(t[0]) { NamePrefix(t[1..]); }
  }

  /** A segment that is one command is classified as what sed reads, blanks behind a branch's name apart. */
  lemma {:induction false} ClassifyAgrees(t: string)
    requires Single(t)
    ensures Agree(Classify(t), CmdOf(t).verb)
  {
    var u := SkipWs(t);
    if Starts(u, '}') {
      HeadIsCommand(t);
    } else {
      var h := Head(u).value;
      BodyKnown(h.rest[0], h.rest[1..]);
      HeadIsCommand(t);
      hide Head, Body, SkipWs, Command;
      KindOfBody(h.rest);
    }
  }

  lemma {:induction false} EmptyIsOther(t: string)
    requires Empty(t)
    ensures Classify(t) == Other
  {
  }
}
