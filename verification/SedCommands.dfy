// fuzz/fuzz_sed.c: the classifier against commands as they are written.

/** Written commands classify as what they are. */
module SedCommands {
  import opened Ascii
  import opened SedClassify

  /** A line number, the last line, or an expression between two delimiters. */
  datatype Address = Line(digits: string) | Last | Re(delim: char, body: string)

  /** An address, the blanks in front of it and the blanks behind it. */
  datatype Part = Part(before: string, address: Address, after: string)

  datatype Verb =
    | LabelVerb(pad: string, name: string, after: string)
    | BranchVerb(letter: char, pad: string, name: string)
    | Letter(letter: char, rest: string)

  /** A command with up to two addresses and any number of negations, each with blanks behind it. */
  datatype Cmd = Cmd(lead: string, parts: seq<Part>, bangs: seq<string>, verb: Verb)

  /** No unprotected delimiter, and every backslash protects something. */
  predicate Protected(body: string, delim: char)
    decreases |body|
  {
    body == "" ||
    (body[0] != delim &&
     if body[0] == '\\' then 1 < |body| && Protected(body[2..], delim) else Protected(body[1..], delim))
  }

  predicate ProperAddress(a: Address) {
    match a
    case Line(digits) => digits != "" && forall k :: 0 <= k < |digits| ==> Digit(digits[k])
    case Last => true
    case Re(delim, body) => Protected(body, delim)
  }

  predicate ProperPart(p: Part) { AllBlank(p.before) && ProperAddress(p.address) && AllBlank(p.after) }

  predicate ProperVerb(v: Verb) {
    match v
    case LabelVerb(pad, name, after) => AllBlank(pad) && AllBlank(after) &&
      forall k :: 0 <= k < |name| ==> !Blank(name[k])
    case BranchVerb(letter, pad, name) => (letter == 'b' || letter == 't') &&
      AllBlank(pad) && (name == "" || !Blank(name[0]))
    case Letter(c, _) => !Blank(c) && !Digit(c) && c !in "$/\\,!:bt"
  }

  predicate Proper(c: Cmd) {
    && AllBlank(c.lead) && |c.parts| <= 2 && (forall k :: 0 <= k < |c.parts| ==> ProperPart(c.parts[k]))
    && (forall k :: 0 <= k < |c.bangs| ==> AllBlank(c.bangs[k])) && ProperVerb(c.verb)
  }

  /** The address, then t. */
  function WriteAddress(a: Address, t: string): string {
    match a
    case Line(digits) => digits + t
    case Last => "$" + t
    case Re(delim, body) => (if delim == '/' then "/" else ['\\', delim]) + (body + ([delim] + t))
  }

  function WritePart(p: Part, t: string): string { p.before + WriteAddress(p.address, p.after + t) }

  function WriteVerb(v: Verb): string {
    match v
    case LabelVerb(pad, name, after) => ":" + (pad + (name + after))
    case BranchVerb(letter, pad, name) => [letter] + (pad + name)
    case Letter(letter, rest) => [letter] + rest
  }

  function WriteBangs(bangs: seq<string>, t: string): string {
    if bangs == [] then t else "!" + (bangs[0] + WriteBangs(bangs[1..], t))
  }

  function Write(c: Cmd): string
    requires |c.parts| <= 2
  {
    var tail := WriteBangs(c.bangs, WriteVerb(c.verb));
    c.lead +
    if |c.parts| == 0 then tail
    else if |c.parts| == 1 then WritePart(c.parts[0], tail)
    else WritePart(c.parts[0], "," + WritePart(c.parts[1], tail))
  }

  function KindOf(v: Verb): Kind {
    match v
    case LabelVerb(_, name, _) => Label(name)
    case BranchVerb(_, _, name) => Branch(name)
    case Letter(c, _) => if c in "nNdDqQ" then Consume else Other
  }

  lemma {:induction false} BlanksSkipped(pad: string, t: string)
    requires AllBlank(pad)
    ensures SkipWs(pad + t) == SkipWs(t)
  {
    if pad == "" {
      assert pad + t == t;
    } else {
      BlanksSkipped(pad[1..], t);
      assert (pad + t)[1..] == pad[1..] + t;
    }
  }

  lemma {:induction false} DigitsSkipped(digits: string, rest: string)
    requires (forall k :: 0 <= k < |digits| ==> Digit(digits[k])) && (rest == "" || !Digit(rest[0]))
    ensures SkipDigits(digits + rest) == rest
  {
    if digits == "" {
      assert digits + rest == rest;
    } else {
      DigitsSkipped(digits[1..], rest);
      assert (digits + rest)[1..] == digits[1..] + rest;
    }
  }

  lemma {:induction false} BodySkipped(body: string, delim: char, rest: string)
    requires Protected(body, delim)
    ensures SkipPast(body + ([delim] + rest), delim) == rest
    decreases |body|
  {
    var t := body + ([delim] + rest);
    if body == "" {
      assert t[1..] == rest;
    } else if body[0] == '\\' {
      BodySkipped(body[2..], delim, rest);
      assert t[2..] == body[2..] + ([delim] + rest);
    } else {
      BodySkipped(body[1..], delim, rest);
      assert t[1..] == body[1..] + ([delim] + rest);
    }
  }

  lemma {:induction false} AddressSkipped(a: Address, rest: string)
    requires ProperAddress(a) && (rest == "" || !Digit(rest[0]))
    ensures SkipAddress(WriteAddress(a, rest)) == rest
    ensures WriteAddress(a, rest) != "" && !Blank(WriteAddress(a, rest)[0])
  {
    hide SkipPast, SkipDigits;
    var t := WriteAddress(a, rest);
    match a {
      case Line(digits) => DigitsSkipped(digits, rest); assert t[0] == digits[0];
      case Last => assert t[1..] == rest;
      case Re(delim, body) =>
        BodySkipped(body, delim, rest);
        var u := body + ([delim] + rest);
        if delim == '/' { assert t[1..] == u; } else { assert t[2..] == u && t[0] == '\\' && t[1] == delim; }
    }
  }

  /** What may stand behind an address. */
  predicate Follows(t: string) { t != "" && !Blank(t[0]) && !Digit(t[0]) && t[0] !in "$/\\" }

  lemma {:induction false} PartSkipped(p: Part, t: string)
    requires ProperPart(p) && Follows(t)
    ensures AfterAddress(WritePart(p, t)) == t
  {
    var u := WriteAddress(p.address, p.after + t);
    assert p.after + t == "" || !Digit((p.after + t)[0]) by {
      if p.after != "" { assert (p.after + t)[0] == p.after[0]; } else { assert p.after + t == t; }
    }
    AddressSkipped(p.address, p.after + t);
    BlanksSkipped(p.before, u);
    BlanksSkipped(p.after, t);
    hide SkipAddress, WriteAddress;
    assert SkipWs(u) == u && SkipWs(t) == t;
  }

  lemma {:induction false} NoPartSkipped(t: string)
    requires Follows(t)
    ensures AfterAddress(t) == t
  {
  }

  lemma {:induction false} BangsSkipped(bangs: seq<string>, v: string)
    requires (forall k :: 0 <= k < |bangs| ==> AllBlank(bangs[k])) && Follows(v) && v[0] != ',' && v[0] != '!'
    ensures SkipBangs(WriteBangs(bangs, v)) == v
    ensures Follows(WriteBangs(bangs, v)) && WriteBangs(bangs, v)[0] != ','
  {
    if bangs != [] {
      var t, u := WriteBangs(bangs, v), WriteBangs(bangs[1..], v);
      BangsSkipped(bangs[1..], v);
      assert t[1..] == bangs[0] + u;
      BlanksSkipped(bangs[0], u);
      assert SkipWs(u) == u;
    }
  }

  lemma {:induction false} LeadSkipped(lead: string, t: string)
    requires AllBlank(lead)
    ensures Command(lead + t) == Command(t)
  {
    BlanksSkipped(lead, t);
  }

  lemma {:induction false} VerbFollows(v: Verb)
    requires ProperVerb(v)
    ensures Follows(WriteVerb(v)) && WriteVerb(v)[0] != ',' && WriteVerb(v)[0] != '!'
  {
  }

  lemma {:induction false} CommandFound(c: Cmd)
    requires Proper(c)
    ensures Command(Write(c)) == WriteVerb(c.verb)
  {
    var v := WriteVerb(c.verb);
    var tail := WriteBangs(c.bangs, v);
    VerbFollows(c.verb);
    BangsSkipped(c.bangs, v);
    hide WriteVerb, WriteBangs, WritePart, AfterAddress, SkipBangs;
    if |c.parts| == 0 {
      NoPartSkipped(tail);
      LeadSkipped(c.lead, tail);
    } else if |c.parts| == 1 {
      PartSkipped(c.parts[0], tail);
      LeadSkipped(c.lead, WritePart(c.parts[0], tail));
    } else {
      var second := WritePart(c.parts[1], tail);
      PartSkipped(c.parts[1], tail);
      PartSkipped(c.parts[0], "," + second);
      assert ("," + second)[1..] == second;
      LeadSkipped(c.lead, WritePart(c.parts[0], "," + second));
    }
  }

  lemma {:induction false} WordWhole(name: string, after: string)
    requires (forall k :: 0 <= k < |name| ==> !Blank(name[k])) && AllBlank(after)
    ensures Word(name + after) == name
  {
    if name != "" {
      WordWhole(name[1..], after);
      assert (name + after)[1..] == name[1..] + after;
    } else {
      assert name + after == after;
    }
  }

  /** Blanks give way to the name behind them. */
  lemma {:induction false} NameAfterBlanks(pad: string, t: string)
    requires AllBlank(pad) && (t == "" || !Blank(t[0]))
    ensures SkipWs(pad + t) == t
  {
    BlanksSkipped(pad, t);
  }

  /** Classifying undoes writing, for every command: any addresses, delimiters, blanks and negations. */
  lemma {:induction false} ClassifyUndoesWriting(c: Cmd)
    requires Proper(c)
    ensures Classify(Write(c)) == KindOf(c.verb)
  {
    hide Command, Write;
    CommandFound(c);
    var p := WriteVerb(c.verb);
    match c.verb {
      case LabelVerb(pad, name, after) =>
        assert p[1..] == pad + (name + after);
        if name == "" {
          EmptyName(pad, after);
        } else {
          NameAfterBlanks(pad, name + after);
          WordWhole(name, after);
        }
      case BranchVerb(_, pad, name) =>
        assert p[1..] == pad + name;
        NameAfterBlanks(pad, name);
      case Letter(_, _) =>
    }
  }

  lemma {:induction false} EmptyName(pad: string, after: string)
    requires AllBlank(pad) && AllBlank(after)
    ensures Word(SkipWs(pad + ("" + after))) == ""
  {
    assert "" + after == after;
    BlanksSkipped(pad, after);
    BlanksSkipped(after, "");
    assert after + "" == after;
  }
}
