// src/util/sed.c: how sed itself reads a script.

/** sed's parser. */
module SedParser {
  import opened Ascii
  import opened Options
  import opened SedClassify

  /** The text behind the next `delim` that no backslash protects; none if the line ends first. */
  function Field(t: string, delim: char): (r: Option<string>)
    ensures r.Some? ==> |r.value| < |t|
    decreases |t|
  {
    if t == "" then None
    else if t[0] == delim then Some(t[1..])
    else if t[0] == '\n' then None
    else if t[0] == '\\' && 1 < |t| then Field(t[2..], delim)
    else Field(t[1..], delim)
  }

  datatype Found = Found(present: bool, rest: string) | Malformed

  function FoundField(f: Option<string>): Found { if f.Some? then Found(true, f.value) else Malformed }

  /** One address, if there is one. */
  function Address(t: string): (r: Found)
    ensures r.Found? ==> |r.rest| <= |t|
  {
    if t != "" && Digit(t[0]) then Found(true, SkipDigits(t))
    else if Starts(t, '$') then Found(true, t[1..])
    else if Starts(t, '/') then FoundField(Field(t[1..], '/'))
    else if Starts(t, '\\') && 1 < |t| then FoundField(Field(t[2..], t[1]))
    else Found(false, t)
  }

  /** What precedes the command letter: the number of addresses, whether they are negated, and the text from
      the letter on. */
  datatype Front = Front(naddr: nat, negate: bool, rest: string)

  function Bangs(naddr: nat, t: string): Front { Front(naddr, Starts(SkipWs(t), '!'), SkipBangs(SkipWs(t))) }

  function Head(t: string): (r: Option<Front>)
    ensures r.Some? ==> |r.value.rest| <= |t|
  {
    var a := Address(t);
    if a.Malformed? then None
    else if !a.present then Some(Bangs(0, t))
    else
      var u := SkipWs(a.rest);
      if !Starts(u, ',') then Some(Bangs(1, u))
      else
        var b := Address(SkipWs(u[1..]));
        if b.Malformed? || !b.present then None else Some(Bangs(2, b.rest))
  }

  /** A label's name ends at a blank, a separator or a brace. */
  predicate EndsName(c: char) { c == '\n' || c == ';' || c == '}' || Blank(c) }

  function Name(t: string): (n: string)
    ensures |n| <= |t|
  {
    if t == "" || EndsName(t[0]) then "" else [t[0]] + Name(t[1..])
  }

  function SkipZeros(t: string): (r: string)
    ensures |r| <= |t|
  {
    if Starts(t, '0') then SkipZeros(t[1..]) else t
  }

  /** Up to the end of the line. */
  function SkipLine(t: string): (r: string)
    ensures |r| <= |t|
  {
    if t == "" || t[0] == '\n' then t else SkipLine(t[1..])
  }

  /** What is behind the argument of a command, and whether the argument takes the rest of the line. */
  datatype Tail = Tail(rest: string, line: bool)

  /** The flags behind s/re/text/, an occurrence being 1 or more; the name of a file takes the rest of the line. */
  function SubstFlags(t: string): (r: Option<Tail>)
    ensures r.Some? ==> |r.value.rest| <= |t|
    decreases |t|
  {
    if t == "" then Some(Tail(t, false))
    else if Digit(t[0]) then
      var z := SkipZeros(t);
      if z == "" || !Digit(z[0]) then None else SubstFlags(SkipDigits(z[1..]))
    else if t[0] == 'g' || t[0] == 'p' then SubstFlags(t[1..])
    else if t[0] == 'w' then Some(Tail(SkipLine(t[1..]), true))
    else if t[0] in "iImM" then None
    else Some(Tail(t, false))
  }

  function Subst(t: string): (r: Option<Tail>)
    ensures r.Some? ==> |r.value.rest| <= |t|
  {
    if t == "" || t[0] == '\n' || t[0] == '\\' then None
    else
      var re := Field(t[1..], t[0]);
      if re.None? then None
      else
        var text := Field(re.value, t[0]);
        if text.None? then None else SubstFlags(text.value)
  }

  /** Whether a replacement can put newlines in: it holds one, or what the expression matched. */
  predicate Grows(t: string, delim: char)
    decreases |t|
  {
    if t == "" || t[0] == delim || t[0] == '\n' then false
    else if t[0] == '&' then true
    else if t[0] == '\\' && 1 < |t| then t[1] == '\n' || '1' <= t[1] <= '9' || Grows(t[2..], delim)
    else Grows(t[1..], delim)
  }

  predicate SubstGrows(t: string)
    requires Subst(t).Some?
  {
    Grows(Field(t[1..], t[0]).value, t[0])
  }

  /** The characters of a field, a protected one counting once, and whether one of them is a newline. */
  function FieldSize(t: string, delim: char): nat
    decreases |t|
  {
    if t == "" || t[0] == delim then 0
    else if t[0] == '\\' && 1 < |t| then 1 + FieldSize(t[2..], delim)
    else 1 + FieldSize(t[1..], delim)
  }

  predicate FieldBreaks(t: string, delim: char)
    decreases |t|
  {
    if t == "" || t[0] == delim then false
    else if t[0] == '\\' && 1 < |t| then t[1] == '\n' || FieldBreaks(t[2..], delim)
    else FieldBreaks(t[1..], delim)
  }

  /** y/from/to/, both of one length. */
  function Trans(t: string): (r: Option<string>)
    ensures r.Some? ==> |r.value| <= |t|
  {
    if t == "" then None
    else
      var from := Field(t[1..], t[0]);
      if from.None? || FieldSize(t[1..], t[0]) != FieldSize(from.value, t[0]) then None else Field(from.value, t[0])
  }

  predicate TransBreaks(t: string)
    requires Trans(t).Some?
  {
    FieldBreaks(t[1..], t[0]) || FieldBreaks(Field(t[1..], t[0]).value, t[0])
  }

  /** The text of a, i and c: up to and with the first newline that no backslash protects. */
  function SkipText(t: string): (r: string)
    ensures |r| <= |t|
    decreases |t|
  {
    if t == "" then t
    else if t[0] == '\n' then t[1..]
    else if t[0] == '\\' && 1 < |t| then SkipText(t[2..])
    else SkipText(t[1..])
  }

  function TextArg(t: string): (r: Option<string>)
    ensures r.Some? ==> |r.value| <= |t|
  {
    if !Starts(t, '\\') then None else Some(SkipText(if Starts(t[1..], '\n') then t[2..] else t[1..]))
  }

  /** What a command does to the flow and to the newlines in the pattern and hold spaces.  `grows` is whether
      a substitution or translation can put newlines in. */
  datatype Verb =
    | Plain | Substitute(grows: bool) | Translate(grows: bool)
    | Get | GetAppend | Hold | HoldAppend | Exchange
    | Open | Close | Mark(name: string) | Jump(name: string) | Test(name: string)
    | Next | NextAppend | Delete | DeleteFirst | Change | Quit

  datatype Read = Read(verb: Verb, rest: string, line: bool)

  /** The command with letter c, t being the text behind the letter. */
  function Body(c: char, t: string): (r: Option<Read>)
    ensures r.Some? ==> |r.value.rest| <= |t|
  {
    if TakesName(c) then Named(c, SkipWs(t))
    else if c == 's' then
      var r := Subst(t);
      if r.None? then None else Some(Read(Substitute(SubstGrows(t)), r.value.rest, r.value.line))
    else if c == 'y' then
      var r := Trans(t);
      if r.None? then None else Some(Read(Translate(TransBreaks(t)), r.value, false))
    else if c == 'a' || c == 'i' || c == 'c' then
      var r := TextArg(t);
      if r.None? then None else Some(Read(if c == 'c' then Change else Plain, r.value, true))
    else if c == 'r' || c == 'w' then Some(Read(Plain, SkipLine(t), true))
    else if c == 'q' && t != "" && Digit(t[0]) then None
    else
      var v := Letter(c);
      if v.None? then None else Some(Read(v.value, t, false))
  }

  function Named(c: char, u: string): (r: Option<Read>)
    ensures r.Some? ==> |r.value.rest| <= |u|
  {
    var n := Name(u);
    if c == ':' && n == "" then None
    else Some(Read(if c == ':' then Mark(n) else if c == 'b' then Jump(n) else Test(n), u[|n|..], false))
  }

  /** The commands that are a letter. */
  function Letter(c: char): Option<Verb> {
    match c
    case 'n' => Some(Next)
    case 'N' => Some(NextAppend)
    case 'd' => Some(Delete)
    case 'D' => Some(DeleteFirst)
    case 'q' => Some(Quit)
    case 'g' => Some(Get)
    case 'G' => Some(GetAppend)
    case 'h' => Some(Hold)
    case 'H' => Some(HoldAppend)
    case 'x' => Some(Exchange)
    case '{' => Some(Open)
    case _ => if c in "pP=l" then Some(Plain) else None
  }

  /** When a command is selected. */
  datatype Gate = Always | Never | Maybe

  datatype Cmd = Cmd(gate: Gate, verb: Verb)

  function GateOf(f: Front): Gate { if f.naddr > 0 then Maybe else if f.negate then Never else Always }

  predicate TakesName(c: char) { c == ':' || c == 'b' || c == 't' }

  /** What may follow a command that is complete without its argument's end being the line's. */
  predicate Ended(t: string) { t == "" || t[0] == '\n' || t[0] == ';' || t[0] == '#' || t[0] == '}' }

  /** Commands that may be followed by anything, having read as far as they go. */
  predicate Unchecked(c: char) { TakesName(c) || c in "aicrw" }

  predicate TooManyAddresses(c: char, naddr: nat) { (c == ':' && naddr > 0) || (c in "airq=" && naddr > 1) }

  /** `line` is whether the command takes the rest of its line. */
  datatype Parsed = Parsed(cmd: Cmd, rest: string, line: bool)

  /** One command at the front of t. */
  function One(t: string): (r: Option<Parsed>)
    ensures r.Some? ==> |r.value.rest| < |t|
  {
    if Starts(t, '}') then Some(Parsed(Cmd(Always, Close), t[1..], false))
    else
      var h := Head(t);
      if h.None? || h.value.rest == "" then None
      else
        var c := h.value.rest[0];
        var b := Body(c, h.value.rest[1..]);
        if b.None? || TooManyAddresses(c, h.value.naddr) then None
        else
          var cmd := Cmd(GateOf(h.value), b.value.verb);
          if c == '{' then Some(Parsed(cmd, b.value.rest, b.value.line))
          else
            var rest := SkipWs(b.value.rest);
            if !Unchecked(c) && !Ended(rest) then None else Some(Parsed(cmd, rest, b.value.line))
  }

  predicate Sep(c: char) { Blank(c) || c == ';' || c == '\n' }

  function SkipSeps(t: string): (r: string)
    ensures |r| <= |t|
  {
    if t != "" && Sep(t[0]) then SkipSeps(t[1..]) else t
  }

  /** A command and the text it is read from, which goes on to the end of the script. */
  datatype Item = Item(cmd: Cmd, from: string)

  /** A whole script; none if sed rejects it. */
  function Items(t: string): Option<seq<Item>>
    decreases |t|
  {
    var u := SkipSeps(t);
    if u == "" then Some([])
    else if u[0] == '#' then Items(SkipLine(u[1..]))
    else
      var c := One(u);
      if c.None? then None
      else
        var more := Items(c.value.rest);
        if more.None? then None else Some([Item(c.value.cmd, u)] + more.value)
  }

  function Cmds(items: seq<Item>): (cs: seq<Cmd>)
    ensures |cs| == |items| && forall k :: 0 <= k < |cs| ==> cs[k] == items[k].cmd
  {
    if items == [] then [] else [items[0].cmd] + Cmds(items[1..])
  }

  // ---- segments

  /** A segment with nothing in it. */
  predicate Empty(t: string) { SkipWs(t) == "" }

  /** A text that is one command and nothing else, wherever its line ends. */
  predicate Single(t: string) {
    One(SkipWs(t)).Some? && One(SkipWs(t)).value.rest == "" && !One(SkipWs(t)).value.line
  }

  function CmdOf(t: string): Cmd
    requires Single(t)
  {
    One(SkipWs(t)).value.cmd
  }

  // ---- a command reads the same when a separator and more text follow it

  predicate Follow(r: string) { r == "" || r[0] == ';' || r[0] == '\n' }

  lemma {:induction false} WsFollowed(t: string, r: string)
    requires Follow(r)
    ensures SkipWs(t + r) == SkipWs(t) + r
  {
    if t == "" {
      assert t + r == r;
      assert SkipWs(r) == r;
    } else if Blank(t[0]) {
      WsFollowed(t[1..], r);
      assert (t + r)[1..] == t[1..] + r;
    } else {
      assert (t + r)[0] == t[0];
    }
  }

  lemma {:induction false} DigitsFollowed(t: string, r: string)
    requires Follow(r)
    ensures SkipDigits(t + r) == SkipDigits(t) + r
  {
    if t == "" {
      assert t + r == r;
    } else if Digit(t[0]) {
      DigitsFollowed(t[1..], r);
      assert (t + r)[1..] == t[1..] + r;
    }
  }

  lemma {:induction false} BangsFollowed(t: string, r: string)
    requires Follow(r)
    ensures SkipBangs(t + r) == SkipBangs(t) + r
    decreases |t|
  {
    if t == "" {
      assert t + r == r;
    } else if t[0] == '!' {
      WsFollowed(t[1..], r);
      BangsFollowed(SkipWs(t[1..]), r);
      assert (t + r)[1..] == t[1..] + r;
    }
  }

  lemma {:induction false} FieldFollowed(t: string, delim: char, r: string)
    requires Field(t, delim).Some?
    ensures Field(t + r, delim) == Some(Field(t, delim).value + r)
    decreases |t|
  {
    if t[0] == delim {
      assert (t + r)[1..] == t[1..] + r;
    } else if t[0] == '\\' && 1 < |t| {
      FieldFollowed(t[2..], delim, r);
      assert (t + r)[2..] == t[2..] + r;
    } else {
      FieldFollowed(t[1..], delim, r);
      assert (t + r)[1..] == t[1..] + r;
    }
  }

  lemma {:induction false} AddressFollowed(t: string, r: string)
    requires Follow(r) && Address(t).Found? && t != "" && !(t == "\\" && r != "")
    ensures Address(t + r) == Found(Address(t).present, Address(t).rest + r)
  {
    hide Field, SkipDigits;
    DigitsFollowed(t, r);
    assert (t + r)[1..] == t[1..] + r;
    if t[0] == '/' && Field(t[1..], '/').Some? { FieldFollowed(t[1..], '/', r); }
    if t[0] == '\\' && 1 < |t| {
      assert (t + r)[2..] == t[2..] + r;
      if Field(t[2..], t[1]).Some? { FieldFollowed(t[2..], t[1], r); }
    }
  }

  lemma {:induction false} BangsOfFollowed(naddr: nat, t: string, r: string)
    requires Follow(r)
    ensures Bangs(naddr, t + r) == Bangs(naddr, t).(rest := Bangs(naddr, t).rest + r)
  {
    WsFollowed(t, r);
    BangsFollowed(SkipWs(t), r);
    hide SkipWs, SkipBangs;
  }

  lemma {:induction false} HeadFollowed(t: string, r: string)
    requires Follow(r) && Head(t).Some? && Head(t).value.rest != "" && Head(t).value.rest != "\\"
    ensures Head(t + r) == Some(Head(t).value.(rest := Head(t).value.rest + r))
  {
    var a := Address(t);
    assert t != "" && t != "\\";
    AddressFollowed(t, r);
    if !a.present {
      BangsOfFollowed(0, t, r);
    } else {
      var u := SkipWs(a.rest);
      WsFollowed(a.rest, r);
      if !Starts(u, ',') {
        BangsOfFollowed(1, u, r);
      } else {
        assert (u + r)[1..] == u[1..] + r;
        var v := SkipWs(u[1..]);
        WsFollowed(u[1..], r);
        assert v != "" && v != "\\";
        AddressFollowed(v, r);
        BangsOfFollowed(2, Address(v).rest, r);
      }
      hide SkipWs, SkipBangs, Address;
    }
  }

  lemma {:induction false} NameFollowed(t: string, r: string)
    requires Follow(r)
    ensures Name(t + r) == Name(t)
  {
    if t == "" {
      assert t + r == r;
    } else if !EndsName(t[0]) {
      NameFollowed(t[1..], r);
      assert (t + r)[1..] == t[1..] + r;
    }
  }

  lemma {:induction false} ZerosFollowed(t: string, r: string)
    requires Follow(r)
    ensures SkipZeros(t + r) == SkipZeros(t) + r
  {
    if t == "" {
      assert t + r == r;
    } else if t[0] == '0' {
      ZerosFollowed(t[1..], r);
      assert (t + r)[1..] == t[1..] + r;
    }
  }

  lemma {:induction false} FlagsFollowed(t: string, r: string)
    requires Follow(r) && SubstFlags(t).Some? && !SubstFlags(t).value.line
    ensures SubstFlags(t + r) == Some(Tail(SubstFlags(t).value.rest + r, false))
    decreases |t|
  {
    if t == "" {
      assert t + r == r;
    } else {
      assert (t + r)[1..] == t[1..] + r;
      if Digit(t[0]) {
        var z := SkipZeros(t);
        ZerosFollowed(t, r);
        assert (z + r)[1..] == z[1..] + r;
        DigitsFollowed(z[1..], r);
        FlagsFollowed(SkipDigits(z[1..]), r);
        hide SkipZeros, SkipDigits;
      } else if t[0] == 'g' || t[0] == 'p' {
        FlagsFollowed(t[1..], r);
      }
    }
  }

  lemma {:induction false} GrowsFollowed(t: string, delim: char, r: string)
    requires Field(t, delim).Some?
    ensures Grows(t + r, delim) == Grows(t, delim)
    decreases |t|
  {
    if t[0] != delim {
      if t[0] == '\\' && 1 < |t| {
        GrowsFollowed(t[2..], delim, r);
        assert (t + r)[2..] == t[2..] + r;
      } else {
        GrowsFollowed(t[1..], delim, r);
        assert (t + r)[1..] == t[1..] + r;
      }
    }
  }

  lemma {:induction false} SizeFollowed(t: string, delim: char, r: string)
    requires Field(t, delim).Some?
    ensures FieldSize(t + r, delim) == FieldSize(t, delim) && FieldBreaks(t + r, delim) == FieldBreaks(t, delim)
    decreases |t|
  {
    if t[0] != delim {
      if t[0] == '\\' && 1 < |t| {
        SizeFollowed(t[2..], delim, r);
        assert (t + r)[2..] == t[2..] + r;
      } else {
        SizeFollowed(t[1..], delim, r);
        assert (t + r)[1..] == t[1..] + r;
      }
    }
  }

  lemma {:induction false} SubstFollowed(t: string, r: string)
    requires Follow(r) && Subst(t).Some? && !Subst(t).value.line
    ensures Subst(t + r) == Some(Tail(Subst(t).value.rest + r, false)) && SubstGrows(t + r) == SubstGrows(t)
  {
    hide Field, SubstFlags, Grows;
    assert (t + r)[1..] == t[1..] + r;
    FieldFollowed(t[1..], t[0], r);
    var re := Field(t[1..], t[0]).value;
    FieldFollowed(re, t[0], r);
    GrowsFollowed(re, t[0], r);
    FlagsFollowed(Field(re, t[0]).value, r);
  }

  lemma {:induction false} TransFollowed(t: string, r: string)
    requires Trans(t).Some?
    ensures Trans(t + r) == Some(Trans(t).value + r) && TransBreaks(t + r) == TransBreaks(t)
  {
    hide Field, FieldSize, FieldBreaks;
    assert (t + r)[1..] == t[1..] + r;
    FieldFollowed(t[1..], t[0], r);
    SizeFollowed(t[1..], t[0], r);
    var from := Field(t[1..], t[0]).value;
    FieldFollowed(from, t[0], r);
    SizeFollowed(from, t[0], r);
  }

  lemma {:induction false} BodyFollowed(c: char, t: string, r: string)
    requires Follow(r) && Body(c, t).Some? && !Body(c, t).value.line
    ensures Body(c, t + r) == Some(Body(c, t).value.(rest := Body(c, t).value.rest + r))
  {
    hide SkipWs, Name, Subst, Trans, SubstGrows, TransBreaks, Letter;
    if TakesName(c) {
      var u := SkipWs(t);
      WsFollowed(t, r);
      NameFollowed(u, r);
      assert (u + r)[|Name(u)|..] == u[|Name(u)|..] + r;
    } else if c == 's' {
      SubstFollowed(t, r);
    } else if c == 'y' {
      TransFollowed(t, r);
    }
  }

  /** A command that stands alone is read the same in front of a separator. */
  lemma {:induction false} OneFollowed(t: string, r: string)
    requires Follow(r) && One(t).Some? && One(t).value.rest == "" && !One(t).value.line
    ensures One(t + r) == Some(Parsed(One(t).value.cmd, r, false))
  {
    hide SkipWs, Head, Body;
    if Starts(t, '}') {
      assert (t + r)[1..] == t[1..] + r;
    } else {
      var h := Head(t).value;
      var c, u := h.rest[0], h.rest[1..];
      BodyKnown(c, u);
      HeadFollowed(t, r);
      assert (h.rest + r)[1..] == u + r && (h.rest + r)[0] == c;
      BodyFollowed(c, u, r);
      WsFollowed(Body(c, u).value.rest, r);
      assert "" + r == r && Ended(r);
    }
  }

  lemma {:induction false} BodyKnown(c: char, t: string)
    requires Body(c, t).Some?
    ensures c != '\\' && c != ',' && c != '!' && c != '#' && !Sep(c)
  {
  }

  // ---- a script of single commands, read by sed

  /** Every text is one command, or empty. */
  ghost predicate Singles(texts: seq<string>) { forall k :: 0 <= k < |texts| ==> Empty(texts[k]) || Single(texts[k]) }

  /** Texts joined by separators. */
  ghost predicate Joined(t: string, texts: seq<string>)
    decreases |texts|
  {
    texts != [] && texts[0] <= t &&
    if |texts| == 1 then t == texts[0]
    else |texts[0]| < |t| && Follow(t[|texts[0]|..]) && Joined(t[|texts[0]| + 1..], texts[1..])
  }

  /** The commands of the texts that are not empty. */
  ghost function Alone(t: string, texts: seq<string>): seq<Item>
    requires Joined(t, texts) && Singles(texts)
    decreases |texts|
  {
    var more := if |texts| == 1 then [] else Alone(t[|texts[0]| + 1..], texts[1..]);
    if Empty(texts[0]) then more
    else [Item(CmdOf(texts[0]), SkipWs(texts[0]) + t[|texts[0]|..])] + more
  }

  lemma {:induction false} SepsOfEmpty(t: string, r: string)
    requires Empty(t)
    ensures SkipSeps(t + r) == SkipSeps(r)
  {
    if t == "" {
      assert t + r == r;
    } else {
      SepsOfEmpty(t[1..], r);
      assert (t + r)[1..] == t[1..] + r;
    }
  }

  lemma {:induction false} SepsOfOne(t: string, r: string)
    requires !Empty(t) && One(SkipWs(t)).Some?
    ensures SkipSeps(t + r) == SkipWs(t) + r
  {
    if Blank(t[0]) {
      SepsOfOne(t[1..], r);
      assert (t + r)[1..] == t[1..] + r;
    } else {
      NoLeadingSep(t);
    }
  }

  lemma {:induction false} NoLeadingSep(t: string)
    requires t != "" && One(t).Some?
    ensures t[0] != ';' && t[0] != '\n' && t[0] != '#'
  {
    hide Body;
    if t[0] != '}' {
      var h := Head(t).value;
      BodyKnown(h.rest[0], h.rest[1..]);
    }
  }

  /** sed's parser reads a script of single commands as just those. */
  lemma {:induction false} ItemsAlone(t: string, texts: seq<string>)
    requires Joined(t, texts) && Singles(texts)
    ensures Items(t) == Some(Alone(t, texts))
    decreases |texts|
  {
    hide One, SkipWs, SkipSeps;
    var u := texts[0];
    var r := t[|u|..];
    assert t == u + r;
    if |texts| == 1 {
      ItemsEnd(r);
    } else {
      assert t[|u| + 1..] == r[1..];
      ItemsAlone(r[1..], texts[1..]);
      ItemsSkip(r);
    }
    if Empty(u) {
      SepsOfEmpty(u, r);
    } else {
      SepsOfOne(u, r);
      OneFollowed(SkipWs(u), r);
      assert One(SkipWs(u)).Some?;
      NoLeadingSep(SkipWs(u));
      assert (SkipWs(u) + r)[0] == SkipWs(u)[0];
    }
  }

  lemma {:induction false} ItemsEnd(r: string)
    requires r == ""
    ensures Items(r) == Some([])
  {
  }

  lemma {:induction false} ItemsSkip(r: string)
    requires r != "" && Follow(r)
    ensures Items(r) == Items(r[1..])
  {
  }
}
