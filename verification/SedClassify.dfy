// fuzz/fuzz_sed.c: classifying the segments of a script.

/** Telling labels, branches and consuming commands apart. */
module SedClassify {
  import opened Ascii

  datatype Kind = Other | Label(name: string) | Branch(name: string) | Consume

  predicate Blank(c: char) { c == ' ' || c == '\t' }

  predicate AllBlank(t: string) { forall k :: 0 <= k < |t| ==> Blank(t[k]) }

  predicate Starts(t: string, c: char) { t != "" && t[0] == c }

  function SkipWs(t: string): (r: string)
    ensures |r| <= |t|
  {
    if t != "" && Blank(t[0]) then SkipWs(t[1..]) else t
  }

  function SkipDigits(t: string): (r: string)
    ensures |r| <= |t|
  {
    if t != "" && Digit(t[0]) then SkipDigits(t[1..]) else t
  }

  /** Past the next `delim` that no backslash protects, or the end. */
  function SkipPast(t: string, delim: char): (r: string)
    ensures |r| <= |t|
    decreases |t|
  {
    if t == "" then t
    else if t[0] == delim then t[1..]
    else if t[0] == '\\' && 1 < |t| then SkipPast(t[2..], delim)
    else SkipPast(t[1..], delim)
  }

  function SkipAddress(t: string): (r: string)
    ensures |r| <= |t|
  {
    if t != "" && Digit(t[0]) then SkipDigits(t)
    else if Starts(t, '$') then t[1..]
    else if Starts(t, '/') then SkipPast(t[1..], '/')
    else if Starts(t, '\\') && 1 < |t| then SkipPast(t[2..], t[1])
    else t
  }

  function SkipBangs(t: string): (r: string)
    ensures |r| <= |t|
    decreases |t|
  {
    if Starts(t, '!') then SkipBangs(SkipWs(t[1..])) else t
  }

  /** The text after one address and the blanks around it. */
  function AfterAddress(t: string): (r: string)
    ensures |r| <= |t|
  {
    SkipWs(SkipAddress(SkipWs(t)))
  }

  /** The text from the command letter on. */
  function Command(t: string): (r: string)
    ensures |r| <= |t|
  {
    var u := AfterAddress(t);
    SkipBangs(if Starts(u, ',') then AfterAddress(u[1..]) else u)
  }

  function Word(t: string): string {
    if t == "" || Blank(t[0]) then "" else [t[0]] + Word(t[1..])
  }

  predicate Consuming(c: char) { c == 'n' || c == 'N' || c == 'd' || c == 'D' || c == 'q' || c == 'Q' }

  function Classify(t: string): Kind { Kinded(Command(t)) }

  /** The kind of a segment whose text from the command letter on is p. */
  function Kinded(p: string): Kind {
    if p == "" then Other
    else if p[0] == ':' then Label(Word(SkipWs(p[1..])))
    else if p[0] == 'b' || p[0] == 't' then Branch(SkipWs(p[1..]))
    else if Consuming(p[0]) then Consume
    else Other
  }

  // the scanning loops

  method SkipWsFrom(t: string, start: nat) returns (i: nat)
    requires start <= |t|
    ensures start <= i <= |t| && t[i..] == SkipWs(t[start..])
  {
    i := start;
    while i < |t| && Blank(t[i])
      invariant start <= i <= |t| && SkipWs(t[i..]) == SkipWs(t[start..])
    {
      assert t[i..][1..] == t[i + 1..];
      i := i + 1;
    }
  }

  lemma {:induction false} PastStep(t: string, i: nat, delim: char)
    requires i < |t| && t[i] != delim
    ensures SkipPast(t[i..], delim) == SkipPast(t[if t[i] == '\\' && i + 1 < |t| then i + 2 else i + 1..], delim)
  {
    assert t[i..][1..] == t[i + 1..];
    assert i + 1 < |t| ==> t[i..][2..] == t[i + 2..];
  }

  method SkipPastFrom(t: string, start: nat, delim: char) returns (i: nat)
    requires start <= |t|
    ensures start <= i <= |t| && t[i..] == SkipPast(t[start..], delim)
  {
    i := start;
    while i < |t| && t[i] != delim
      invariant start <= i <= |t| && SkipPast(t[i..], delim) == SkipPast(t[start..], delim)
      decreases |t| - i
    {
      PastStep(t, i, delim);
      i := if t[i] == '\\' && i + 1 < |t| then i + 2 else i + 1;
    }
    if i < |t| {
      assert t[i..][1..] == t[i + 1..];
      i := i + 1;
    }
  }

  method SkipDigitsFrom(t: string, start: nat) returns (i: nat)
    requires start <= |t|
    ensures start <= i <= |t| && t[i..] == SkipDigits(t[start..])
  {
    i := start;
    while i < |t| && Digit(t[i])
      invariant start <= i <= |t| && SkipDigits(t[i..]) == SkipDigits(t[start..])
    {
      assert t[i..][1..] == t[i + 1..];
      i := i + 1;
    }
  }

  method SkipOneAddress(t: string, start: nat) returns (i: nat)
    requires start <= |t|
    ensures start <= i <= |t| && t[i..] == SkipAddress(t[start..])
  {
    hide SkipPast, SkipDigits;
    i := start;
    if i < |t| && Digit(t[i]) {
      i := SkipDigitsFrom(t, i);
      return;
    }
    if i < |t| && t[i] == '$' {
      assert t[i..][1..] == t[i + 1..];
      return i + 1;
    }
    if i < |t| && (t[i] == '/' || (t[i] == '\\' && i + 1 < |t|)) {
      var delim, skip := if t[i] == '/' then '/' else t[i + 1], if t[i] == '/' then 1 else 2;
      assert t[i..][skip..] == t[i + skip..];
      i := SkipPastFrom(t, i + skip, delim);
    }
  }

  method AfterAddressFrom(t: string, start: nat) returns (i: nat)
    requires start <= |t|
    ensures start <= i <= |t| && t[i..] == AfterAddress(t[start..])
  {
    i := SkipWsFrom(t, start);
    i := SkipOneAddress(t, i);
    i := SkipWsFrom(t, i);
  }

  method SkipBangsFrom(t: string, start: nat) returns (i: nat)
    requires start <= |t|
    ensures start <= i <= |t| && t[i..] == SkipBangs(t[start..])
  {
    i := start;
    while i < |t| && t[i] == '!'
      invariant start <= i <= |t| && SkipBangs(t[i..]) == SkipBangs(t[start..])
      decreases |t| - i
    {
      assert t[i..][1..] == t[i + 1..];
      i := SkipWsFrom(t, i + 1);
    }
  }

  lemma {:induction false} WordStep(t: string, start: nat, i: nat)
    requires start <= i < |t| && !Blank(t[i])
    ensures t[start..i + 1] + Word(t[i + 1..]) == t[start..i] + Word(t[i..])
  {
    assert t[i..][1..] == t[i + 1..];
    var w := Word(t[i + 1..]);
    hide Word;
    assert t[start..i + 1] == t[start..i] + [t[i]];
    assert t[start..i] + [t[i]] + w == t[start..i] + ([t[i]] + w);
  }

  method WordFrom(t: string, start: nat) returns (i: nat)
    requires start <= |t|
    ensures start <= i <= |t| && t[start..i] == Word(t[start..])
  {
    i := start;
    while i < |t| && !Blank(t[i])
      invariant start <= i <= |t| && t[start..i] + Word(t[i..]) == Word(t[start..])
    {
      WordStep(t, start, i);
      i := i + 1;
    }
  }

  method CommandFrom(t: string) returns (i: nat)
    ensures i <= |t| && t[i..] == Command(t)
  {
    assert t[0..] == t;
    i := AfterAddressFrom(t, 0);
    if i < |t| && t[i] == ',' {
      assert t[i..][1..] == t[i + 1..];
      i := AfterAddressFrom(t, i + 1);
    }
    i := SkipBangsFrom(t, i);
  }

  method ClassifySegment(t: string) returns (k: Kind)
    ensures k == Classify(t)
  {
    hide Command;
    var i := CommandFrom(t);
    if i == |t| { return Other; }
    assert t[i..][1..] == t[i + 1..];
    if t[i] == ':' {
      var j := SkipWsFrom(t, i + 1);
      var q := WordFrom(t, j);
      return Label(t[j..q]);
    }
    if t[i] == 'b' || t[i] == 't' {
      var j := SkipWsFrom(t, i + 1);
      return Branch(t[j..]);
    }
    if Consuming(t[i]) { return Consume; }
    return Other;
  }
}
