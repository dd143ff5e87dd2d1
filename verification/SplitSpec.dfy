// crt/crt1.c: splitting the one command line Windows hands a process into argv.

/** What the splitter computes, as functions on the text that is left. */
module SplitSpec {
  import opened Utf16

  /** One argument and the text after it. */
  datatype Piece = Piece(arg: seq<Wchar>, rest: seq<Wchar>) {
    function Prefix(a: seq<Wchar>): Piece { Piece(a + arg, rest) }
  }

  function SkipBlanks(s: seq<Wchar>): (t: seq<Wchar>)
    ensures |t| <= |s|
    ensures t != [] ==> !Blank(t[0])
  {
    if s != [] && Blank(s[0]) then SkipBlanks(s[1..]) else s
  }

  /** The program name: quotes only delimit, backslashes are ordinary. */
  function ProgramName(s: seq<Wchar>, inq: bool): (r: Piece)
    ensures |r.arg| + |r.rest| <= |s|
    ensures QUOTE !in r.arg
    ensures r.rest == [] || Blank(r.rest[0])
  {
    if s == [] then Piece([], s)
    else if s[0] == QUOTE then ProgramName(s[1..], !inq)
    else if !inq && Blank(s[0]) then Piece([], s)
    else ProgramName(s[1..], inq).Prefix([s[0]])
  }

  /** One argument, from its first unit on, under the backslash and quote rules. */
  function Argument(s: seq<Wchar>, inq: bool): (r: Piece)
    ensures |r.arg| + |r.rest| <= |s|
    ensures s != [] && !Blank(s[0]) ==> |r.rest| < |s|
    ensures r.rest == [] || Blank(r.rest[0])
    decreases |s|
  {
    if s == [] then Piece([], s)
    else if s[0] == BACKSLASH then
      var n := RunLen(s);
      if n < |s| && s[n] == QUOTE then
        if n % 2 == 1 then Argument(s[n + 1..], inq).Prefix(Repeat(BACKSLASH, n / 2) + [QUOTE])
        else Argument(s[n..], inq).Prefix(Repeat(BACKSLASH, n / 2))
      else Argument(s[n..], inq).Prefix(Repeat(BACKSLASH, n))
    else if s[0] == QUOTE then
      if inq && 1 < |s| && s[1] == QUOTE then Argument(s[2..], inq).Prefix([QUOTE])
      else Argument(s[1..], !inq)
    else if !inq && Blank(s[0]) then Piece([], s)
    else Argument(s[1..], inq).Prefix([s[0]])
  }

  function Arguments(s: seq<Wchar>): (r: seq<seq<Wchar>>)
    ensures |r| <= |s|
    decreases |s|
  {
    var t := SkipBlanks(s);
    if t == [] then [] else
      var piece := Argument(t, false);
      [piece.arg] + Arguments(piece.rest)
  }

  function Split(s: seq<Wchar>): (r: seq<seq<Wchar>>)
    ensures 1 <= |r| <= |s| + 1
  {
    var name := ProgramName(SkipBlanks(s), false);
    [name.arg] + Arguments(name.rest)
  }
}
