// crt/crt1.c: how a command line is written, unit by unit, and that the splitter reads every line so written.

/** The published rules as a grammar. */
module CommandGrammar {
  import opened Utf16
  import opened SplitSpec

  /** What an argument is written with: an ordinary unit, backslashes no quote follows, 2n + 1 backslashes and a
      quote that stands for itself, 2n and one that opens or closes, and, inside quotes, 2n and two quotes. */
  datatype Unit = Plain(c: Wchar) | Slashes(n: nat) | Escaped(n: nat) | Switch(n: nat) | Doubled(n: nat)

  function UnitText(u: Unit): (s: seq<Wchar>)
    ensures !u.Slashes? ==> s != []
  {
    match u
    case Plain(c) => [c]
    case Slashes(n) => Repeat(BACKSLASH, n)
    case Escaped(n) => Repeat(BACKSLASH, 2 * n + 1) + [QUOTE]
    case Switch(n) => Repeat(BACKSLASH, 2 * n) + [QUOTE]
    case Doubled(n) => Repeat(BACKSLASH, 2 * n) + [QUOTE, QUOTE]
  }

  /** What it stands for. */
  function UnitValue(u: Unit): seq<Wchar> {
    match u
    case Plain(c) => [c]
    case Slashes(n) => Repeat(BACKSLASH, n)
    case Escaped(n) => Repeat(BACKSLASH, n) + [QUOTE]
    case Switch(n) => Repeat(BACKSLASH, n)
    case Doubled(n) => Repeat(BACKSLASH, n) + [QUOTE]
  }

  function After(u: Unit, inq: bool): bool { if u.Switch? then !inq else inq }

  /** The units in front of t. */
  function Text(us: seq<Unit>, t: seq<Wchar>): seq<Wchar> {
    if us == [] then t else UnitText(us[0]) + Text(us[1..], t)
  }

  function Value(us: seq<Unit>): seq<Wchar> { if us == [] then [] else UnitValue(us[0]) + Value(us[1..]) }

  /** Whether a unit can stand there, in front of `next`. */
  predicate Stands(u: Unit, inq: bool, next: seq<Wchar>) {
    match u
    case Plain(c) => c != BACKSLASH && c != QUOTE && (inq || !Blank(c))
    case Slashes(n) => 0 < n && (next == [] || (next[0] != BACKSLASH && next[0] != QUOTE))
    case Escaped(_) => true
    case Switch(_) => inq ==> next == [] || next[0] != QUOTE
    case Doubled(_) => inq
  }

  /** The units make one argument, which t ends: the line's end, or a blank outside quotes. */
  predicate Written(us: seq<Unit>, inq: bool, t: seq<Wchar>) {
    if us == [] then t == [] || (!inq && Blank(t[0]))
    else Stands(us[0], inq, Text(us[1..], t)) && Written(us[1..], After(us[0], inq), t)
  }

  // ---- one unit

  lemma {:induction false} RunBefore(n: nat, next: seq<Wchar>)
    requires next == [] || next[0] != BACKSLASH
    ensures var s := Repeat(BACKSLASH, n) + next; RunLen(s) == n && s[n..] == next
  {
    RunLenOf(n, next);
  }

  lemma {:induction false} SlashesRead(n: nat, next: seq<Wchar>, inq: bool)
    requires 0 < n && (next == [] || (next[0] != BACKSLASH && next[0] != QUOTE))
    ensures Argument(Repeat(BACKSLASH, n) + next, inq) == Argument(next, inq).Prefix(Repeat(BACKSLASH, n))
  {
    RunBefore(n, next);
    var s := Repeat(BACKSLASH, n) + next;
    assert s[0] == BACKSLASH && (n < |s| ==> s[n] == next[0]);
  }

  lemma {:induction false} EscapedReads(n: nat, next: seq<Wchar>, inq: bool)
    ensures Argument(Repeat(BACKSLASH, 2 * n + 1) + [QUOTE] + next, inq)
         == Argument(next, inq).Prefix(Repeat(BACKSLASH, n) + [QUOTE])
  {
    var m, q := 2 * n + 1, [QUOTE] + next;
    RunBefore(m, q);
    var s := Repeat(BACKSLASH, m) + q;
    assert s == Repeat(BACKSLASH, m) + [QUOTE] + next && s[0] == BACKSLASH && s[m] == QUOTE;
    assert s[m + 1..] == next && m % 2 == 1 && m / 2 == n;
  }

  /** An even run before a quote is halved, and the quote read for itself. */
  lemma {:induction false} EvenRead(n: nat, q: seq<Wchar>, inq: bool)
    requires q != [] && q[0] == QUOTE
    ensures Argument(Repeat(BACKSLASH, 2 * n) + q, inq) == Argument(q, inq).Prefix(Repeat(BACKSLASH, n))
  {
    var m := 2 * n;
    var s := Repeat(BACKSLASH, m) + q;
    RunBefore(m, q);
    if n == 0 {
      assert s == q && Repeat(BACKSLASH, 0) + Argument(q, inq).arg == Argument(q, inq).arg;
    } else {
      assert s[0] == BACKSLASH && s[m] == QUOTE && m % 2 == 0 && m / 2 == n;
    }
  }

  lemma {:induction false} SwitchReads(n: nat, next: seq<Wchar>, inq: bool)
    requires inq ==> next == [] || next[0] != QUOTE
    ensures Argument(Repeat(BACKSLASH, 2 * n) + [QUOTE] + next, inq)
         == Argument(next, !inq).Prefix(Repeat(BACKSLASH, n))
  {
    var q := [QUOTE] + next;
    EvenRead(n, q, inq);
    assert q[1..] == next && Argument(q, inq) == Argument(next, !inq);
    assert Repeat(BACKSLASH, 2 * n) + [QUOTE] + next == Repeat(BACKSLASH, 2 * n) + q;
  }

  lemma {:induction false} DoubledReads(n: nat, next: seq<Wchar>)
    ensures Argument(Repeat(BACKSLASH, 2 * n) + [QUOTE, QUOTE] + next, true)
         == Argument(next, true).Prefix(Repeat(BACKSLASH, n) + [QUOTE])
  {
    var q, r := [QUOTE, QUOTE] + next, Argument(next, true);
    EvenRead(n, q, true);
    assert q[2..] == next && Argument(q, true) == r.Prefix([QUOTE]);
    assert Repeat(BACKSLASH, 2 * n) + [QUOTE, QUOTE] + next == Repeat(BACKSLASH, 2 * n) + q;
    assert Repeat(BACKSLASH, n) + ([QUOTE] + r.arg) == Repeat(BACKSLASH, n) + [QUOTE] + r.arg;
  }

  lemma {:induction false} PlainReads(c: Wchar, next: seq<Wchar>, inq: bool)
    requires c != BACKSLASH && c != QUOTE && (inq || !Blank(c))
    ensures Argument([c] + next, inq) == Argument(next, inq).Prefix([c])
  {
    assert ([c] + next)[1..] == next;
  }

  lemma {:induction false} UnitReads(u: Unit, inq: bool, next: seq<Wchar>)
    requires Stands(u, inq, next)
    ensures Argument(UnitText(u) + next, inq) == Argument(next, After(u, inq)).Prefix(UnitValue(u))
  {
    hide Argument;
    match u {
      case Plain(c) => PlainReads(c, next, inq);
      case Slashes(n) => SlashesRead(n, next, inq);
      case Escaped(n) => EscapedReads(n, next, inq);
      case Switch(n) => SwitchReads(n, next, inq);
      case Doubled(n) => DoubledReads(n, next);
    }
  }

  // ---- arguments

  /** What is written is what is read. */
  lemma {:induction false} ArgumentReads(us: seq<Unit>, inq: bool, t: seq<Wchar>)
    requires Written(us, inq, t)
    ensures Argument(Text(us, t), inq) == Piece(Value(us), t)
  {
    hide UnitText, UnitValue;
    if us != [] {
      var next := Text(us[1..], t);
      ArgumentReads(us[1..], After(us[0], inq), t);
      UnitReads(us[0], inq, next);
    }
  }

  /** Every text is written in this grammar up to where its first argument ends. */
  lemma {:induction false} EveryArgument(s: seq<Wchar>, inq: bool) returns (us: seq<Unit>, t: seq<Wchar>)
    ensures Written(us, inq, t) && Text(us, t) == s
    decreases |s|
  {
    if s == [] || (!inq && Blank(s[0])) {
      us, t := [], s;
    } else {
      var u, next := FirstUnit(s, inq);
      var more;
      more, t := EveryArgument(next, After(u, inq));
      us := [u] + more;
      assert us[1..] == more;
    }
  }

  lemma {:induction false} FirstUnit(s: seq<Wchar>, inq: bool) returns (u: Unit, next: seq<Wchar>)
    requires s != [] && (inq || !Blank(s[0]))
    ensures Stands(u, inq, next) && UnitText(u) + next == s && |next| < |s|
  {
    var n := RunLen(s);
    RunIsRepeat(s);
    if n < |s| && s[n] == QUOTE {
      u, next := QuoteUnit(s, n, inq);
    } else if 0 < n {
      u, next := Slashes(n), s[n..];
      assert s == s[..n] + s[n..];
    } else {
      u, next := Plain(s[0]), s[1..];
    }
  }

  /** A run of backslashes and the quote behind it. */
  lemma {:induction false} QuoteUnit(s: seq<Wchar>, n: nat, inq: bool) returns (u: Unit, next: seq<Wchar>)
    requires n < |s| && s[n] == QUOTE && s[..n] == Repeat(BACKSLASH, n)
    ensures Stands(u, inq, next) && UnitText(u) + next == s && |next| < |s|
  {
    var k := n / 2;
    if n % 2 == 1 {
      u, next := Escaped(k), s[n + 1..];
      assert n == 2 * k + 1;
      assert s == s[..n] + [QUOTE] + next;
    } else if inq && n + 1 < |s| && s[n + 1] == QUOTE {
      u, next := Doubled(k), s[n + 2..];
      assert n == 2 * k;
      assert s == s[..n] + [QUOTE, QUOTE] + next;
    } else {
      u, next := Switch(k), s[n + 1..];
      assert n == 2 * k;
      assert s == s[..n] + [QUOTE] + next;
    }
  }

  // ---- lines

  predicate AllBlank(s: seq<Wchar>) { forall k :: 0 <= k < |s| ==> Blank(s[k]) }

  /** An argument and the blanks before it. */
  datatype Word = Word(gap: seq<Wchar>, units: seq<Unit>)

  function WordsText(ws: seq<Word>, tail: seq<Wchar>): seq<Wchar> {
    if ws == [] then tail else ws[0].gap + Text(ws[0].units, WordsText(ws[1..], tail))
  }

  function Values(ws: seq<Word>): seq<seq<Wchar>> {
    if ws == [] then [] else [Value(ws[0].units)] + Values(ws[1..])
  }

  predicate WordsWritten(ws: seq<Word>, tail: seq<Wchar>) {
    if ws == [] then AllBlank(tail)
    else
      && ws[0].gap != [] && AllBlank(ws[0].gap) && ws[0].units != []
      && Written(ws[0].units, false, WordsText(ws[1..], tail)) && WordsWritten(ws[1..], tail)
  }

  lemma {:induction false} BlanksSkipped(gap: seq<Wchar>, s: seq<Wchar>)
    requires AllBlank(gap) && (s == [] || !Blank(s[0]))
    ensures SkipBlanks(gap + s) == s
  {
    if gap == [] {
      assert gap + s == s;
    } else {
      BlanksSkipped(gap[1..], s);
      assert (gap + s)[1..] == gap[1..] + s;
    }
  }

  /** An argument does not begin with a blank. */
  lemma {:induction false} BeginsWithin(us: seq<Unit>, t: seq<Wchar>)
    requires us != [] && Written(us, false, t)
    ensures Text(us, t) != [] && !Blank(Text(us, t)[0])
  {
    var u := us[0];
    assert UnitText(u) != [];
    assert !Blank(UnitText(u)[0]);
  }

  lemma {:induction false} ArgumentsRead(ws: seq<Word>, tail: seq<Wchar>)
    requires WordsWritten(ws, tail)
    ensures Arguments(WordsText(ws, tail)) == Values(ws)
  {
    hide Argument, Text, Written;
    if ws == [] {
      BlanksSkipped(tail, []);
      assert tail + [] == tail;
    } else {
      var more := WordsText(ws[1..], tail);
      var s := Text(ws[0].units, more);
      BeginsWithin(ws[0].units, more);
      BlanksSkipped(ws[0].gap, s);
      ArgumentReads(ws[0].units, false, more);
      ArgumentsRead(ws[1..], tail);
    }
  }

  /** A program name: quotes only delimit. */
  predicate NameWritten(name: seq<Wchar>, inq: bool, t: seq<Wchar>) {
    if name == [] then t == [] || (!inq && Blank(t[0]))
    else if name[0] == QUOTE then NameWritten(name[1..], !inq, t)
    else (inq || !Blank(name[0])) && NameWritten(name[1..], inq, t)
  }

  function Unquoted(name: seq<Wchar>): seq<Wchar> {
    if name == [] then []
    else if name[0] == QUOTE then Unquoted(name[1..]) else [name[0]] + Unquoted(name[1..])
  }

  lemma {:induction false} NameReads(name: seq<Wchar>, inq: bool, t: seq<Wchar>)
    requires NameWritten(name, inq, t)
    ensures ProgramName(name + t, inq) == Piece(Unquoted(name), t)
  {
    if name == [] {
      assert name + t == t;
    } else {
      NameReads(name[1..], if name[0] == QUOTE then !inq else inq, t);
      assert (name + t)[1..] == name[1..] + t && (name + t)[0] == name[0];
    }
  }

  /** A line: blanks, the program name, the arguments with blanks before each, and blanks. */
  ghost predicate Line(line: seq<Wchar>, lead: seq<Wchar>, name: seq<Wchar>, ws: seq<Word>, tail: seq<Wchar>) {
    var rest := WordsText(ws, tail);
    && AllBlank(lead) && WordsWritten(ws, tail) && NameWritten(name, false, rest)
    && (name == [] ==> rest == []) && line == lead + (name + rest)
  }

  /** Every line so written splits into the name without its quotes and what the arguments stand for. */
  lemma {:induction false} SplitReads(line: seq<Wchar>, lead: seq<Wchar>, name: seq<Wchar>, ws: seq<Word>,
                                      tail: seq<Wchar>)
    requires Line(line, lead, name, ws, tail)
    ensures Split(line) == [Unquoted(name)] + Values(ws)
  {
    var rest := WordsText(ws, tail);
    assert name != [] ==> (name + rest)[0] == name[0];
    assert name == [] ==> name + rest == [];
    BlanksSkipped(lead, name + rest);
    NameReads(name, false, rest);
    ArgumentsRead(ws, tail);
    hide Argument, ProgramName, WordsText, WordsWritten, NameWritten;
  }

  lemma {:induction false} EveryWords(s: seq<Wchar>) returns (ws: seq<Word>, tail: seq<Wchar>)
    requires s == [] || Blank(s[0])
    ensures WordsWritten(ws, tail) && WordsText(ws, tail) == s
    decreases |s|
  {
    var gap, r := BlankPrefix(s);
    if r == [] {
      assert gap + r == gap;
      ws, tail := [], s;
    } else {
      var us, t := EveryArgument(r, false);
      ArgumentReads(us, false, t);
      assert us != [] || Text(us, t) == t;
      EndsShort(us, t);
      var more;
      more, tail := EveryWords(t);
      ws := [Word(gap, us)] + more;
      assert ws[1..] == more;
    }
  }

  /** What follows an argument is shorter than the argument and it. */
  lemma {:induction false} EndsShort(us: seq<Unit>, t: seq<Wchar>)
    ensures |t| <= |Text(us, t)|
  {
    if us != [] { EndsShort(us[1..], t); }
  }

  lemma {:induction false} BlankPrefix(s: seq<Wchar>) returns (gap: seq<Wchar>, r: seq<Wchar>)
    ensures s == gap + r && AllBlank(gap) && (r == [] || !Blank(r[0]))
    ensures s != [] && Blank(s[0]) ==> gap != []
  {
    if s == [] || !Blank(s[0]) {
      gap, r := [], s;
    } else {
      var g, q := BlankPrefix(s[1..]);
      gap, r := [s[0]] + g, q;
    }
  }

  lemma {:induction false} EveryName(s: seq<Wchar>, inq: bool) returns (name: seq<Wchar>, t: seq<Wchar>)
    ensures s == name + t && NameWritten(name, inq, t) && (t == [] || Blank(t[0]))
    ensures s != [] && !Blank(s[0]) ==> name != []
  {
    if s == [] || (!inq && Blank(s[0])) {
      name, t := [], s;
    } else {
      var more;
      more, t := EveryName(s[1..], if s[0] == QUOTE then !inq else inq);
      name := [s[0]] + more;
      assert name[1..] == more;
    }
  }

  /** Every line there is is so written. */
  lemma {:induction false} EveryLine(line: seq<Wchar>)
    returns (lead: seq<Wchar>, name: seq<Wchar>, ws: seq<Word>, tail: seq<Wchar>)
    ensures Line(line, lead, name, ws, tail) && Split(line) == [Unquoted(name)] + Values(ws)
  {
    var r, t;
    lead, r := BlankPrefix(line);
    name, t := EveryName(r, false);
    ws, tail := EveryWords(t);
    assert name == [] ==> t == [] by { if name == [] { assert r == t; } }
    SplitReads(line, lead, name, ws, tail);
  }

  // ---- quoting by doubling

  /** Every quote written twice. */
  function Doubling(a: seq<Wchar>): seq<Wchar> {
    if a == [] then []
    else (if a[0] == QUOTE then [QUOTE, QUOTE] else [a[0]]) + Doubling(a[1..])
  }

  /** Quotes may be written twice inside quotes instead of behind a backslash. */
  lemma {:induction false} DoublingReads(a: seq<Wchar>, t: seq<Wchar>)
    requires BACKSLASH !in a && (t == [] || Blank(t[0]))
    ensures Argument(Doubling(a) + ([QUOTE] + t), true) == Piece(a, t)
  {
    hide Argument;
    var closing := [QUOTE] + t;
    if a == [] {
      assert Written([Switch(0)], true, t) && Text([Switch(0)], t) == [] + closing && Value([Switch(0)]) == [];
      ArgumentReads([Switch(0)], true, t);
    } else {
      var rest := Doubling(a[1..]) + closing;
      DoublingReads(a[1..], t);
      assert a == [a[0]] + a[1..];
      if a[0] == QUOTE {
        DoubledReads(0, rest);
        assert Doubling(a) + closing == Repeat(BACKSLASH, 0) + [QUOTE, QUOTE] + rest;
        assert Repeat(BACKSLASH, 0) + [QUOTE] == [QUOTE];
      } else {
        PlainReads(a[0], rest, true);
        assert Doubling(a) + closing == [a[0]] + rest;
      }
    }
  }

  function DoublingLine(args: seq<seq<Wchar>>): seq<Wchar> {
    if args == [] then [] else [SPACE, QUOTE] + (Doubling(args[0]) + ([QUOTE] + DoublingLine(args[1..])))
  }

  lemma {:induction false} DoublingArguments(args: seq<seq<Wchar>>)
    requires forall k :: 0 <= k < |args| ==> BACKSLASH !in args[k]
    ensures Arguments(DoublingLine(args)) == args
  {
    if args != [] {
      var more := DoublingLine(args[1..]);
      DoublingArguments(args[1..]);
      DoublingReads(args[0], more);
      var inner := Doubling(args[0]) + ([QUOTE] + more);
      assert ([QUOTE] + inner)[1..] == inner;
      BlanksSkipped([SPACE], [QUOTE] + inner);
      assert [SPACE] + ([QUOTE] + inner) == DoublingLine(args);
      assert Argument([QUOTE] + inner, false) == Argument(inner, true);
    }
  }

  /** A line whose arguments are quoted that way splits back into them. */
  lemma {:induction false} SplitUndoesDoubling(name: seq<Wchar>, args: seq<seq<Wchar>>)
    requires QUOTE !in name && forall k :: 0 <= k < |args| ==> BACKSLASH !in args[k]
    ensures Split([QUOTE] + name + [QUOTE] + DoublingLine(args)) == [name] + args
  {
    var rest := DoublingLine(args);
    var quoted := [QUOTE] + name + [QUOTE];
    DoublingArguments(args);
    NameQuoted(name, rest);
    NameReads(quoted, false, rest);
    BlanksSkipped([], quoted + rest);
    assert [] + (quoted + rest) == quoted + rest;
  }

  lemma {:induction false} NameQuoted(name: seq<Wchar>, t: seq<Wchar>)
    requires QUOTE !in name && (t == [] || Blank(t[0]))
    ensures var quoted := [QUOTE] + name + [QUOTE]; NameWritten(quoted, false, t) && Unquoted(quoted) == name
  {
    var quoted := [QUOTE] + name + [QUOTE];
    assert quoted[1..] == name + [QUOTE];
    NameClosed(name, t);
  }

  lemma {:induction false} NameClosed(name: seq<Wchar>, t: seq<Wchar>)
    requires QUOTE !in name && (t == [] || Blank(t[0]))
    ensures NameWritten(name + [QUOTE], true, t) && Unquoted(name + [QUOTE]) == name
  {
    var s := name + [QUOTE];
    if name == [] {
      assert s[1..] == [];
    } else {
      NameClosed(name[1..], t);
      assert s[1..] == name[1..] + [QUOTE];
    }
  }
}
