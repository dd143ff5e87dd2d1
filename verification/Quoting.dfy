// crt/crt1.c: the quoting rules its splitter undoes.

/** Quoting, the inverse of splitting, by the same published rules. */
module Quoting {
  import opened Utf16
  import opened SplitSpec

  /** Doubles the backslashes that precede a quote or the end, and escapes quotes. */
  function Escape(a: seq<Wchar>): seq<Wchar>
    decreases |a|
  {
    var n := RunLen(a);
    if n == |a| then Repeat(BACKSLASH, 2 * n)
    else if a[n] == QUOTE then Repeat(BACKSLASH, 2 * n + 1) + [QUOTE] + Escape(a[n + 1..])
    else Repeat(BACKSLASH, n) + [a[n]] + Escape(a[n + 1..])
  }

  function Quote(a: seq<Wchar>): seq<Wchar> { [QUOTE] + Escape(a) + [QUOTE] }

  function QuoteName(name: seq<Wchar>): seq<Wchar> { [QUOTE] + name + [QUOTE] }

  function QuoteArguments(args: seq<seq<Wchar>>): seq<Wchar> {
    if args == [] then [] else [SPACE] + Quote(args[0]) + QuoteArguments(args[1..])
  }

  /** The command line that stands for a program name and its arguments. */
  function CommandLineOf(argv: seq<seq<Wchar>>): seq<Wchar>
    requires argv != []
  {
    QuoteName(argv[0]) + QuoteArguments(argv[1..])
  }

  predicate EndsArgument(t: seq<Wchar>) { t == [] || Blank(t[0]) }

  /** A run of backslashes that no quote follows is copied. */
  lemma {:induction false} ArgumentRun(n: nat, t: seq<Wchar>, inq: bool)
    requires t != [] && t[0] != BACKSLASH && t[0] != QUOTE
    ensures Argument(Repeat(BACKSLASH, n) + t, inq) == Argument(t, inq).Prefix(Repeat(BACKSLASH, n))
  {
    var s := Repeat(BACKSLASH, n) + t;
    RunLenOf(n, t);
    if n == 0 {
      assert s == t;
    } else {
      assert s[n..] == t && s[n] == t[0];
    }
  }

  /** A run of 2n backslashes before a quote stands for n; the quote stays special. */
  lemma {:induction false} ArgumentEvenRun(n: nat, t: seq<Wchar>, inq: bool)
    requires t != [] && t[0] == QUOTE
    ensures Argument(Repeat(BACKSLASH, 2 * n) + t, inq) == Argument(t, inq).Prefix(Repeat(BACKSLASH, n))
  {
    var s := Repeat(BACKSLASH, 2 * n) + t;
    RunLenOf(2 * n, t);
    if n == 0 {
      assert s == t;
    } else {
      var m := 2 * n;
      assert m % 2 == 0 && m / 2 == n;
      assert s[m..] == t && s[m] == QUOTE;
    }
  }

  /** A run of 2n + 1 backslashes before a quote stands for n and a literal quote. */
  lemma {:induction false} ArgumentOddRun(n: nat, t: seq<Wchar>, inq: bool)
    ensures Argument(Repeat(BACKSLASH, 2 * n + 1) + [QUOTE] + t, inq)
         == Argument(t, inq).Prefix(Repeat(BACKSLASH, n) + [QUOTE])
  {
    var m := 2 * n + 1;
    var s := Repeat(BACKSLASH, m) + [QUOTE] + t;
    assert s == Repeat(BACKSLASH, m) + ([QUOTE] + t);
    RunLenOf(m, [QUOTE] + t);
    assert s[m + 1..] == t;
    assert m % 2 == 1 && m / 2 == n;
    OddRunOf(s, m, inq);
  }

  lemma {:induction false} OddRunOf(s: seq<Wchar>, m: nat, inq: bool)
    requires m == RunLen(s) < |s| && s[m] == QUOTE && m % 2 == 1
    ensures Argument(s, inq) == Argument(s[m + 1..], inq).Prefix(Repeat(BACKSLASH, m / 2) + [QUOTE])
  {
    assert s[0] == BACKSLASH;
  }

  /** The closing quote ends the argument. */
  lemma {:induction false} ClosingQuote(t: seq<Wchar>)
    requires EndsArgument(t)
    ensures Argument([QUOTE] + t, true) == Piece([], t)
  {
    var s := [QUOTE] + t;
    assert s[1..] == t;
    assert Argument(s, true) == Argument(t, false);
  }

  /** Inside quotes, the escaped text and its closing quote read back as the text. */
  lemma {:induction false} EscapeReads(a: seq<Wchar>, t: seq<Wchar>)
    requires EndsArgument(t)
    ensures Argument(Escape(a) + ([QUOTE] + t), true) == Piece(a, t)
    decreases |a|
  {
    hide Argument;
    var n := RunLen(a);
    RunIsRepeat(a);
    if n == |a| {
      ArgumentEvenRun(n, [QUOTE] + t, true);
      ClosingQuote(t);
    } else {
      EscapeReads(a[n + 1..], t);
      EscapeHeadReads(a, n, Escape(a[n + 1..]), [QUOTE] + t, t);
    }
  }

  /** The unit after the leading run, and the run, read back in front of the rest. */
  lemma {:induction false} EscapeHeadReads(a: seq<Wchar>, n: nat, e: seq<Wchar>, closing: seq<Wchar>, t: seq<Wchar>)
    requires n == RunLen(a) < |a| && a[..n] == Repeat(BACKSLASH, n) && e == Escape(a[n + 1..])
    requires Argument(e + closing, true) == Piece(a[n + 1..], t)
    ensures Argument(Escape(a) + closing, true) == Piece(a, t)
  {
    hide Argument;
    Around(a, n);
    if a[n] == QUOTE {
      ArgumentOddRun(n, e + closing, true);
      Assoc(Repeat(BACKSLASH, 2 * n + 1) + [QUOTE], e, closing);
    } else {
      OrdinaryReads(n, a[n], e + closing);
      Assoc(Repeat(BACKSLASH, n) + [a[n]], e, closing);
    }
  }

  lemma {:induction false} Around(a: seq<Wchar>, n: nat)
    requires n < |a|
    ensures a == a[..n] + [a[n]] + a[n + 1..]
  {
  }

  lemma {:induction false} Assoc(a: seq<Wchar>, b: seq<Wchar>, c: seq<Wchar>)
    ensures a + b + c == a + (b + c)
  {
  }

  /** Inside quotes, a run of backslashes and an ordinary unit read as themselves. */
  lemma {:induction false} OrdinaryReads(n: nat, c: Wchar, tail: seq<Wchar>)
    requires c != BACKSLASH && c != QUOTE
    ensures Argument(Repeat(BACKSLASH, n) + [c] + tail, true)
         == Argument(tail, true).Prefix(Repeat(BACKSLASH, n) + [c])
  {
    var u := [c] + tail;
    ArgumentRun(n, u, true);
    assert u[1..] == tail;
    Assoc(Repeat(BACKSLASH, n), [c], tail);
    Assoc(Repeat(BACKSLASH, n), [c], Argument(tail, true).arg);
  }

  /** The opening quote switches to quoted text. */
  lemma {:induction false} OpeningQuote(u: seq<Wchar>)
    ensures Argument([QUOTE] + u, false) == Argument(u, true)
  {
    assert ([QUOTE] + u)[1..] == u;
  }

  lemma {:induction false} QuoteReads(a: seq<Wchar>, t: seq<Wchar>)
    requires EndsArgument(t)
    ensures Argument(Quote(a) + t, false) == Piece(a, t)
  {
    hide Argument, Escape;
    EscapeReads(a, t);
    OpeningQuote(Escape(a) + ([QUOTE] + t));
    assert Quote(a) + t == [QUOTE] + (Escape(a) + ([QUOTE] + t));
  }

  lemma {:induction false} ArgumentsRoundTrip(args: seq<seq<Wchar>>)
    ensures EndsArgument(QuoteArguments(args))
    ensures Arguments(QuoteArguments(args)) == args
  {
    hide Argument, Escape;
    if args != [] {
      var more := QuoteArguments(args[1..]);
      ArgumentsRoundTrip(args[1..]);
      OneArgument(args[0], more);
      assert QuoteArguments(args) == [SPACE] + Quote(args[0]) + more;
    }
  }

  lemma {:induction false} BlankSkipped(t: seq<Wchar>)
    requires t != [] && !Blank(t[0])
    ensures SkipBlanks([SPACE] + t) == t
  {
    assert ([SPACE] + t)[1..] == t;
  }

  lemma {:induction false} OneArgument(a: seq<Wchar>, more: seq<Wchar>)
    requires EndsArgument(more)
    ensures Arguments([SPACE] + Quote(a) + more) == [a] + Arguments(more)
  {
    var t := Quote(a) + more;
    assert t[0] == QUOTE;
    BlankSkipped(t);
    QuoteReads(a, more);
    Assoc([SPACE], Quote(a), more);
  }

  lemma {:induction false} NameReads(name: seq<Wchar>, t: seq<Wchar>)
    requires QUOTE !in name && EndsArgument(t)
    ensures ProgramName(name + [QUOTE] + t, true) == Piece(name, t)
  {
    var s := name + [QUOTE] + t;
    if name == [] {
      assert s[1..] == t;
    } else {
      NameReads(name[1..], t);
      assert s[1..] == name[1..] + [QUOTE] + t;
    }
  }

  lemma {:induction false} QuotedNameReads(name: seq<Wchar>, tail: seq<Wchar>)
    requires QUOTE !in name && EndsArgument(tail)
    ensures Split(QuoteName(name) + tail) == [name] + Arguments(tail)
  {
    var line := QuoteName(name) + tail;
    NameReads(name, tail);
    assert line[1..] == name + [QUOTE] + tail;
    assert SkipBlanks(line) == line;
    assert ProgramName(line, false) == ProgramName(line[1..], true);
  }

  lemma {:induction false} NameHasNoQuote(line: seq<Wchar>)
    ensures QUOTE !in Split(line)[0]
  {
    assert Split(line)[0] == ProgramName(SkipBlanks(line), false).arg;
  }

  lemma {:induction false} WritableReads(name: seq<Wchar>, args: seq<seq<Wchar>>)
    requires QUOTE !in name
    ensures Split(QuoteName(name) + QuoteArguments(args)) == [name] + args
  {
    ArgumentsRoundTrip(args);
    QuotedNameReads(name, QuoteArguments(args));
  }

  /** Splitting undoes quoting, for every program name that can be written and
      every list of arguments whatsoever. */
  lemma {:induction false} SplitUndoesQuoting(argv: seq<seq<Wchar>>)
    requires argv != []
    ensures Split(CommandLineOf(argv)) == argv <==> QUOTE !in argv[0]
  {
    if QUOTE !in argv[0] {
      WritableReads(argv[0], argv[1..]);
      assert [argv[0]] + argv[1..] == argv;
    } else {
      NameHasNoQuote(CommandLineOf(argv));
    }
  }

  /** Re-quoting whatever a command line split into gives an equivalent command line. */
  lemma {:induction false} RequotingIsIdentity(line: seq<Wchar>)
    ensures Split(CommandLineOf(Split(line))) == Split(line)
  {
    SplitUndoesQuoting(Split(line));
  }
}
