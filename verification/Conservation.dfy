// crt/crt1.c: what the splitter drops from the line.

/** Nothing but blanks, quotes and backslashes is ever dropped, and nothing is invented. */
module Conservation {
  import opened Utf16
  import opened SplitSpec

  /** `a` is `b` with some blanks, quotes and backslashes deleted and nothing else changed. */
  predicate Thins(a: seq<Wchar>, b: seq<Wchar>)
    decreases |b|
  {
    if b == [] then a == []
    else (a != [] && a[0] == b[0] && Thins(a[1..], b[1..])) || (Special(b[0]) && Thins(a, b[1..]))
  }

  lemma {:induction false} ThinsRefl(a: seq<Wchar>)
    ensures Thins(a, a)
  {
    if a != [] { ThinsRefl(a[1..]); }
  }

  lemma {:induction false} ThinsTrans(a: seq<Wchar>, b: seq<Wchar>, c: seq<Wchar>)
    requires Thins(a, b) && Thins(b, c)
    ensures Thins(a, c)
    decreases |c|
  {
    if c != [] {
      if b != [] && b[0] == c[0] && Thins(b[1..], c[1..]) {
        if a != [] && a[0] == b[0] && Thins(a[1..], b[1..]) {
          ThinsTrans(a[1..], b[1..], c[1..]);
        } else {
          ThinsTrans(a, b[1..], c[1..]);
        }
      } else {
        ThinsTrans(a, b, c[1..]);
      }
    }
  }

  lemma {:induction false} ThinsConcat(a: seq<Wchar>, b: seq<Wchar>, c: seq<Wchar>, d: seq<Wchar>)
    requires Thins(a, b) && Thins(c, d)
    ensures Thins(a + c, b + d)
    decreases |b|
  {
    if b == [] {
      assert a + c == c && b + d == d;
    } else {
      assert (b + d)[1..] == b[1..] + d;
      if a != [] && a[0] == b[0] && Thins(a[1..], b[1..]) {
        ThinsConcat(a[1..], b[1..], c, d);
        assert (a + c)[1..] == a[1..] + c;
      } else {
        ThinsConcat(a, b[1..], c, d);
      }
    }
  }

  /** Text made only of special units may vanish. */
  lemma {:induction false} ThinsToNothing(b: seq<Wchar>)
    requires forall k :: 0 <= k < |b| ==> Special(b[k])
    ensures Thins([], b)
  {
    if b != [] { ThinsToNothing(b[1..]); }
  }

  lemma {:induction false} RunShrinks(m: nat, n: nat)
    requires m <= n
    ensures Thins(Repeat(BACKSLASH, m), Repeat(BACKSLASH, n))
  {
    var a, d := Repeat(BACKSLASH, m), Repeat(BACKSLASH, n - m);
    ThinsRefl(a);
    ThinsToNothing(d);
    ThinsConcat(a, a, [], d);
    assert a + [] == a && a + d == Repeat(BACKSLASH, n);
  }

  /** Consuming `s[..k]` into `a` before reading piece `q` from the rest. */
  lemma {:induction false} Consume(s: seq<Wchar>, k: nat, a: seq<Wchar>, q: Piece)
    requires k <= |s| && Thins(a, s[..k]) && Thins(q.arg + q.rest, s[k..])
    ensures Thins(q.Prefix(a).arg + q.rest, s)
  {
    ThinsConcat(a, s[..k], q.arg + q.rest, s[k..]);
    assert s[..k] + s[k..] == s;
    assert a + q.arg + q.rest == a + (q.arg + q.rest);
  }

  lemma {:induction false} Drop(s: seq<Wchar>, k: nat, q: Piece)
    requires k <= |s| && Thins(q.arg + q.rest, s[k..])
    requires forall j :: 0 <= j < k ==> Special(s[j])
    ensures Thins(q.arg + q.rest, s)
  {
    ThinsToNothing(s[..k]);
    Consume(s, k, [], q);
    assert [] + q.arg == q.arg;
  }

  lemma {:induction false} Stop(s: seq<Wchar>)
    ensures Thins([] + s, s)
  {
    ThinsRefl(s);
    assert [] + s == s;
  }

  lemma {:induction false} NameThins(s: seq<Wchar>, inq: bool)
    ensures var r := ProgramName(s, inq); Thins(r.arg + r.rest, s)
  {
    if s == [] || (s[0] != QUOTE && !inq && Blank(s[0])) {
      Stop(s);
    } else if s[0] == QUOTE {
      NameThins(s[1..], !inq);
      Drop(s, 1, ProgramName(s[1..], !inq));
    } else {
      NameThins(s[1..], inq);
      ThinsRefl([s[0]]);
      assert s[..1] == [s[0]];
      Consume(s, 1, [s[0]], ProgramName(s[1..], inq));
    }
  }

  lemma {:induction false} ArgumentThins(s: seq<Wchar>, inq: bool)
    ensures var r := Argument(s, inq); Thins(r.arg + r.rest, s)
    decreases |s|, 1
  {
    if s == [] || (Blank(s[0]) && !inq) {
      Stop(s);
    } else if s[0] == BACKSLASH {
      RunThins(s, inq);
    } else if s[0] == QUOTE {
      QuoteThins(s, inq);
    } else {
      ArgumentThins(s[1..], inq);
      ThinsRefl([s[0]]);
      assert s[..1] == [s[0]];
      Consume(s, 1, [s[0]], Argument(s[1..], inq));
    }
  }

  lemma {:induction false} QuoteThins(s: seq<Wchar>, inq: bool)
    requires s != [] && s[0] == QUOTE
    ensures var r := Argument(s, inq); Thins(r.arg + r.rest, s)
    decreases |s|, 0
  {
    if inq && 1 < |s| && s[1] == QUOTE {
      ArgumentThins(s[2..], inq);
      assert s[..2][1..] == [QUOTE];
      ThinsRefl([QUOTE]);
      Consume(s, 2, [QUOTE], Argument(s[2..], inq));
    } else {
      ArgumentThins(s[1..], !inq);
      Drop(s, 1, Argument(s[1..], !inq));
    }
  }

  lemma {:induction false} RunThins(s: seq<Wchar>, inq: bool)
    requires s != [] && s[0] == BACKSLASH
    ensures var r := Argument(s, inq); Thins(r.arg + r.rest, s)
    decreases |s|, 0
  {
    var n := RunLen(s);
    if n < |s| && s[n] == QUOTE && n % 2 == 1 {
      ArgumentThins(s[n + 1..], inq);
      RunIsRepeat(s);
      OddRunShrinks(s, n);
      Consume(s, n + 1, Repeat(BACKSLASH, n / 2) + [QUOTE], Argument(s[n + 1..], inq));
    } else {
      ArgumentThins(s[n..], inq);
      RunIsRepeat(s);
      RunCopied(s, if n < |s| && s[n] == QUOTE then n / 2 else n, n, Argument(s[n..], inq));
    }
  }

  lemma {:induction false} RunCopied(s: seq<Wchar>, m: nat, n: nat, q: Piece)
    requires m <= n <= |s| && s[..n] == Repeat(BACKSLASH, n)
    requires Thins(q.arg + q.rest, s[n..])
    ensures Thins(q.Prefix(Repeat(BACKSLASH, m)).arg + q.rest, s)
  {
    RunShrinks(m, n);
    Consume(s, n, Repeat(BACKSLASH, m), q);
  }

  lemma {:induction false} OddRunShrinks(s: seq<Wchar>, n: nat)
    requires n < |s| && s[n] == QUOTE && s[..n] == Repeat(BACKSLASH, n)
    ensures Thins(Repeat(BACKSLASH, n / 2) + [QUOTE], s[..n + 1])
  {
    RunShrinks(n / 2, n);
    ThinsRefl([QUOTE]);
    ThinsConcat(Repeat(BACKSLASH, n / 2), Repeat(BACKSLASH, n), [QUOTE], [QUOTE]);
    assert Repeat(BACKSLASH, n) + [QUOTE] == s[..n + 1];
  }

  lemma {:induction false} BlanksThin(s: seq<Wchar>)
    ensures Thins(SkipBlanks(s), s)
  {
    if s != [] && Blank(s[0]) {
      BlanksThin(s[1..]);
    } else {
      ThinsRefl(s);
    }
  }

  /** Reading piece `q` from `s`, and then `more` from what `q` leaves. */
  lemma {:induction false} ThenMore(q: Piece, s: seq<Wchar>, more: seq<Wchar>)
    requires Thins(q.arg + q.rest, s) && Thins(more, q.rest)
    ensures Thins(q.arg + more, s)
  {
    ThinsRefl(q.arg);
    ThinsConcat(q.arg, q.arg, more, q.rest);
    ThinsTrans(q.arg + more, q.arg + q.rest, s);
  }

  lemma {:induction false} ArgumentsThin(s: seq<Wchar>)
    ensures Thins(Flatten(Arguments(s)), s)
    decreases |s|
  {
    var t := SkipBlanks(s);
    BlanksThin(s);
    if t != [] {
      var piece := Argument(t, false);
      ArgumentThins(t, false);
      ArgumentsThin(piece.rest);
      ThenMore(piece, t, Flatten(Arguments(piece.rest)));
      assert Arguments(s)[1..] == Arguments(piece.rest);
      ThinsTrans(Flatten(Arguments(s)), t, s);
    }
  }

  /** The arguments, concatenated, are the command line less some of its blanks,
      quotes and backslashes. */
  lemma {:induction false} SplitConserves(line: seq<Wchar>)
    ensures Thins(Flatten(Split(line)), line)
  {
    var t := SkipBlanks(line);
    var name := ProgramName(t, false);
    BlanksThin(line);
    NameThins(t, false);
    ArgumentsThin(name.rest);
    ThenMore(name, t, Flatten(Arguments(name.rest)));
    assert Split(line)[1..] == Arguments(name.rest);
    ThinsTrans(Flatten(Split(line)), t, line);
  }
}
