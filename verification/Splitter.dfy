// crt/crt1.c: the splitting loops themselves, in place over a scratch buffer and a growing argv.

module Splitter {
  import opened Utf16
  import opened SplitSpec
  import opened Capacity

  /** An element of argv: a converted argument, or the terminating null pointer. */
  datatype Slot = Null | Arg(text: seq<Wchar>)

  method SkipBlanksFrom(p: seq<Wchar>, start: nat) returns (i: nat)
    requires start <= |p|
    ensures start <= i <= |p| && p[i..] == SkipBlanks(p[start..])
  {
    i := start;
    while i < |p| && Blank(p[i])
      invariant start <= i <= |p|
      invariant SkipBlanks(p[i..]) == SkipBlanks(p[start..])
    {
      assert p[i..][1..] == p[i + 1..];
      i := i + 1;
    }
  }

  /** One more unit in the buffer amounts to one more unit before what is read next. */
  lemma {:induction false} PrefixTwice(q: Piece, before: seq<Wchar>, a: seq<Wchar>)
    ensures q.Prefix(a).Prefix(before) == q.Prefix(before + a)
  {
    assert before + (a + q.arg) == before + a + q.arg;
  }

  lemma {:induction false} NameStep(p: seq<Wchar>, i: nat, inq: bool)
    requires i < |p|
    ensures p[i] == QUOTE ==> ProgramName(p[i..], inq) == ProgramName(p[i + 1..], !inq)
    ensures p[i] != QUOTE && !inq && Blank(p[i]) ==> ProgramName(p[i..], inq) == Piece([], p[i..])
    ensures p[i] != QUOTE && (inq || !Blank(p[i]))
            ==> ProgramName(p[i..], inq) == ProgramName(p[i + 1..], inq).Prefix([p[i]])
  {
    assert p[i..][1..] == p[i + 1..];
  }

  method ReadProgramName(p: seq<Wchar>, start: nat, buf: array<Wchar>) returns (i: nat, o: nat)
    requires start <= |p| && buf.Length == |p| + 1
    modifies buf
    ensures start <= i <= |p| && o <= i - start
    ensures ProgramName(p[start..], false) == Piece(buf[..o], p[i..])
  {
    var inq := false;
    i, o := start, 0;
    ghost var whole := ProgramName(p[start..], false);
    while i < |p|
      invariant start <= i <= |p| && o <= i - start
      invariant whole == ProgramName(p[i..], inq).Prefix(buf[..o])
    {
      NameStep(p, i, inq);
      if p[i] == QUOTE { inq, i := !inq, i + 1; continue; }
      if !inq && Blank(p[i]) { break; }
      ghost var before := buf[..o];
      buf[o] := p[i];
      assert buf[..o + 1] == before + [p[i]];
      PrefixTwice(ProgramName(p[i + 1..], inq), before, [p[i]]);
      i, o := i + 1, o + 1;
    }
    assert buf[..o] + [] == buf[..o];
  }

  /** Appends `n` backslashes to the scratch buffer. */
  method PutRun(buf: array<Wchar>, o: nat, n: nat) returns (o': nat)
    requires o + n <= buf.Length
    modifies buf
    ensures o' == o + n && buf[..o'] == old(buf[..o]) + Repeat(BACKSLASH, n)
  {
    o' := o;
    for k := 0 to n
      invariant o' == o + k && buf[..o] == old(buf[..o])
      invariant forall j :: o <= j < o' ==> buf[j] == BACKSLASH
    {
      buf[o'] := BACKSLASH;
      o' := o' + 1;
    }
  }

  method CountRun(p: seq<Wchar>, start: nat) returns (i: nat)
    requires start < |p| && p[start] == BACKSLASH
    ensures start < i <= |p| && i == start + RunLen(p[start..])
  {
    i := start;
    while i < |p| && p[i] == BACKSLASH
      invariant start <= i <= |p|
      invariant RunLen(p[start..]) == (i - start) + RunLen(p[i..])
    {
      assert p[i..][1..] == p[i + 1..];
      i := i + 1;
    }
  }

  /** Reading on from `i'` with `after` in the buffer amounts to reading on from `i` with
      `before` in it. */
  ghost predicate Advances(p: seq<Wchar>, i: nat, inq: bool, before: seq<Wchar>,
                           i': nat, inq': bool, after: seq<Wchar>)
    requires i <= |p| && i' <= |p|
  {
    Argument(p[i..], inq).Prefix(before) == Argument(p[i'..], inq').Prefix(after)
  }

  lemma {:induction false} AdvanceBy(p: seq<Wchar>, i: nat, inq: bool, before: seq<Wchar>,
                  i': nat, inq': bool, a: seq<Wchar>, after: seq<Wchar>)
    requires i <= |p| && i' <= |p| && after == before + a
    requires Argument(p[i..], inq) == Argument(p[i'..], inq').Prefix(a)
    ensures Advances(p, i, inq, before, i', inq', after)
  {
    PrefixTwice(Argument(p[i'..], inq'), before, a);
  }

  method PutRunAndQuote(buf: array<Wchar>, o: nat, n: nat) returns (o': nat)
    requires o + n < buf.Length
    modifies buf
    ensures o' == o + n + 1 && buf[..o'] == old(buf[..o]) + (Repeat(BACKSLASH, n) + [QUOTE])
  {
    o' := PutRun(buf, o, n);
    buf[o'] := QUOTE;
    o' := o' + 1;
  }

  /** What the rules make of a run of `nb` backslashes at `i`: where reading resumes and what
      the run contributes. */
  lemma {:induction false} RunStep(p: seq<Wchar>, i: nat, nb: nat, inq: bool)
    requires i + nb <= |p| && 0 < nb == RunLen(p[i..])
    ensures var quoted := i + nb < |p| && p[i + nb] == QUOTE;
            if quoted && nb % 2 == 1
            then Argument(p[i..], inq) == Argument(p[i + nb + 1..], inq).Prefix(Repeat(BACKSLASH, nb / 2) + [QUOTE])
            else Argument(p[i..], inq) ==
                 Argument(p[i + nb..], inq).Prefix(Repeat(BACKSLASH, if quoted then nb / 2 else nb))
  {
    var s := p[i..];
    assert s[nb..] == p[i + nb..];
    assert i + nb < |p| ==> s[nb] == p[i + nb] && s[nb + 1..] == p[i + nb + 1..];
  }

  /** The backslash branch: consumes a whole run, and the quote after an odd one. */
  method ReadRun(p: seq<Wchar>, start: nat, buf: array<Wchar>, o: nat, ghost inq: bool)
    returns (i: nat, o': nat)
    requires start < |p| && buf.Length == |p| + 1 && o <= start && p[start] == BACKSLASH
    modifies buf
    ensures start < i <= |p| && o' <= o + (i - start)
    ensures Advances(p, start, inq, old(buf[..o]), i, inq, buf[..o'])
  {
    hide Argument;
    i := CountRun(p, start);
    var nb := i - start;
    RunStep(p, start, nb, inq);
    var quoted := i < |p| && p[i] == QUOTE;
    ghost var a;
    if quoted && nb % 2 == 1 {
      o' := PutRunAndQuote(buf, o, nb / 2);
      i, a := i + 1, Repeat(BACKSLASH, nb / 2) + [QUOTE];
    } else {
      var n := if quoted then nb / 2 else nb;
      o' := PutRun(buf, o, n);
      a := Repeat(BACKSLASH, n);
    }
    AdvanceBy(p, start, inq, old(buf[..o]), i, inq, a, buf[..o']);
  }

  /** The other branches: a quote, an ordinary unit, or the blank that ends the argument. */
  method ReadUnit(p: seq<Wchar>, start: nat, buf: array<Wchar>, o: nat, inq: bool)
    returns (i: nat, o': nat, inq': bool, stop: bool)
    requires start < |p| && buf.Length == |p| + 1 && o <= start && p[start] != BACKSLASH
    modifies buf
    ensures stop ==> i == start && Argument(p[i..], inq') == Piece([], p[i..])
    ensures start <= i <= |p| && o' <= o + (i - start) && (!stop ==> start < i)
    ensures Advances(p, start, inq, old(buf[..o]), i, inq', buf[..o'])
  {
    ghost var s, before := p[start..], buf[..o];
    assert s[1..] == p[start + 1..];
    i, o', inq', stop := start, o, inq, false;
    if p[i] == QUOTE {
      if inq && i + 1 < |p| && p[i + 1] == QUOTE {
        assert s[2..] == p[i + 2..] && s[1] == QUOTE;
        buf[o'] := QUOTE;
        i, o' := i + 2, o' + 1;
        AdvanceBy(p, start, inq, before, i, inq', [QUOTE], buf[..o']);
      } else {
        inq', i := !inq, i + 1;
      }
    } else if !inq && Blank(p[i]) {
      stop := true;
    } else {
      buf[o'] := p[i];
      i, o' := i + 1, o' + 1;
      AdvanceBy(p, start, inq, before, i, inq', [p[start]], buf[..o']);
    }
  }

  method ReadArgument(p: seq<Wchar>, start: nat, buf: array<Wchar>) returns (i: nat, o: nat)
    requires start <= |p| && buf.Length == |p| + 1
    modifies buf
    ensures start <= i <= |p| && o <= i - start
    ensures Argument(p[start..], false) == Piece(buf[..o], p[i..])
  {
    var inq, stop := false, false;
    i, o := start, 0;
    while i < |p| && !stop
      invariant start <= i <= |p| && o <= i - start
      invariant Advances(p, start, false, [], i, inq, buf[..o])
      invariant stop ==> Argument(p[i..], inq) == Piece([], p[i..])
      decreases |p| - i, !stop
    {
      if p[i] == BACKSLASH {
        i, o := ReadRun(p, i, buf, o, inq);
      } else {
        i, o, inq, stop := ReadUnit(p, i, buf, o, inq);
      }
    }
    assert buf[..o] + [] == buf[..o];
  }

  /** Makes room for one more argument and the terminator. */
  method Grow(argv: array<Slot>, argc: nat, sizeMax: nat, pointerSize: nat) returns (ok: bool, nv: array<Slot>)
    requires 0 < pointerSize && 0 < argc < argv.Length <= sizeMax / pointerSize
    ensures !ok ==> argc + 2 > sizeMax / pointerSize
    ensures ok ==> argc + 1 < nv.Length <= sizeMax / pointerSize && nv[..argc] == argv[..argc]
    ensures nv == argv || fresh(nv)
  {
    ok, nv := true, argv;
    if argc + 1 >= argv.Length {
      var next;
      ok, next := NextCapacity(argv.Length, argc, 2, 2, pointerSize, sizeMax);
      if !ok {
        if argc + 2 <= sizeMax / pointerSize { Quotient(argc + 2, sizeMax, pointerSize); }
        return;
      }
      nv := new Slot[next](_ => Null);
      forall k | 0 <= k < argc { nv[k] := argv[k]; }
    }
  }

  lemma {:induction false} Quotient(n: nat, sizeMax: nat, pointerSize: nat)
    requires 0 < pointerSize && n <= sizeMax / pointerSize
    ensures n <= sizeMax
  {
    ProductGrows(sizeMax / pointerSize, pointerSize);
  }

  lemma {:induction false} ProductGrows(q: nat, k: nat)
    requires 0 < k
    ensures q <= q * k
  {
    if 1 < k {
      ProductGrows(q, k - 1);
      assert q * k == q * (k - 1) + q;
    }
  }

  ghost predicate Holds(argv: array<Slot>, args: seq<seq<Wchar>>)
    reads argv
  {
    |args| <= argv.Length && forall k :: 0 <= k < |args| ==> argv[k] == Arg(args[k])
  }

  /** Stores one more argument, growing argv if it must. */
  method Store(argv: array<Slot>, argc: nat, text: seq<Wchar>, sizeMax: nat, pointerSize: nat,
               ghost slots: nat, ghost done: seq<seq<Wchar>>)
    returns (ok: bool, nv: array<Slot>)
    requires 0 < pointerSize && 0 < argc < argv.Length <= slots == sizeMax / pointerSize
    requires |done| == argc && Holds(argv, done)
    modifies argv
    ensures !ok ==> argc + 2 > slots
    ensures ok ==> argc + 1 < nv.Length <= slots && Holds(nv, done + [text])
    ensures nv == argv || fresh(nv)
  {
    ok, nv := Grow(argv, argc, sizeMax, pointerSize);
    if ok {
      assert forall k :: 0 <= k < argc ==> nv[k] == nv[..argc][k] == argv[..argc][k] == argv[k];
      nv[argc] := Arg(text);
    }
  }

  lemma {:induction false} OneMore(s: seq<Wchar>, t: seq<Wchar>, piece: Piece,
                                   done: seq<seq<Wchar>>, all: seq<seq<Wchar>>)
    requires t == SkipBlanks(s) && t != [] && piece == Argument(t, false)
    requires all == done + Arguments(s)
    ensures all == done + [piece.arg] + Arguments(piece.rest)
  {
    assert Arguments(s) == [piece.arg] + Arguments(piece.rest);
    ListAssoc(done, piece.arg, Arguments(piece.rest));
  }

  lemma {:induction false} ListAssoc(done: seq<seq<Wchar>>, a: seq<Wchar>, rest: seq<seq<Wchar>>)
    ensures done + ([a] + rest) == done + [a] + rest
  {
  }

  lemma {:induction false} NoMore(s: seq<Wchar>, done: seq<seq<Wchar>>, all: seq<seq<Wchar>>)
    requires SkipBlanks(s) == [] && all == done + Arguments(s)
    ensures all == done
  {
    assert Arguments(s) == [];
  }

  /** Skips blanks and reads the argument after them, if there is one. */
  method NextArgument(p: seq<Wchar>, start: nat, buf: array<Wchar>,
                      ghost done: seq<seq<Wchar>>, ghost all: seq<seq<Wchar>>)
    returns (more: bool, i: nat, o: nat)
    requires start <= |p| && buf.Length == |p| + 1 && all == done + Arguments(p[start..])
    modifies buf
    ensures !more ==> all == done
    ensures more ==> start < i <= |p| && o <= i - start
    ensures more ==> all == done + [buf[..o]] + Arguments(p[i..])
  {
    i := SkipBlanksFrom(p, start);
    o := 0;
    more := i < |p|;
    if more {
      ghost var t := p[i..];
      i, o := ReadArgument(p, i, buf);
      OneMore(p[start..], t, Piece(buf[..o], p[i..]), done, all);
    } else {
      NoMore(p[start..], done, all);
    }
  }

  /** The argument loop, from the end of the program name on. */
  method ReadArguments(p: seq<Wchar>, start: nat, buf: array<Wchar>, argv0: array<Slot>,
                       sizeMax: nat, pointerSize: nat, ghost slots: nat, ghost all: seq<seq<Wchar>>)
    returns (argc: int, argv: array<Slot>)
    requires start <= |p| && 0 < pointerSize && argv0.Length == 2 <= slots == sizeMax / pointerSize
    requires buf.Length == |p| + 1
    requires argv0[0].Arg? && all == [argv0[0].text] + Arguments(p[start..])
    modifies buf, argv0
    ensures argc == -1 <==> |all| + 1 > slots
    ensures argc != -1 ==> argc == |all| < argv.Length && argv[argc] == Null && Holds(argv, all)
  {
    argc, argv := 1, argv0;
    ghost var done := [argv0[0].text];
    var more: bool, i: nat, o: nat := NextArgument(p, start, buf, done, all);
    while more
      invariant 0 < argc < argv.Length <= slots
      invariant argv == argv0 || fresh(argv)
      invariant |done| == argc && Holds(argv, done)
      invariant !more ==> all == done
      invariant more ==> i <= |p| && o < buf.Length && all == done + [buf[..o]] + Arguments(p[i..])
      decreases more, |p| - i
    {
      var ok;
      ok, argv := Store(argv, argc, buf[..o], sizeMax, pointerSize, slots, done);
      if !ok { return -1, argv; }
      argc, done := argc + 1, done + [buf[..o]];
      more, i, o := NextArgument(p, i, buf, done, all);
    }
    argv[argc] := Null;
  }

  /** The whole splitter.  It fails (-1) exactly when a size it needs is not representable. */
  method SplitCmdline(p: seq<Wchar>, sizeMax: nat, pointerSize: nat) returns (argc: int, argv: array<Slot>)
    requires 0 < pointerSize && 2 <= sizeMax / pointerSize
    ensures argc == -1 <==> (|p| + 1) * 2 > sizeMax || |Split(p)| + 1 > sizeMax / pointerSize
    ensures argc != -1 ==> argc == |Split(p)| < argv.Length && argv[argc] == Null && Holds(argv, Split(p))
  {
    argv := new Slot[2](_ => Null);
    if (|p| + 1) * 2 > sizeMax { return -1, argv; }
    var buf := new Wchar[|p| + 1];
    var i := SkipBlanksFrom(p, 0);
    assert p[0..] == p;
    var o;
    i, o := ReadProgramName(p, i, buf);
    argv[0] := Arg(buf[..o]);
    argc, argv := ReadArguments(p, i, buf, argv, sizeMax, pointerSize, sizeMax / pointerSize, Split(p));
  }
}
