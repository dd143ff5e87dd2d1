// fuzz/fuzz_regex.c: the filter against patterns as they are written, token by token.

/** What the filter accepts, without its scan. */
module RegexTokens {
  import opened RegexText
  import opened RegexFilter

  /** What stands in a bracket expression: a character, or a class, collating symbol or equivalence class with a
      name of `len` characters. */
  datatype Part = Member | Class(len: nat)

  /** What a pattern is written with: characters, escaped ones, bracket expressions, groups, alternatives, anchors,
      back-references, and repeats, of which an interval has `len` characters between its braces. */
  datatype Token =
    | Letter | Escaped | Set(parts: seq<Part>)
    | Open | Close | Or | Anchor | Back
    | Repeat | Interval(len: nat)

  /** One character, whichever it is. */
  predicate Atom(t: Token) { t.Letter? || t.Escaped? || t.Set? }

  predicate Repeats(t: Token) { t.Repeat? || t.Interval? }

  // ---- how each is written

  predicate ClassKind(c: char) { c == ':' || c == '.' || c == '=' }

  function PartEnd(i: nat, q: Part): (j: nat)
    ensures i < j
  {
    if q.Member? then i + 1 else i + q.len + 4
  }

  /** A class is closed by the first character like its opening one that a bracket follows. */
  predicate PartAt(p: string, i: nat, q: Part) {
    match q
    case Member => i < |p| && p[i] != ']' && !(p[i] == '[' && i + 1 < |p| && ClassKind(p[i + 1]))
    case Class(len) =>
      var n := i + 2 + len;
      && n + 1 < |p| && p[i] == '[' && ClassKind(p[i + 1]) && p[n] == p[i + 1] && p[n + 1] == ']'
      && forall k :: i + 2 <= k < n ==> !(p[k] == p[i + 1] && p[k + 1] == ']')
  }

  predicate PartsAt(p: string, i: nat, qs: seq<Part>, j: nat)
    decreases |qs|
  {
    if qs == [] then i == j else PartAt(p, i, qs[0]) && PartsAt(p, PartEnd(i, qs[0]), qs[1..], j)
  }

  /** From i on, behind a caret that negates and a bracket that is a member. */
  function SetBody(p: string, i: nat): nat
    requires i <= |p|
  {
    var m := if i < |p| && p[i] == '^' then i + 1 else i;
    if m < |p| && p[m] == ']' then m + 1 else m
  }

  /** An interval's text, to the first brace or, without one, the end. */
  predicate IntervalAt(p: string, i: nat, j: nat, len: nat) {
    && i + len <= |p| && (forall k :: i <= k < i + len ==> p[k] != '}')
    && if i + len < |p| then p[i + len] == '}' && j == i + len + 1 else j == |p|
  }

  /** The token t is p[i..j]. */
  predicate TokenAt(p: string, i: nat, j: nat, t: Token, ere: bool)
    requires i < j <= |p|
  {
    var c := p[i];
    match t
    case Letter => j == i + 1 && c !in "\\[*+?^$" && (ere ==> c !in "{()|")
    case Escaped =>
      && j == i + 2 && c == '\\'
      && (ere || (p[i + 1] != '(' && p[i + 1] != ')' && p[i + 1] != '{' && !('1' <= p[i + 1] <= '9')))
    case Set(parts) => c == '[' && p[j - 1] == ']' && PartsAt(p, SetBody(p, i + 1), parts, j - 1)
    case Open => if ere then j == i + 1 && c == '(' else j == i + 2 && c == '\\' && p[i + 1] == '('
    case Close => if ere then j == i + 1 && c == ')' else j == i + 2 && c == '\\' && p[i + 1] == ')'
    case Or => ere && j == i + 1 && c == '|'
    case Anchor => j == i + 1 && (c == '^' || c == '$')
    case Back => !ere && j == i + 2 && c == '\\' && '1' <= p[i + 1] <= '9'
    case Repeat => j == i + 1 && (c == '*' || c == '+' || c == '?')
    case Interval(len) =>
      if ere then c == '{' && IntervalAt(p, i + 1, j, len)
      else c == '\\' && i + 1 < |p| && p[i + 1] == '{' && IntervalAt(p, i + 2, j, len)
  }

  /** A token and where it ends. */
  datatype Piece = Piece(t: Token, end: nat)

  /** The pieces make up p from i on. */
  predicate Written(p: string, i: nat, ts: seq<Piece>, ere: bool)
    decreases |ts|
  {
    if ts == [] then i == |p|
    else i < ts[0].end <= |p| && TokenAt(p, i, ts[0].end, ts[0].t, ere) && Written(p, ts[0].end, ts[1..], ere)
  }

  /** A repeat there is right behind something that matches one character. */
  predicate Founded(ts: seq<Piece>, k: nat, prev: bool)
    requires k < |ts|
  {
    Repeats(ts[k].t) ==> if k == 0 then prev else Atom(ts[k - 1].t)
  }

  predicate OnAtoms(ts: seq<Piece>, prev: bool) { forall k: nat :: k < |ts| ==> Founded(ts, k, prev) }

  lemma {:induction false} OnAtomsStep(ts: seq<Piece>, prev: bool)
    requires ts != []
    ensures OnAtoms(ts, prev) <==> (Repeats(ts[0].t) ==> prev) && OnAtoms(ts[1..], Atom(ts[0].t))
  {
    var rest, atom := ts[1..], Atom(ts[0].t);
    forall k: nat | k < |rest| ensures Founded(rest, k, atom) == Founded(ts, k + 1, prev) {
      assert rest[k] == ts[k + 1];
    }
    assert Founded(ts, 0, prev) == (Repeats(ts[0].t) ==> prev);
    if Founded(ts, 0, prev) && OnAtoms(rest, atom) {
      forall k: nat | k < |ts| ensures Founded(ts, k, prev) {
        if k > 0 { assert Founded(rest, k - 1, atom); }
      }
    }
    if OnAtoms(ts, prev) {
      forall k: nat | k < |rest| ensures Founded(rest, k, atom) { assert Founded(ts, k + 1, prev); }
    }
  }

  // ---- what the filter skips over

  lemma {:induction false} IntervalSkipped(p: string, i: nat, j: nat, len: nat)
    requires i <= |p| && IntervalAt(p, i, j, len)
    ensures SkipInterval(p, i) == j
    decreases len
  {
    if len > 0 { IntervalSkipped(p, i + 1, j, len - 1); }
  }

  lemma {:induction false} EveryInterval(p: string, i: nat) returns (len: nat)
    requires i <= |p|
    ensures IntervalAt(p, i, SkipInterval(p, i), len)
    decreases |p| - i
  {
    if i == |p| || p[i] == '}' {
      len := 0;
    } else {
      len := EveryInterval(p, i + 1);
      len := len + 1;
    }
  }

  lemma {:induction false} CloseFound(p: string, i: nat, kind: char, j: nat)
    requires i <= j && j + 1 < |p| && p[j] == kind && p[j + 1] == ']'
    requires forall k :: i <= k < j ==> !(p[k] == kind && p[k + 1] == ']')
    ensures FindClose(p, i, kind) == j
    decreases j - i
  {
    if i < j { CloseFound(p, i + 1, kind, j); }
  }

  lemma {:induction false} CloseIsFirst(p: string, i: nat, kind: char)
    requires i <= |p| && FindClose(p, i, kind) < |p|
    ensures var j := FindClose(p, i, kind);
            && j + 1 < |p| && p[j] == kind && p[j + 1] == ']'
            && (forall k :: i <= k < j ==> !(p[k] == kind && p[k + 1] == ']'))
    decreases |p| - i
  {
    if !(p[i] == kind && At(p, i + 1) == ']') { CloseIsFirst(p, i + 1, kind); }
  }

  lemma {:induction false} PartSkipped(p: string, i: nat, q: Part)
    requires PartAt(p, i, q)
    ensures PartEnd(i, q) <= |p| && BracketEnd(p, i) == BracketEnd(p, PartEnd(i, q))
  {
    if q.Class? {
      CloseFound(p, i + 2, p[i + 1], i + 2 + q.len);
      hide FindClose;
    }
  }

  lemma {:induction false} PartsSkipped(p: string, i: nat, qs: seq<Part>, j: nat)
    requires i <= |p| && j < |p| && p[j] == ']' && PartsAt(p, i, qs, j)
    ensures BracketEnd(p, i) == j
    decreases |qs|
  {
    if qs != [] {
      PartSkipped(p, i, qs[0]);
      PartsSkipped(p, PartEnd(i, qs[0]), qs[1..], j);
    }
  }

  lemma {:induction false} EveryParts(p: string, i: nat) returns (qs: seq<Part>)
    requires i <= |p| && BracketEnd(p, i) < |p|
    ensures PartsAt(p, i, qs, BracketEnd(p, i))
    decreases |p| - i
  {
    if p[i] == ']' {
      qs := [];
    } else {
      var q := if Opens(p, i) then Class(FindClose(p, i + 2, p[i + 1]) - (i + 2)) else Member;
      if Opens(p, i) { CloseIsFirst(p, i + 2, p[i + 1]); }
      PartSkipped(p, i, q);
      var more := EveryParts(p, PartEnd(i, q));
      qs := [q] + more;
      assert qs[1..] == more;
    }
  }

  // ---- the filter, token by token

  lemma {:induction false} TokenScans(p: string, i: nat, j: nat, t: Token, ere: bool, prev: bool)
    requires i < j <= |p| && TokenAt(p, i, j, t, ere)
    ensures Scan(p, i, ere, prev, false) <==> (Repeats(t) ==> prev) && Scan(p, j, ere, Atom(t), false)
  {
    if t.Set? { PartsSkipped(p, SetBody(p, i + 1), t.parts, j - 1); }
    if t.Interval? { IntervalSkipped(p, if ere then i + 1 else i + 2, j, t.len); }
    hide BracketEnd, SkipInterval, PartsAt, IntervalAt;
  }

  lemma {:induction false} TokensScan(p: string, i: nat, ts: seq<Piece>, ere: bool, prev: bool)
    requires i <= |p| && Written(p, i, ts, ere)
    ensures Scan(p, i, ere, prev, false) <==> OnAtoms(ts, prev)
    decreases |ts|
  {
    hide TokenAt, OnAtoms;
    if ts == [] {
      NoneOnAtoms(ts, prev);
    } else {
      var x := ts[0];
      TokenScans(p, i, x.end, x.t, ere, prev);
      hide Scan;
      TokensScan(p, x.end, ts[1..], ere, Atom(x.t));
      OnAtomsStep(ts, prev);
    }
  }

  lemma {:induction false} NoneOnAtoms(ts: seq<Piece>, prev: bool)
    requires ts == []
    ensures OnAtoms(ts, prev)
  {
  }

  /** What the filter accepts begins with a token. */
  lemma {:induction false} FirstToken(p: string, i: nat, ere: bool, prev: bool) returns (t: Token, j: nat)
    requires i < |p| && Scan(p, i, ere, prev, false)
    ensures i < j <= |p| && TokenAt(p, i, j, t, ere)
  {
    var c := p[i];
    if c == '[' {
      hide PartsAt, BracketEnd;
      var qs := EveryParts(p, SetBody(p, i + 1));
      t, j := Set(qs), BracketEnd(p, SetBody(p, i + 1)) + 1;
    } else if (ere && c == '{') || (!ere && c == '\\' && At(p, i + 1) == '{') {
      hide IntervalAt, SkipInterval;
      var n := if ere then i + 1 else i + 2;
      var len := EveryInterval(p, n);
      t, j := Interval(len), SkipInterval(p, n);
    } else {
      t, j := ShortToken(p, i, ere);
    }
  }

  lemma {:induction false} ShortToken(p: string, i: nat, ere: bool) returns (t: Token, j: nat)
    requires i < |p| && p[i] != '[' && !(ere && p[i] == '{')
    requires p[i] == '\\' ==> i + 1 < |p| && (ere || p[i + 1] != '{')
    ensures i < j <= |p| && TokenAt(p, i, j, t, ere)
  {
    hide PartsAt, IntervalAt;
    var c := p[i];
    if c == '\\' {
      var d := p[i + 1];
      j := i + 2;
      t := if ere then Escaped
           else if d == '(' then Open else if d == ')' then Close else if '1' <= d <= '9' then Back else Escaped;
    } else {
      j := i + 1;
      t := if c == '*' || c == '+' || c == '?' then Repeat
           else if ere && c == '(' then Open else if ere && c == ')' then Close else if ere && c == '|' then Or
           else if c == '^' || c == '$' then Anchor else Letter;
    }
  }

  lemma {:induction false} EveryAccepted(p: string, i: nat, ere: bool, prev: bool) returns (ts: seq<Piece>)
    requires i <= |p| && Scan(p, i, ere, prev, false)
    ensures Written(p, i, ts, ere)
    decreases |p| - i
  {
    hide TokenAt, Scan;
    if i == |p| {
      ts := [];
    } else {
      var t, j := FirstToken(p, i, ere, prev);
      TokenScans(p, i, j, t, ere, prev);
      var more := EveryAccepted(p, j, ere, Atom(t));
      ts := [Piece(t, j)] + more;
      assert ts[1..] == more;
    }
  }

  /** The filter accepts exactly the patterns that are written with every repeat right behind something that matches
      one character. */
  lemma {:induction false} AcceptedExactly(p: string, ere: bool)
    ensures Scan(p, 0, ere, false, false) <==> exists ts :: Written(p, 0, ts, ere) && OnAtoms(ts, false)
  {
    hide Scan, Written, OnAtoms;
    if Scan(p, 0, ere, false, false) {
      var ts := EveryAccepted(p, 0, ere, false);
      TokensScan(p, 0, ts, ere, false);
    }
    if ts :| Written(p, 0, ts, ere) && OnAtoms(ts, false) {
      TokensScan(p, 0, ts, ere, false);
    }
  }
}
