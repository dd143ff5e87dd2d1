// src/regex/regex.c: regcomp.

/** regex.c: the recursive-descent compiler, emitting straight into the program. */
module RegexCompiler {
  import opened Ascii
  import opened RegexText

  /** An instruction; a set is known by where its bracket expression stands in the pattern. */
  datatype Inst =
    | Char(c: char) | Any | Set(at: nat) | Bol | Eol
    | Save(slot: nat) | Backref(group: nat)
    | Jmp(x: nat) | Split(x: nat, y: nat) | Match

  datatype Code =
    | ECOLLATE | ECTYPE | EESCAPE | ESUBREG | EBRACK | EPAREN | EBRACE | BADBR | ERANGE | ESPACE | BADRPT

  datatype Result<T> = Ok(value: T) | Err(code: Code) {
    predicate IsFailure() { Err? }
    function PropagateFailure<U>(): Result<U> requires Err? { Err(code) }
    function Extract(): T requires Ok? { value }
  }

  /** The parser's state.  `single` says that what was just compiled is one character's worth
      of atom, and `plain` that every repeat so far was applied to such an atom. */
  datatype Parser = Parser(pos: nat, prog: seq<Inst>, ngroup: nat, closed: set<nat>, single: bool, plain: bool)

  const MAX_PROG := 0x10_0000
  const DUP_MAX := 32767

  predicate ClassName(name: string) {
    name in ["alpha", "digit", "alnum", "upper", "lower", "space",
             "blank", "punct", "cntrl", "graph", "print", "xdigit"]
  }

  function FindChar(p: string, i: nat, c: char): (q: nat)
    requires i <= |p|
    ensures i <= q <= |p|
    decreases |p| - i
  {
    if i == |p| || p[i] == c then i else FindChar(p, i + 1, c)
  }

  /** The members of a bracket expression, up to and past its ']'. */
  function Members(p: string, i: nat, first: bool): (r: Result<nat>)
    requires i <= |p|
    ensures r.Ok? ==> i < r.value <= |p|
    decreases |p| - i
  {
    if i == |p| then Err(EBRACK)
    else if p[i] == ']' && !first then Ok(i + 1)
    else if p[i] == '[' && At(p, i + 1) == ':' then
      var q := FindChar(p, i + 2, ':');
      if q == |p| || At(p, q + 1) != ']' then Err(EBRACK)
      else if !ClassName(p[i + 2..q]) then Err(ECTYPE)
      else Members(p, q + 2, false)
    else if p[i] == '[' && (At(p, i + 1) == '.' || At(p, i + 1) == '=') then
      var q := FindClose(p, i + 2, p[i + 1]);
      if q == |p| then Err(EBRACK)
      else if q != i + 3 then Err(ECOLLATE)
      else Members(p, q + 2, false)
    else if At(p, i + 1) == '-' && i + 2 < |p| && p[i + 2] != ']' then
      if p[i + 2] < p[i] then Err(ERANGE) else Members(p, i + 3, false)
    else Members(p, i + 1, false)
  }

  function Bracket(p: string, i: nat): (r: Result<nat>)
    requires i <= |p|
    ensures r.Ok? ==> i < r.value <= |p|
  {
    Members(p, if At(p, i) == '^' then i + 1 else i, true)
  }

  /** A decimal number and where it ends; refused past DUP_MAX. */
  function Number(p: string, i: nat, acc: nat): (r: Result<(nat, nat)>)
    requires i <= |p|
    ensures r.Ok? ==> i <= r.value.1 <= |p|
    decreases |p| - i
  {
    if i == |p| || !Digit(p[i]) then Ok((acc, i))
    else
      var v := acc * 10 + (p[i] as nat - '0' as nat);
      if v > DUP_MAX then Err(BADBR) else Number(p, i + 1, v)
  }

  /** The bounds of an interval (-1 for no upper bound) and where they end. */
  datatype Bound = Bound(m: nat, n: int, pos: nat)

  function Bounds(p: string, i: nat): (r: Result<Bound>)
    requires i <= |p|
    ensures r.Ok? ==> i <= r.value.pos <= |p| && (r.value.n == -1 || r.value.m <= r.value.n)
  {
    if !Digit(At(p, i)) then Err(BADBR) else
    var (m, j) :- Number(p, i, 0);
    if At(p, j) != ',' then Ok(Bound(m, m, j))
    else if !Digit(At(p, j + 1)) then Ok(Bound(m, -1, j + 1))
    else
      var (n, k) :- Number(p, j + 1, 0);
      if n < m then Err(BADBR) else Ok(Bound(m, n, k))
  }

  /** A copy of compiled code whose jumps follow it when it moves `d` places on. */
  function Moved(inst: Inst, d: nat): Inst {
    match inst
    case Jmp(x) => Jmp(x + d)
    case Split(x, y) => Split(x + d, y + d)
    case _ => inst
  }

  function Reloc(code: seq<Inst>, d: nat): (r: seq<Inst>)
    ensures |r| == |code|
  {
    seq(|code|, i requires 0 <= i < |code| => Moved(code[i], d))
  }

  /** `atom`, compiled at `start`, wrapped as zero or more, at `start + d`. */
  function Star(atom: seq<Inst>, start: nat, d: nat): seq<Inst> {
    [Split(start + d + 1, start + d + |atom| + 2)] + Reloc(atom, d + 1) + [Jmp(start + d)]
  }

  function Plus(atom: seq<Inst>, start: nat): seq<Inst> {
    Reloc(atom, 0) + [Split(start, start + |atom| + 1)]
  }

  function Optional(atom: seq<Inst>, start: nat, d: nat): seq<Inst> {
    [Split(start + d + 1, start + d + |atom| + 1)] + Reloc(atom, d + 1)
  }

  function Copies(atom: seq<Inst>, m: nat): seq<Inst> {
    if m == 0 then [] else Copies(atom, m - 1) + Reloc(atom, |atom| * (m - 1))
  }

  function Optionals(atom: seq<Inst>, start: nat, d: nat, k: nat): seq<Inst>
    decreases k
  {
    if k == 0 then [] else Optional(atom, start, d) + Optionals(atom, start, d + |atom| + 1, k - 1)
  }

  function Interval(atom: seq<Inst>, start: nat, b: Bound): seq<Inst>
    requires b.n == -1 || b.m <= b.n
  {
    if b.m == 0 && b.n == -1 then Star(atom, start, 0)
    else if b.n == -1 then Copies(atom, b.m) + Star(atom, start, |Copies(atom, b.m)|)
    else Copies(atom, b.m) + Optionals(atom, start, |Copies(atom, b.m)|, b.n - b.m)
  }

  /** The program may not outgrow its ceiling. */
  function Fits(ps: Parser): (r: Result<Parser>)
    ensures r.Ok? ==> r.value == ps
  {
    if |ps.prog| <= MAX_PROG then Ok(ps) else Err(ESPACE)
  }

  function Emit(ps: Parser, pos: nat, inst: Inst, single: bool): (r: Result<Parser>)
    ensures r.Ok? ==> r.value == ps.(pos := pos, prog := ps.prog + [inst], single := single)
  {
    Fits(ps.(pos := pos, prog := ps.prog + [inst], single := single))
  }

  /** The expansion of an interval is refused before any of it is emitted. */
  predicate Oversized(start: nat, len: nat, b: Bound)
    requires start <= MAX_PROG && -1 <= b.n
  {
    var copies := if b.n == -1 then b.m + 1 else b.n;
    copies != 0 && len + 1 > (MAX_PROG - start) / copies
  }

  predicate Repeats(p: string, i: nat, ere: bool) {
    At(p, i) == '*' || (ere && (At(p, i) == '+' || At(p, i) == '?' || At(p, i) == '{'))
    || (!ere && At(p, i) == '\\' && At(p, i + 1) == '{')
  }

  function Wrap(ps: Parser, start: nat, pos: nat, code: seq<Inst>): (r: Result<Parser>)
    requires start <= |ps.prog|
    ensures r.Ok? ==>
            r.value == ps.(pos := pos, prog := ps.prog[..start] + code, single := false, plain := ps.plain && ps.single)
  {
    Fits(ps.(pos := pos, prog := ps.prog[..start] + code, single := false, plain := ps.plain && ps.single))
  }

  /** One repeat operator, applied to the code from `start` on. */
  function Repeat1(p: string, ere: bool, ps: Parser, start: nat): (r: Result<Parser>)
    requires ps.pos < |p| && start <= |ps.prog| <= MAX_PROG && Repeats(p, ps.pos, ere)
    ensures r.Ok? ==> ps.pos < r.value.pos <= |p| && start <= |r.value.prog| <= MAX_PROG
    ensures r.Ok? ==> r.value.prog[..start] == ps.prog[..start]
    ensures r.Ok? ==> !r.value.single && r.value.plain == (ps.plain && ps.single)
    ensures r.Ok? ==> r.value.ngroup == ps.ngroup && r.value.closed == ps.closed
  {
    var c, atom := p[ps.pos], ps.prog[start..];
    if c == '*' then Wrap(ps, start, ps.pos + 1, Star(atom, start, 0))
    else if c == '+' then Wrap(ps, start, ps.pos + 1, Plus(atom, start))
    else if c == '?' then Wrap(ps, start, ps.pos + 1, Optional(atom, start, 0))
    else
      var b :- Bounds(p, ps.pos + if ere then 1 else 2);
      var close := if ere then At(p, b.pos) == '}' else At(p, b.pos) == '\\' && At(p, b.pos + 1) == '}';
      if !close then Err(if b.pos < |p| then BADBR else EBRACE)
      else if Oversized(start, |atom|, b) then Err(ESPACE)
      else Wrap(ps, start, b.pos + if ere then 1 else 2, Interval(atom, start, b))
  }

  function ApplyRepeat(p: string, ere: bool, ps: Parser, start: nat): (r: Result<Parser>)
    requires ps.pos <= |p| && start <= |ps.prog| <= MAX_PROG
    ensures r.Ok? ==> ps.pos <= r.value.pos <= |p| && start <= |r.value.prog| <= MAX_PROG
    ensures r.Ok? ==> r.value.prog[..start] == ps.prog[..start] && (r.value.plain ==> ps.plain)
    decreases |p| - ps.pos
  {
    if ps.pos == |p| || !Repeats(p, ps.pos, ere) then Ok(ps) else
    var q :- Repeat1(p, ere, ps, start);
    ApplyRepeat(p, ere, q, start)
  }

  function Literal(p: string, ps: Parser, pos: nat): (r: Result<Parser>)
    requires pos <= |p|
    ensures r.Ok? ==> pos < |p| && r.value == ps.(pos := pos + 1, prog := ps.prog + [Char(p[pos])], single := true)
  {
    if pos == |p| then Err(EESCAPE) else Emit(ps, pos + 1, Char(p[pos]), true)
  }

  /** What every parsing function does with the state it is given. */
  predicate Extends(p: string, ps: Parser, r: Parser) {
    ps.pos <= r.pos <= |p| && |ps.prog| <= |r.prog| <= MAX_PROG && r.prog[..|ps.prog|] == ps.prog
    && (r.plain ==> ps.plain)
  }

  function EreAtom(p: string, ps: Parser): (r: Result<Parser>)
    requires ps.pos < |p| && |ps.prog| <= MAX_PROG
    ensures r.Ok? ==> Extends(p, ps, r.value) && ps.pos < r.value.pos
    decreases |p| - ps.pos, 0
  {
    var c := p[ps.pos];
    if c == '(' then
      var g := ps.ngroup;
      if g >= MAX_PROG / 2 then Err(ESPACE) else
      var q :- Emit(ps.(ngroup := g + 1), ps.pos + 1, Save(2 * g), false);
      var r :- EreAlt(p, q);
      if At(p, r.pos) != ')' then Err(EPAREN) else Emit(r, r.pos + 1, Save(2 * g + 1), false)
    else if c == '.' then Emit(ps, ps.pos + 1, Any, true)
    else if c == '^' then Emit(ps, ps.pos + 1, Bol, false)
    else if c == '$' then Emit(ps, ps.pos + 1, Eol, false)
    else if c == '[' then
      var j :- Bracket(p, ps.pos + 1);
      Emit(ps, j, Set(ps.pos), true)
    else if c == '\\' then Literal(p, ps, ps.pos + 1)
    else Literal(p, ps, ps.pos)
  }

  function EreBranch(p: string, ps: Parser, first: bool): (r: Result<Parser>)
    requires ps.pos <= |p| && |ps.prog| <= MAX_PROG
    ensures r.Ok? ==> Extends(p, ps, r.value)
    decreases |p| - ps.pos, 1
  {
    var c := At(p, ps.pos);
    if ps.pos == |p| || c == '|' || c == ')' then Ok(ps)
    else if first && (c == '*' || c == '+' || c == '?' || c == '{') then Err(BADRPT)
    else
      var a :- EreAtom(p, ps);
      var q :- ApplyRepeat(p, true, a, |ps.prog|);
      EreBranch(p, q, false)
  }

  function EreAlt(p: string, ps: Parser): (r: Result<Parser>)
    requires ps.pos <= |p| && |ps.prog| <= MAX_PROG
    ensures r.Ok? ==> Extends(p, ps, r.value)
    decreases |p| - ps.pos, 2
  {
    var start := |ps.prog|;
    var b :- EreBranch(p, ps, true);
    if At(p, b.pos) != '|' then Ok(b) else
    var len := |b.prog| - start;
    var code := [Split(start + 1, start + len + 2)] + Reloc(b.prog[start..], 1) + [Jmp(0)];
    var q :- Fits(b.(pos := b.pos + 1, prog := ps.prog + code));
    var r :- EreAlt(p, q);
    // the first branch's jump is aimed past the others once they are there
    Ok(r.(prog := r.prog[start + len + 1 := Jmp(|r.prog|)]))
  }

  function BreAtom(p: string, ps: Parser, atStart: bool): (r: Result<Parser>)
    requires ps.pos < |p| && |ps.prog| <= MAX_PROG
    ensures r.Ok? ==> Extends(p, ps, r.value) && ps.pos < r.value.pos
    decreases |p| - ps.pos, 0
  {
    var i := ps.pos;
    var c, d := p[i], At(p, i + 1);
    if c == '\\' && d == '(' then
      var g := ps.ngroup;
      if g >= MAX_PROG / 2 then Err(ESPACE) else
      var q :- Emit(ps.(ngroup := g + 1), i + 2, Save(2 * g), false);
      var r :- BreBranch(p, q, true);
      if At(p, r.pos) != '\\' || At(p, r.pos + 1) != ')' then Err(EPAREN) else
      Emit(r.(closed := if g <= 9 then r.closed + {g} else r.closed), r.pos + 2, Save(2 * g + 1), false)
    else if c == '\\' && '1' <= d <= '9' then
      var g := d as nat - '0' as nat;
      if g !in ps.closed then Err(ESUBREG) else Emit(ps, i + 2, Backref(g), false)
    else if c == '.' then Emit(ps, i + 1, Any, true)
    else if c == '^' && atStart then Emit(ps, i + 1, Bol, false)
    else if c == '$' && (i + 1 == |p| || (d == '\\' && At(p, i + 2) == ')')) then Emit(ps, i + 1, Eol, false)
    else if c == '[' then
      var j :- Bracket(p, i + 1);
      Emit(ps, j, Set(i), true)
    else if c == '\\' then Literal(p, ps, i + 1)
    else Literal(p, ps, i)
  }

  function BreBranch(p: string, ps: Parser, first: bool): (r: Result<Parser>)
    requires ps.pos <= |p| && |ps.prog| <= MAX_PROG
    ensures r.Ok? ==> Extends(p, ps, r.value)
    decreases |p| - ps.pos, 1
  {
    var c := At(p, ps.pos);
    if ps.pos == |p| || (c == '\\' && At(p, ps.pos + 1) == ')') then Ok(ps)
    else
      var a :- BreAtom(p, ps, first);
      if first && c == '^' then BreBranch(p, a, true)
      else if first && c == '*' then BreBranch(p, a, false)
      else
        var q :- ApplyRepeat(p, false, a, |ps.prog|);
        BreBranch(p, q, false)
  }

  /** regcomp: the whole program, and whether every repeat was applied to a one-character atom. */
  function RegComp(p: string, ere: bool): Result<Parser> {
    var ps := Parser(0, [Save(0)], 1, {}, false, true);
    var r :- if ere then EreAlt(p, ps) else BreBranch(p, ps, true);
    if r.pos < |p| then Err(EPAREN) else
    Fits(r.(prog := r.prog + [Save(1), Match]))
  }
}
