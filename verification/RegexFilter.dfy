// fuzz/fuzz_regex.c: the nullable-repeat filter.

/** fuzz_regex.c: safe_to_exec. */
module RegexFilter {
  import opened RegexText

  /** Past the '}' that ends an interval, or the end. */
  function SkipInterval(p: string, i: nat): (j: nat)
    requires i <= |p|
    ensures i <= j <= |p|
    decreases |p| - i
  {
    if i == |p| then i else if p[i] == '}' then i + 1 else SkipInterval(p, i + 1)
  }

  /** The ']' that ends a bracket expression, or the end. */
  function BracketEnd(p: string, i: nat): (j: nat)
    requires i <= |p|
    ensures i <= j <= |p| && (j < |p| ==> p[j] == ']')
    decreases |p| - i
  {
    if i == |p| || p[i] == ']' then i
    else if Opens(p, i) then
      var q := FindClose(p, i + 2, p[i + 1]);
      if q == |p| then q else BracketEnd(p, q + 2)
    else BracketEnd(p, i + 1)
  }

  /** Past '^' and a leading ']'. */
  function BracketBody(p: string, i: nat): (q: nat)
    requires i <= |p|
    ensures i <= q <= |p|
  {
    var j := if At(p, i) == '^' then i + 1 else i;
    if At(p, j) == ']' then j + 1 else j
  }

  /** The ']' that ends a bracket expression whose ranges are stepped over whole, as the compiler steps. */
  function MembersEnd(p: string, i: nat, first: bool): (j: nat)
    requires i <= |p|
    ensures i <= j <= |p| && (j < |p| ==> p[j] == ']')
    decreases |p| - i
  {
    if i == |p| || (p[i] == ']' && !first) then i
    else if Opens(p, i) then
      var q := FindClose(p, i + 2, p[i + 1]);
      if q == |p| then q else MembersEnd(p, q + 2, false)
    else if At(p, i + 1) == '-' && i + 2 < |p| && p[i + 2] != ']' then MembersEnd(p, i + 3, false)
    else MembersEnd(p, i + 1, false)
  }

  /** Where a bracket expression ends: as the filter reads it, or with `ranges` as the compiler does. */
  function BracketStop(p: string, i: nat, ranges: bool): (j: nat)
    requires i <= |p|
    ensures i <= j <= |p|
  {
    if ranges then MembersEnd(p, if At(p, i) == '^' then i + 1 else i, true) else BracketEnd(p, BracketBody(p, i))
  }

  /** The filter's scan.  With `ranges` it would step over ranges whole. */
  predicate Scan(p: string, i: nat, ere: bool, prev: bool, ranges: bool)
    requires i <= |p|
    decreases |p| - i
  {
    if i == |p| then true else
    var c, d := p[i], At(p, i + 1);
    if c == '\\' then
      if i + 1 == |p| then false
      else if !ere && (d == '(' || d == ')') then Scan(p, i + 2, ere, false, ranges)
      else if !ere && d == '{' then prev && Scan(p, SkipInterval(p, i + 2), ere, false, ranges)
      else if !ere && '1' <= d <= '9' then Scan(p, i + 2, ere, false, ranges)
      else Scan(p, i + 2, ere, true, ranges)
    else if c == '[' then
      var q := BracketStop(p, i + 1, ranges);
      q < |p| && Scan(p, q + 1, ere, true, ranges)
    else if c == '*' || c == '+' || c == '?' then prev && Scan(p, i + 1, ere, false, ranges)
    else if ere && c == '{' then prev && Scan(p, SkipInterval(p, i + 1), ere, false, ranges)
    else if ere && (c == '(' || c == ')' || c == '|') then Scan(p, i + 1, ere, false, ranges)
    else if c == '^' || c == '$' then Scan(p, i + 1, ere, false, ranges)
    else Scan(p, i + 1, ere, true, ranges)
  }

  /** The filter accepts more after an atom than after anything else. */
  lemma {:induction false} ScanMonotone(p: string, i: nat, ere: bool, prev: bool, ranges: bool)
    requires i <= |p| && Scan(p, i, ere, prev, ranges)
    ensures Scan(p, i, ere, true, ranges)
  {
  }

  method SkipIntervalFrom(p: string, start: nat) returns (i: nat)
    requires start <= |p|
    ensures i == SkipInterval(p, start)
  {
    i := start;
    while i < |p| && p[i] != '}'
      invariant start <= i <= |p| && SkipInterval(p, i) == SkipInterval(p, start)
    {
      i := i + 1;
    }
    if i < |p| { i := i + 1; }
  }

  method FindCloseFrom(p: string, start: nat, kind: char) returns (r: nat)
    requires start <= |p|
    ensures r == FindClose(p, start, kind)
  {
    r := start;
    while r < |p| && !(p[r] == kind && At(p, r + 1) == ']')
      invariant start <= r <= |p| && FindClose(p, r, kind) == FindClose(p, start, kind)
    {
      r := r + 1;
    }
  }

  method SkipBracketFrom(p: string, start: nat) returns (q: nat)
    requires start <= |p|
    ensures q == BracketStop(p, start, false)
  {
    hide FindClose;
    q := start;
    if At(p, q) == '^' { q := q + 1; }
    if At(p, q) == ']' { q := q + 1; }
    ghost var whole := BracketEnd(p, q);
    while q < |p| && p[q] != ']'
      invariant start <= q <= |p| && BracketEnd(p, q) == whole
      decreases |p| - q
    {
      if Opens(p, q) {
        var r := FindCloseFrom(p, q + 2, p[q + 1]);
        q := if r < |p| then r + 2 else r;
      } else {
        q := q + 1;
      }
    }
  }

  /** True iff no repeat operator applies to anything but an ordinary atom. */
  method SafeToExec(p: string, ere: bool) returns (safe: bool)
    ensures safe == Scan(p, 0, ere, false, false)
  {
    var prev, i := false, 0;
    while i < |p|
      invariant 0 <= i <= |p| && Scan(p, i, ere, prev, false) == Scan(p, 0, ere, false, false)
      decreases |p| - i
    {
      var c, d := p[i], At(p, i + 1);
      if c == '\\' {
        if i + 1 == |p| { return false; }
        if !ere && (d == '(' || d == ')') { prev, i := false, i + 2; continue; }
        if !ere && d == '{' {
          if !prev { return false; }
          prev := false;
          i := SkipIntervalFrom(p, i + 2);
          continue;
        }
        if !ere && '1' <= d <= '9' { prev, i := false, i + 2; continue; }
        prev, i := true, i + 2;
        continue;
      }
      if c == '[' {
        var q := SkipBracketFrom(p, i + 1);
        if q == |p| { return false; }
        prev, i := true, q + 1;
        continue;
      }
      if c == '*' || c == '+' || c == '?' {
        if !prev { return false; }
        prev, i := false, i + 1;
        continue;
      }
      if ere && c == '{' {
        if !prev { return false; }
        prev := false;
        i := SkipIntervalFrom(p, i + 1);
        continue;
      }
      if ere && (c == '(' || c == ')' || c == '|') { prev, i := false, i + 1; continue; }
      if c == '^' || c == '$' { prev, i := false, i + 1; continue; }
      prev, i := true, i + 1;
    }
    return true;
  }
}
