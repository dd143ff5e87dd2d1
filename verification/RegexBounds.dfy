// src/regex/regex.c: the bounds of an interval, as they are written.

/** Intervals written in decimal. */
module RegexBounds {
  import opened Ascii
  import opened Decimals
  import opened RegexText
  import opened RegexCompiler

  /** The digits ds stand at i, and no more. */
  predicate DigitsAt(p: string, i: nat, ds: string) {
    i + |ds| <= |p| && p[i..i + |ds|] == ds && !Digit(At(p, i + |ds|))
  }

  lemma {:induction false} NumberFolds(p: string, i: nat, v: nat, ds: string)
    requires AllDigits(ds) && DigitsAt(p, i, ds) && (ds != "" ==> Fold(v, ds) <= DUP_MAX)
    ensures RegexCompiler.Number(p, i, v) == Ok((Fold(v, ds), i + |ds|))
    decreases |ds|
  {
    if ds == "" {
    } else {
      assert p[i] == p[i..i + |ds|][0] == ds[0];
      assert p[i + 1..i + |ds|] == p[i..i + |ds|][1..] == ds[1..];
      FoldGrows(v * 10 + Value(ds[0]), ds[1..]);
      NumberFolds(p, i + 1, v * 10 + Value(ds[0]), ds[1..]);
    }
  }

  lemma {:induction false} NumberReads(p: string, i: nat, v: nat)
    requires DigitsAt(p, i, Decimal(v)) && v <= DUP_MAX
    ensures RegexCompiler.Number(p, i, 0) == Ok((v, i + |Decimal(v)|)) && Digit(At(p, i))
  {
    DecimalFolds(v);
    NumberFolds(p, i, 0, Decimal(v));
    assert p[i] == p[i..i + |Decimal(v)|][0];
  }

  /** The bounds m, or m and a comma, or m, a comma and n, read as what they say. */
  lemma {:induction false} BoundsRead(p: string, i: nat, m: nat, n: int)
    requires m <= DUP_MAX && (n == -1 || m <= n <= DUP_MAX) && DigitsAt(p, i, Decimal(m))
    requires var j := i + |Decimal(m)|;
             if n == m then At(p, j) != ',' || DigitsAt(p, j + 1, Decimal(m))
             else At(p, j) == ',' && if n == -1 then !Digit(At(p, j + 1)) else DigitsAt(p, j + 1, Decimal(n))
    ensures Bounds(p, i).Ok? && Bounds(p, i).value.m == m && Bounds(p, i).value.n == n
  {
    var j := i + |Decimal(m)|;
    NumberReads(p, i, m);
    if At(p, j) == ',' && n != -1 { NumberReads(p, j + 1, n); }
    hide RegexCompiler.Number;
  }
}
