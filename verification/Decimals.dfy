// src/misc/strfmon.c and fuzz/fuzz_strfmon.c: numbers written and read.

/** Decimal numbers as text. */
module Decimals {
  import opened Ascii

  function DigitOf(d: nat): char
    requires d < 10
  {
    '0' + d as char
  }

  function Value(c: char): nat
    requires Digit(c)
  {
    (c - '0') as nat
  }

  function Decimal(v: nat): string { if v < 10 then [DigitOf(v)] else Decimal(v / 10) + [DigitOf(v % 10)] }

  /** The number read from the front of s after `v`, in unsigned arithmetic modulo `ulong`. */
  function Number(s: string, v: nat, ulong: nat): (r: (nat, string))
    requires 0 < ulong
    ensures |r.1| <= |s|
  {
    if s == "" || !Digit(s[0]) then (v, s) else Number(s[1..], (v * 10 + Value(s[0])) % ulong, ulong)
  }

  predicate AllDigits(ds: string) { forall k :: 0 <= k < |ds| ==> Digit(ds[k]) }

  /** The number that digits behind v make. */
  function Fold(v: nat, ds: string): nat
    requires AllDigits(ds)
    decreases |ds|
  {
    if ds == "" then v else Fold(v * 10 + Value(ds[0]), ds[1..])
  }

  lemma {:induction false} FoldGrows(v: nat, ds: string)
    requires AllDigits(ds)
    ensures v <= Fold(v, ds)
    decreases |ds|
  {
    if ds != "" { FoldGrows(v * 10 + Value(ds[0]), ds[1..]); }
  }

  lemma {:induction false} FoldSnoc(v: nat, ds: string, c: char)
    requires AllDigits(ds) && Digit(c)
    ensures AllDigits(ds + [c]) && Fold(v, ds + [c]) == Fold(v, ds) * 10 + Value(c)
    decreases |ds|
  {
    if ds == "" {
      assert (ds + [c])[1..] == "";
    } else {
      FoldSnoc(v * 10 + Value(ds[0]), ds[1..], c);
      assert (ds + [c])[1..] == ds[1..] + [c];
    }
  }

  lemma {:induction false} DecimalFolds(v: nat)
    ensures AllDigits(Decimal(v)) && Decimal(v) != "" && Fold(0, Decimal(v)) == v
  {
    if v < 10 {
      var d := Decimal(v);
      assert d[1..] == "" && Value(d[0]) == v;
    } else {
      DecimalFolds(v / 10);
      FoldSnoc(0, Decimal(v / 10), DigitOf(v % 10));
      assert Value(DigitOf(v % 10)) == v % 10;
    }
  }

  function Pow10(k: nat): nat { if k == 0 then 1 else 10 * Pow10(k - 1) }

  lemma {:induction false} DecimalLength(v: nat, k: nat)
    requires 0 < k && v < Pow10(k)
    ensures 1 <= |Decimal(v)| <= k
  {
    if v >= 10 { DecimalLength(v / 10, k - 1); }
  }

  /** A multiple of m strictly between -m and m is 0. */
  lemma {:induction false} OnlyZero(m: int, k: int, e: int)
    requires 0 < m && m * k == e && -m < e < m
    ensures k == 0
  {
    if k >= 1 { Grows(m, k - 1); } else if k <= -1 { Grows(m, -k - 1); }
  }

  lemma {:induction false} Grows(m: int, k: int)
    requires 0 < m && 0 <= k
    ensures m * (k + 1) >= m && m * -(k + 1) <= -m
  {
    assert m * (k + 1) == m * k + m;
    assert m * k >= 0;
    assert m * -(k + 1) == -(m * (k + 1));
  }

  lemma {:induction false} SameRemainder(x: nat, y: nat, n: int, m: nat)
    requires 0 < m && y == x + m * n
    ensures y % m == x % m
  {
    var p, q := x / m, y / m;
    assert x == m * p + x % m && y == m * q + y % m;
    assert m * (q - p - n) == m * q - m * p - m * n;
    OnlyZero(m, q - p - n, x % m - y % m);
  }

  lemma {:induction false} Modular(a: nat, d: nat, m: nat)
    requires 0 < m
    ensures ((a % m) * 10 + d) % m == (a * 10 + d) % m
  {
    var q, r := a / m, a % m;
    assert a == m * q + r;
    assert m * (q * 10) == (m * q) * 10;
    SameRemainder(r * 10 + d, a * 10 + d, q * 10, m);
  }

  /** Reading back what was written, whatever follows. */
  lemma {:induction false} NumberReads(v: nat, rest: string, ulong: nat)
    requires 10 <= ulong
    ensures Number(Decimal(v) + rest, 0, ulong) == Number(rest, v % ulong, ulong)
  {
    if v < 10 {
      assert (Decimal(v) + rest)[1..] == rest;
    } else {
      var d := [DigitOf(v % 10)];
      NumberReads(v / 10, d + rest, ulong);
      assert Decimal(v) + rest == Decimal(v / 10) + (d + rest);
      assert (d + rest)[1..] == rest;
      Modular(v / 10, v % 10, ulong);
    }
  }

  /** put_u64: the digits, gathered backwards in a 24-byte buffer, written at p[at..]. */
  method PutU64(p: array<char>, at: nat, v: nat) returns (n: nat)
    requires v < 0x1_0000_0000_0000_0000 && at + 20 <= p.Length
    modifies p
    ensures n == |Decimal(v)| <= 20
    ensures p[..at + n] == old(p[..at]) + Decimal(v)
    ensures forall i :: at + n <= i < p.Length ==> p[i] == old(p[i])
  {
    var rev, count := Gather(v);
    n := count;
    ghost var text := Decimal(v);
    hide Decimal;
    var i := 0;
    while n > 0
      invariant i + n == count == |text|
      invariant forall k :: 0 <= k < i ==> p[at + k] == text[k]
      invariant forall k :: 0 <= k < p.Length && !(at <= k < at + i) ==> p[k] == old(p[k])
      invariant forall k :: 0 <= k < count ==> rev[k] == text[count - 1 - k]
    {
      n := n - 1;
      p[at + i] := rev[n];
      i := i + 1;
    }
    n := i;
  }

  /** The digits, least significant first; 24 bytes are enough. */
  method Gather(v: nat) returns (rev: array<char>, n: nat)
    requires v < 0x1_0000_0000_0000_0000
    ensures fresh(rev) && rev.Length == 24 && n == |Decimal(v)| <= 20
    ensures forall k :: 0 <= k < n ==> rev[k] == Decimal(v)[n - 1 - k]
  {
    rev, n := new char[24](_ => '0'), 0;
    FitsTwenty(v);
    ghost var text := Decimal(v);
    var left, more := v, true;
    hide Decimal, DigitOf;
    while more
      invariant n <= |text| && Pending(text, left, n, more)
      invariant forall k :: 0 <= k < n ==> rev[k] == text[|text| - 1 - k]
      decreases if more then left + 1 else 0
    {
      LastDigit(text, left, n);
      rev[n] := DigitOf(left % 10);
      n := n + 1;
      left := left / 10;
      more := left != 0;
    }
  }

  /** All but the last n digits of `text` are those of `left`, or there are none left. */
  predicate Pending(text: string, left: nat, n: nat, more: bool)
    requires n <= |text|
  {
    if more then n < |text| && text[..|text| - n] == Decimal(left) else n == |text|
  }

  lemma {:induction false} LastDigit(text: string, left: nat, n: nat)
    requires n <= |text| && Pending(text, left, n, true)
    ensures text[|text| - 1 - n] == DigitOf(left % 10)
    ensures Pending(text, left / 10, n + 1, left / 10 != 0)
  {
    var t := text[..|text| - n];
    assert t[..|t| - 1] == text[..|text| - n - 1];
    if left >= 10 {
      assert t[..|t| - 1] == Decimal(left / 10);
    }
  }

  lemma {:induction false} FitsTwenty(v: nat)
    requires v < 0x1_0000_0000_0000_0000
    ensures |Decimal(v)| <= 20
  {
    assert Pow10(5) == 100_000;
    assert Pow10(10) == 100_000 * Pow10(5);
    assert Pow10(15) == 100_000 * Pow10(10);
    assert Pow10(20) == 100_000 * Pow10(15);
    DecimalLength(v, 20);
  }
}
