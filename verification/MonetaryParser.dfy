// src/misc/strfmon.c: the conversion grammar.

/** The conversion grammar, read as vstrfmon reads it. */
module MonetaryParser {
  import opened Ascii
  import opened Decimals

  datatype Conv = Conv(fill: char, nogrp: bool, negpar: bool, nosym: bool, left: bool,
                       width: nat, lp: nat, rp: nat, intl: bool)

  datatype Outcome<+T> = Fine(value: T, rest: string) | Einval | E2big

  const PREC_MAX: nat := 256

  const NO_FLAGS := Conv(' ', false, false, false, false, 0, 0, 2, false)

  /** The flags in any order; '=' takes the next character as the fill. */
  function Flags(s: string, c: Conv): (r: Outcome<Conv>)
    ensures r.Fine? ==> |r.rest| <= |s|
  {
    if s == "" then Fine(c, s)
    else match s[0]
      case '=' => if |s| == 1 then Einval else Flags(s[2..], c.(fill := s[1]))
      case '^' => Flags(s[1..], c.(nogrp := true))
      case '(' => Flags(s[1..], c.(negpar := true))
      case '+' => Flags(s[1..], c)
      case '!' => Flags(s[1..], c.(nosym := true))
      case '-' => Flags(s[1..], c.(left := true))
      case _ => Fine(c, s)
  }

  /** The field width, given up when one more digit might not fit an unsigned long. */
  function Width(s: string, v: nat, ulong: nat): (r: Outcome<nat>)
    ensures r.Fine? ==> |r.rest| <= |s|
  {
    if s == "" || !Digit(s[0]) then Fine(v, s)
    else if v > (ulong - 1) / 16 then E2big
    else Width(s[1..], v * 10 + Value(s[0]), ulong)
  }

  /** "#n": 0 when absent. */
  function LeftPrecision(s: string, ulong: nat): (r: Outcome<nat>)
    requires 0 < ulong
    ensures r.Fine? ==> |r.rest| <= |s|
  {
    if s == "" || s[0] != '#' then Fine(0, s)
    else
      var n := Number(s[1..], 0, ulong);
      if n.0 > PREC_MAX then E2big else Fine(n.0, n.1)
  }

  /** ".p": the largest unsigned long when absent, which is also what marks it absent. */
  function RightPrecision(s: string, ulong: nat): (r: (nat, string))
    requires 0 < ulong
    ensures |r.1| <= |s|
  {
    if s == "" || s[0] != '.' then (ulong - 1, s) else Number(s[1..], 0, ulong)
  }

  function Finish(c: Conv, rp: nat, s: string, ulong: nat): (r: Outcome<Conv>)
    ensures r.Fine? ==> |r.rest| < |s|
  {
    if s == "" || (s[0] != 'i' && s[0] != 'n') then Einval
    else
      var p := if rp == ulong - 1 then 2 else rp;
      if p > PREC_MAX then E2big else Fine(c.(rp := p, intl := s[0] == 'i'), s[1..])
  }

  /** What stands after a '%' that does not begin "%%". */
  function Conversion(s: string, ulong: nat): (r: Outcome<Conv>)
    requires 0 < ulong
    ensures r.Fine? ==> |r.rest| < |s|
  {
    var f := Flags(s, NO_FLAGS);
    if !f.Fine? then f
    else
      var w := Width(f.rest, 0, ulong);
      if !w.Fine? then E2big
      else
        var l := LeftPrecision(w.rest, ulong);
        if !l.Fine? then E2big
        else
          var p := RightPrecision(l.rest, ulong);
          Finish(f.value.(width := w.value, lp := l.value), p.0, p.1, ulong)
  }

  lemma {:induction false} ConversionBounds(s: string, ulong: nat)
    requires 0 < ulong
    ensures Conversion(s, ulong).Fine? ==>
            Conversion(s, ulong).value.lp <= PREC_MAX && Conversion(s, ulong).value.rp <= PREC_MAX
  {
  }

  // ---- the loops

  method ReadFlags(fmt: string, at: nat) returns (ok: bool, c: Conv, i: nat)
    requires at <= |fmt|
    ensures at <= i <= |fmt|
    ensures Flags(fmt[at..], NO_FLAGS) == if ok then Fine(c, fmt[i..]) else Einval
  {
    i, c := at, NO_FLAGS;
    while i < |fmt|
      invariant at <= i <= |fmt|
      invariant Flags(fmt[at..], NO_FLAGS) == Flags(fmt[i..], c)
    {
      assert fmt[i..][1..] == fmt[i + 1..];
      match fmt[i] {
        case '=' =>
          if i + 1 == |fmt| { return false, c, i; }
          assert fmt[i..][2..] == fmt[i + 2..];
          c := c.(fill := fmt[i + 1]);
          i := i + 1;
        case '^' => c := c.(nogrp := true);
        case '(' => c := c.(negpar := true);
        case '+' =>
        case '!' => c := c.(nosym := true);
        case '-' => c := c.(left := true);
        case _ => return true, c, i;
      }
      i := i + 1;
    }
    return true, c, i;
  }

  method ReadWidth(fmt: string, at: nat, ulong: nat) returns (ok: bool, v: nat, i: nat)
    requires at <= |fmt| && 0x1_0000_0000 <= ulong
    ensures at <= i <= |fmt|
    ensures Width(fmt[at..], 0, ulong) == if ok then Fine(v, fmt[i..]) else E2big
    ensures v < ulong
  {
    i, v := at, 0;
    while i < |fmt| && Digit(fmt[i])
      invariant at <= i <= |fmt| && v < ulong
      invariant Width(fmt[at..], 0, ulong) == Width(fmt[i..], v, ulong)
    {
      if v > (ulong - 1) / 16 { return false, v, i; }
      assert fmt[i..][1..] == fmt[i + 1..];
      v := v * 10 + Value(fmt[i]);
      i := i + 1;
    }
    return true, v, i;
  }

  method ReadNumber(fmt: string, at: nat, ulong: nat) returns (v: nat, i: nat)
    requires at <= |fmt| && 0 < ulong
    ensures at <= i <= |fmt|
    ensures Number(fmt[at..], 0, ulong) == (v, fmt[i..])
  {
    i, v := at, 0;
    while i < |fmt| && Digit(fmt[i])
      invariant at <= i <= |fmt|
      invariant Number(fmt[at..], 0, ulong) == Number(fmt[i..], v, ulong)
    {
      assert fmt[i..][1..] == fmt[i + 1..];
      v := (v * 10 + Value(fmt[i])) % ulong;
      i := i + 1;
    }
  }

  datatype Status = Ok | BadFormat | TooBig

  method ReadLeft(fmt: string, at: nat, ulong: nat) returns (ok: bool, lp: nat, i: nat)
    requires at <= |fmt| && 0 < ulong
    ensures at <= i <= |fmt|
    ensures LeftPrecision(fmt[at..], ulong) == if ok then Fine(lp, fmt[i..]) else E2big
  {
    ok, lp, i := true, 0, at;
    if i < |fmt| && fmt[i] == '#' {
      assert fmt[i..][1..] == fmt[i + 1..];
      lp, i := ReadNumber(fmt, i + 1, ulong);
      ok := lp <= PREC_MAX;
    }
  }

  method ReadRight(fmt: string, at: nat, ulong: nat) returns (rp: nat, i: nat)
    requires at <= |fmt| && 0 < ulong
    ensures at <= i <= |fmt|
    ensures RightPrecision(fmt[at..], ulong) == (rp, fmt[i..])
  {
    rp, i := ulong - 1, at;
    if i < |fmt| && fmt[i] == '.' {
      assert fmt[i..][1..] == fmt[i + 1..];
      rp, i := ReadNumber(fmt, i + 1, ulong);
    }
  }

  function Told(status: Status, c: Conv, rest: string): Outcome<Conv> {
    match status case Ok => Fine(c, rest) case BadFormat => Einval case TooBig => E2big
  }

  method ReadEnd(fmt: string, at: nat, c0: Conv, p: nat, ulong: nat) returns (status: Status, c: Conv, i: nat)
    requires at <= |fmt|
    ensures status.Ok? ==> at < i <= |fmt|
    ensures at <= i <= |fmt| && Finish(c0, p, fmt[at..], ulong) == Told(status, c, fmt[i..])
  {
    i, c := at, c0;
    if i == |fmt| || (fmt[i] != 'i' && fmt[i] != 'n') { return BadFormat, c, i; }
    assert fmt[i..][1..] == fmt[i + 1..];
    c := c.(intl := fmt[i] == 'i');
    i := i + 1;
    var rp := p;
    if rp == ulong - 1 { rp := 2; }
    if rp > PREC_MAX { return TooBig, c, i; }
    c := c.(rp := rp);
    status := Ok;
  }

  method ReadConversion(fmt: string, at: nat, ulong: nat) returns (status: Status, c: Conv, i: nat)
    requires at <= |fmt| && 0x1_0000_0000 <= ulong
    ensures status.Ok? ==> at < i
    ensures at <= i <= |fmt| && Conversion(fmt[at..], ulong) == Told(status, c, fmt[i..])
  {
    hide Flags, Width, Number, LeftPrecision, RightPrecision, Finish;
    var ok, w, lp, rp;
    ok, c, i := ReadFlags(fmt, at);
    if !ok { return BadFormat, c, i; }
    ok, w, i := ReadWidth(fmt, i, ulong);
    if !ok { return TooBig, c, i; }
    ok, lp, i := ReadLeft(fmt, i, ulong);
    if !ok { return TooBig, c, i; }
    rp, i := ReadRight(fmt, i, ulong);
    status, c, i := ReadEnd(fmt, i, c.(width := w, lp := lp), rp, ulong);
  }
}
