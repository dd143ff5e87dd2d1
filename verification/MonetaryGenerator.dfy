// fuzz/fuzz_strfmon.c: the formats it generates, and what strfmon makes of them.

/** fuzz_strfmon.c's formats: one conversion chosen by the input, with optional letters around it. */
module MonetaryGenerator {
  import opened Ascii
  import opened Decimals
  import opened Options
  import opened MonetaryParser
  import opened MonetaryText

  type Byte = b: int | 0 <= b < 256

  /** What an input chooses. */
  datatype Choice = Choice(prefix: Option<char>, fill: Option<char>, caret: bool, sign: Option<char>,
                           bang: bool, minus: bool,
                           width: Option<nat>, lp: Option<nat>, rp: Option<nat>,
                           intl: bool, percent: bool, suffix: Option<char>)

  predicate Wellformed(ch: Choice) {
    && (ch.prefix.Some? ==> 'a' <= ch.prefix.value <= 'z') && (ch.suffix.Some? ==> 'A' <= ch.suffix.value <= 'Z')
    && (ch.sign.Some? ==> ch.sign.value == '(' || ch.sign.value == '+')
    && (ch.width.Some? ==> ch.width.value < 0x1_0000_0000_0000_0000)
    && (ch.lp.Some? ==> ch.lp.value < 0x1_0000_0000_0000_0000)
    && (ch.rp.Some? ==> ch.rp.value < 0x1_0000_0000_0000_0000)
  }

  function One(c: Option<char>): string { if c.Some? then [c.value] else "" }

  function If(b: bool, s: string): string { if b then s else "" }

  function Num(lead: string, n: Option<nat>): string { if n.Some? then lead + Decimal(n.value) else "" }

  /** Concatenation, one step at a time. */
  function Cat(a: string, b: string): string { a + b }

  lemma {:induction false} CatAssoc(a: string, b: string, c: string)
    ensures Cat(Cat(a, b), c) == Cat(a, Cat(b, c))
  {
    assert (a + b) + c == a + (b + c);
  }

  /** The fill, then t. */
  function FillText(fill: Option<char>, t: string): string { Cat(If(fill.Some?, "="), Cat(One(fill), t)) }

  /** The flags, then t. */
  function FlagText(ch: Choice, t: string): string {
    FillText(ch.fill, Cat(If(ch.caret, "^"), Cat(One(ch.sign), Cat(If(ch.bang, "!"), Cat(If(ch.minus, "-"), t)))))
  }

  function Letter(intl: bool): string { if intl then "i" else "n" }

  /** The numbers and the conversion character, then t. */
  function NumberText(ch: Choice, t: string): string {
    Cat(Num("", ch.width), Cat(Num("#", ch.lp), Cat(Num(".", ch.rp), Cat(Letter(ch.intl), t))))
  }

  function TailText(ch: Choice): string { Cat(If(ch.percent, "%"), Cat(If(ch.percent, "%"), Cat(One(ch.suffix), ""))) }

  function FormatOf(ch: Choice): string { Cat(One(ch.prefix), Cat("%", FlagText(ch, NumberText(ch, TailText(ch))))) }

  // ---- what the parser makes of it

  function Flagged(ch: Choice): Conv {
    Conv(if ch.fill.Some? then ch.fill.value else ' ',
         ch.caret, ch.sign == Some('('), ch.bang, ch.minus, 0, 0, 2, false)
  }

  function Given(n: Option<nat>): nat { if n.Some? then n.value else 0 }

  /** A given number as an unsigned long. */
  function Wrapped(n: Option<nat>, absent: nat, ulong: nat): nat
    requires 0 < ulong
  {
    if n.Some? then n.value % ulong else absent
  }

  /** The right precision in force: 2 where the number read is the one that marks none. */
  function Precision(ch: Choice, ulong: nat): nat
    requires 0 < ulong
  {
    var p := Wrapped(ch.rp, ulong - 1, ulong);
    if p == ulong - 1 then 2 else p
  }

  /** A width the parser takes: all digits but the last make at most a sixteenth of the largest
      unsigned long. */
  predicate Fits(width: nat, ulong: nat)
    requires 0 < ulong
  {
    width / 10 <= (ulong - 1) / 16
  }

  /** The numbers the parser accepts. */
  predicate Accepted(ch: Choice, ulong: nat)
    requires 0 < ulong
  {
    && Fits(Given(ch.width), ulong)
    && Wrapped(ch.lp, 0, ulong) <= PREC_MAX && Precision(ch, ulong) <= PREC_MAX
  }

  function Chosen(ch: Choice, ulong: nat): Conv
    requires 0 < ulong
  {
    Flagged(ch).(width := Given(ch.width), lp := Wrapped(ch.lp, 0, ulong), rp := Precision(ch, ulong), intl := ch.intl)
  }

  predicate NoFlag(s: string) { s != "" && s[0] !in "=^(+!-" }

  predicate NoDigit(s: string) { s != "" && !Digit(s[0]) }

  /** What a flag character sets. */
  function Mark(f: char, c: Conv): Conv {
    match f
    case '^' => c.(nogrp := true)
    case '(' => c.(negpar := true)
    case '!' => c.(nosym := true)
    case '-' => c.(left := true)
    case _ => c
  }

  lemma {:induction false} FlagStep(s: string, t: string, c: Conv)
    requires s == "" || s in ["^", "(", "+", "!", "-"]
    ensures Flags(Cat(s, t), c) == Flags(t, if s == "" then c else Mark(s[0], c))
  {
    if s == "" { assert s + t == t; } else { assert (s + t)[1..] == t; }
  }

  lemma {:induction false} FillStep(ch: Choice, t: string)
    ensures Flags(FillText(ch.fill, t), NO_FLAGS) == Flags(t, NO_FLAGS.(fill := Flagged(ch).fill))
  {
    var s := FillText(ch.fill, t);
    if ch.fill.Some? { assert s[2..] == t; } else { assert s == t; }
  }

  lemma {:induction false} FlagsRead(ch: Choice, t: string)
    requires Wellformed(ch) && NoFlag(t)
    ensures Flags(FlagText(ch, t), NO_FLAGS) == Fine(Flagged(ch), t)
  {
    var t4 := Cat(If(ch.minus, "-"), t);
    var t3 := Cat(If(ch.bang, "!"), t4);
    var t2 := Cat(One(ch.sign), t3);
    var t1 := Cat(If(ch.caret, "^"), t2);
    var c1 := NO_FLAGS.(fill := Flagged(ch).fill);
    var c2 := c1.(nogrp := ch.caret);
    var c3 := c2.(negpar := Flagged(ch).negpar);
    var c4 := c3.(nosym := ch.bang);
    assert Flags(t, Flagged(ch)) == Fine(Flagged(ch), t);
    hide Flags, FillText;
    FillStep(ch, t1);
    FlagStep(If(ch.caret, "^"), t2, c1);
    FlagStep(One(ch.sign), t3, c2);
    FlagStep(If(ch.bang, "!"), t4, c3);
    FlagStep(If(ch.minus, "-"), t, c4);
  }

  lemma {:induction false} WidthReads(v: nat, t: string, ulong: nat)
    requires 0 < ulong
    ensures Width(Decimal(v) + t, 0, ulong) == if Fits(v, ulong) then Width(t, v, ulong) else E2big
  {
    if v < 10 {
      assert (Decimal(v) + t)[1..] == t;
    } else {
      var d := [DigitOf(v % 10)];
      WidthReads(v / 10, d + t, ulong);
      assert Decimal(v) + t == Decimal(v / 10) + (d + t);
      assert (d + t)[1..] == t;
    }
  }

  lemma {:induction false} WidthRead(ch: Choice, t: string, ulong: nat)
    requires 0 < ulong && NoDigit(t)
    ensures Width(Cat(Num("", ch.width), t), 0, ulong) ==
            if Fits(Given(ch.width), ulong) then Fine(Given(ch.width), t) else E2big
  {
    if ch.width.Some? {
      WidthReads(ch.width.value, t, ulong);
      assert Cat(Num("", ch.width), t) == Decimal(ch.width.value) + t;
    } else {
      assert Cat(Num("", ch.width), t) == t;
    }
  }

  lemma {:induction false} NumberRead(v: nat, t: string, ulong: nat)
    requires 10 <= ulong && NoDigit(t)
    ensures Number(Decimal(v) + t, 0, ulong) == (v % ulong, t)
  {
    NumberReads(v, t, ulong);
    assert Number(t, v % ulong, ulong) == (v % ulong, t);
  }

  lemma {:induction false} LeftRead(ch: Choice, t: string, ulong: nat)
    requires 10 <= ulong && NoDigit(t) && t[0] != '#'
    ensures LeftPrecision(Cat(Num("#", ch.lp), t), ulong) ==
            if Wrapped(ch.lp, 0, ulong) <= PREC_MAX then Fine(Wrapped(ch.lp, 0, ulong), t) else E2big
  {
    var s := Cat(Num("#", ch.lp), t);
    if ch.lp.Some? {
      NumberRead(ch.lp.value, t, ulong);
      assert s[1..] == Decimal(ch.lp.value) + t;
      hide Number, Decimal;
    } else {
      assert s == t;
    }
  }

  lemma {:induction false} RightRead(ch: Choice, t: string, ulong: nat)
    requires 10 <= ulong && NoDigit(t) && t[0] != '.'
    ensures RightPrecision(Cat(Num(".", ch.rp), t), ulong) == (Wrapped(ch.rp, ulong - 1, ulong), t)
  {
    var s := Cat(Num(".", ch.rp), t);
    if ch.rp.Some? {
      NumberRead(ch.rp.value, t, ulong);
      assert s[1..] == Decimal(ch.rp.value) + t;
      hide Number, Decimal;
    } else {
      assert s == t;
    }
  }

  lemma {:induction false} NumStart(lead: string, n: Option<nat>, t: string)
    requires t != "" && |lead| <= 1
    ensures var s := Cat(Num(lead, n), t);
            s != "" && (s[0] == t[0] || (if lead == "" then Digit(s[0]) else s[0] == lead[0]))
  {
    if n.Some? { DecimalStart(n.value); }
  }

  lemma {:induction false} DecimalStart(v: nat)
    ensures Decimal(v) != "" && Digit(Decimal(v)[0])
  {
    if v >= 10 { DecimalStart(v / 10); }
  }

  /** No part of the numbers begins like the part before it. */
  lemma {:induction false} Starts(ch: Choice, t4: string)
    requires t4 != "" && (t4[0] == 'i' || t4[0] == 'n')
    ensures var t3 := Cat(Num(".", ch.rp), t4);
            var t2 := Cat(Num("#", ch.lp), t3);
            NoDigit(t4) && t4[0] != '.' && NoDigit(t3) && t3[0] != '#' &&
            NoDigit(t2) && NoFlag(Cat(Num("", ch.width), t2))
  {
    var t3 := Cat(Num(".", ch.rp), t4);
    var t2 := Cat(Num("#", ch.lp), t3);
    NumStart(".", ch.rp, t4);
    NumStart("#", ch.lp, t3);
    NumStart("", ch.width, t2);
  }

  lemma {:induction false} FinishRead(ch: Choice, c: Conv, tail: string, ulong: nat)
    requires 10 <= ulong
    ensures Finish(c, Wrapped(ch.rp, ulong - 1, ulong), Cat(Letter(ch.intl), tail), ulong)
         == if Precision(ch, ulong) <= PREC_MAX then Fine(c.(rp := Precision(ch, ulong), intl := ch.intl), tail)
            else E2big
  {
    hide Wrapped;
    var t := Cat(Letter(ch.intl), tail);
    assert t[1..] == tail && t[0] == if ch.intl then 'i' else 'n';
  }

  /** The parser recovers the choice: the flags and the form exactly, the numbers as far as an unsigned
      long holds them; and it refuses exactly the numbers that are not Accepted, always with E2BIG. */
  lemma {:induction false} ConversionRecovers(ch: Choice, tail: string, ulong: nat)
    requires Wellformed(ch) && 10 <= ulong
    ensures Conversion(FlagText(ch, NumberText(ch, tail)), ulong) ==
            if Accepted(ch, ulong) then Fine(Chosen(ch, ulong), tail) else E2big
  {
    var t4 := Cat(Letter(ch.intl), tail);
    var t3 := Cat(Num(".", ch.rp), t4);
    var t2 := Cat(Num("#", ch.lp), t3);
    var t1 := Cat(Num("", ch.width), t2);
    assert t1 == NumberText(ch, tail);
    assert t4[0] == if ch.intl then 'i' else 'n';
    Starts(ch, t4);
    hide NumberText, FlagText, Num, Flags, Width, LeftPrecision,
         RightPrecision, Wrapped, Fits, Precision, Finish, NoFlag, NoDigit;
    FlagsRead(ch, t1);
    WidthRead(ch, t2, ulong);
    LeftRead(ch, t3, ulong);
    RightRead(ch, t4, ulong);
    FinishRead(ch, Flagged(ch).(width := Given(ch.width), lp := Wrapped(ch.lp, 0, ulong)), tail, ulong);
  }

  /** A given right precision is the one in force exactly when it is below the largest unsigned long,
      which stands for none; and one over the limit is let through exactly when it wraps to a small
      number or to that mark. */
  lemma {:induction false} PrecisionExact(ch: Choice, ulong: nat)
    requires ch.rp.Some? && PREC_MAX < ulong - 1
    ensures Precision(ch, ulong) == ch.rp.value <==> ch.rp.value < ulong - 1
    ensures var p := Wrapped(ch.rp, ulong - 1, ulong);
            Precision(ch, ulong) <= PREC_MAX <==> p <= PREC_MAX || p == ulong - 1
  {
    WrappedSmall(ch.rp, ulong);
    hide Wrapped;
  }

  lemma {:induction false} WrappedSmall(n: Option<nat>, ulong: nat)
    requires 0 < ulong && n.Some?
    ensures Wrapped(n, ulong - 1, ulong) < ulong && (n.value < ulong ==> Wrapped(n, ulong - 1, ulong) == n.value)
  {
  }

  // ---- the whole format

  function Fit(t: string, room: nat): Result { if |t| <= room then Text(t) else Failed(true) }

  lemma {:induction false} GivesThenFits(s: string, args: seq<Amount>, room: nat, ulong: nat, h: Head, u: string)
    requires s != "" && 0 < ulong && h == First(s, args, ulong) && h.Give?
    requires |h.text| <= room ==> Format(h.rest, h.args, room - |h.text|, ulong) == Fit(u, room - |h.text|)
    ensures Format(s, args, room, ulong) == Fit(h.text + u, room)
  {
    hide First;
  }

  function After(ch: Choice): string { If(ch.percent, "%") + One(ch.suffix) }

  lemma {:induction false} LetterFormat(c: Option<char>, args: seq<Amount>, room: nat, t: string, u: string, ulong: nat)
    requires 0 < ulong && (c.Some? ==> c.value != '%') &&
             forall r :: 0 <= r <= room ==> Format(t, args, r, ulong) == Fit(u, r)
    ensures Format(One(c) + t, args, room, ulong) == Fit(One(c) + u, room)
  {
    var s := One(c) + t;
    if c.Some? {
      assert s[..1] == One(c) && s[1..] == t;
      GivesThenFits(s, args, room, ulong, Give(One(c), t, args), u);
    } else {
      assert s == t && One(c) + u == u;
    }
  }

  lemma {:induction false} TailFormat(ch: Choice, room: nat, ulong: nat)
    requires Wellformed(ch) && 0 < ulong
    ensures Format(TailText(ch), [], room, ulong) == Fit(After(ch), room)
  {
    forall r | 0 <= r <= room ensures Format(One(ch.suffix), [], r, ulong) == Fit(One(ch.suffix), r) {
      LetterFormat(ch.suffix, [], r, "", "", ulong);
      assert One(ch.suffix) + "" == One(ch.suffix);
    }
    var s := TailText(ch);
    if ch.percent {
      assert s[2..] == One(ch.suffix);
      GivesThenFits(s, [], room, ulong, Give("%", One(ch.suffix), []), One(ch.suffix));
    } else {
      assert s == One(ch.suffix) && After(ch) == One(ch.suffix);
    }
  }

  /** The text a generated format is for. */
  function Wanted(ch: Choice, a: Amount, ulong: nat): string
    requires 0 < ulong
  {
    One(ch.prefix) + (Piece(Chosen(ch, ulong), a) + After(ch))
  }

  predicate Formats(ch: Choice, a: Amount, ulong: nat)
    requires 0 < ulong
  {
    Accepted(ch, ulong) && |a.digits(Chosen(ch, ulong).rp)| < NUM_MAX
  }

  lemma {:induction false} ConversionFormat(ch: Choice, a: Amount, room: nat, ulong: nat)
    requires Wellformed(ch) && 10 <= ulong
    ensures Format(Cat("%", FlagText(ch, NumberText(ch, TailText(ch)))), [a], room, ulong)
         == if Formats(ch, a, ulong) then Fit(Piece(Chosen(ch, ulong), a) + After(ch), room) else Failed(true)
  {
    var s := Cat("%", FlagText(ch, NumberText(ch, TailText(ch))));
    hide First, Format, Cat, FlagText, NumberText, TailText, Formats, Piece, Chosen, After;
    FirstConversion(ch, a, ulong);
    var piece := Piece(Chosen(ch, ulong), a);
    if Formats(ch, a, ulong) {
      if |piece| <= room { TailFormat(ch, room - |piece|, ulong); }
      GivesThenFits(s, [a], room, ulong, Give(piece, TailText(ch), []), After(ch));
    } else {
      BadFails(s, [a], room, ulong);
    }
  }

  lemma {:induction false} FirstConversion(ch: Choice, a: Amount, ulong: nat)
    requires Wellformed(ch) && 10 <= ulong
    ensures Cat("%", FlagText(ch, NumberText(ch, TailText(ch)))) != ""
    ensures First(Cat("%", FlagText(ch, NumberText(ch, TailText(ch)))), [a], ulong)
         == if Formats(ch, a, ulong) then Give(Piece(Chosen(ch, ulong), a), TailText(ch), []) else Bad(true)
  {
    var t := FlagText(ch, NumberText(ch, TailText(ch)));
    var s := Cat("%", t);
    assert s[1..] == t && s[0] == '%';
    NotPercent(ch);
    ConversionRecovers(ch, TailText(ch), ulong);
    assert [a][1..] == [];
    hide Conversion, FlagText, NumberText, TailText, Accepted, Piece, Chosen, Cat;
  }

  lemma {:induction false} BadFails(s: string, args: seq<Amount>, room: nat, ulong: nat)
    requires s != "" && 0 < ulong && First(s, args, ulong) == Bad(true)
    ensures Format(s, args, room, ulong) == Failed(true)
  {
  }

  lemma {:induction false} NotPercent(ch: Choice)
    requires Wellformed(ch)
    ensures var t := FlagText(ch, NumberText(ch, TailText(ch))); t != "" && t[0] != '%'
  {
    Starts(ch, Cat(Letter(ch.intl), TailText(ch)));
    var n := NumberText(ch, TailText(ch));
    assert n != "" && n[0] != '%' by {
      var t4 := Cat(Letter(ch.intl), TailText(ch));
      NumStart(".", ch.rp, t4);
      NumStart("#", ch.lp, Cat(Num(".", ch.rp), t4));
      NumStart("", ch.width, Cat(Num("#", ch.lp), Cat(Num(".", ch.rp), t4)));
    }
    hide NumberText;
    var t := FlagText(ch, n);
  }

  /** Every generated format asks for exactly the one amount passed, is never rejected as malformed, and
      yields the chosen conversion between its letters, or E2BIG: when a number is not Accepted, the
      digits outgrow their buffer, or the whole does not fit. */
  lemma {:induction false} GeneratedFormat(ch: Choice, a: Amount, room: nat, ulong: nat)
    requires Wellformed(ch) && 10 <= ulong
    ensures Format(FormatOf(ch), [a], room, ulong) ==
            if Formats(ch, a, ulong) then Fit(Wanted(ch, a, ulong), room) else Failed(true)
  {
    var t := Cat("%", FlagText(ch, NumberText(ch, TailText(ch))));
    forall r | 0 <= r <= room
      ensures Format(t, [a], r, ulong) ==
              if Formats(ch, a, ulong) then Fit(Piece(Chosen(ch, ulong), a) + After(ch), r) else Failed(true)
    {
      ConversionFormat(ch, a, r, ulong);
    }
    hide Formats, Chosen, Piece, After, FlagText, NumberText, TailText, Conversion;
    if Formats(ch, a, ulong) {
      LetterFormat(ch.prefix, [a], room, t, Piece(Chosen(ch, ulong), a) + After(ch), ulong);
    } else if ch.prefix.Some? {
      var s := One(ch.prefix) + t;
      assert s[..1] == One(ch.prefix) && s[1..] == t;
    } else {
      assert One(ch.prefix) + t == t;
    }
  }
}
