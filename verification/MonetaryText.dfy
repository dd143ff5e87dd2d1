// src/misc/strfmon.c: what a format produces.

/** What a format produces, without a buffer. */
module MonetaryText {
  import opened MonetaryParser

  /** A double as the formatter sees it: its sign, and "%.pf" of its magnitude for each p. */
  datatype Amount = Amount(negative: bool, digits: nat -> string)

  const NUM_MAX: nat := 512
  const FIELD_MAX: nat := 1024

  function Copies(c: char, n: nat): string { seq(n, _ => c) }

  /** The number of characters before the radix. */
  function Whole(num: string): (n: nat)
    ensures n <= |num|
  {
    if num == "" || num[0] == '.' then 0 else 1 + Whole(num[1..])
  }

  /** The spaces that make a positive amount as wide as the negative one, under "#n". */
  function Align(c: Conv, a: Amount): nat {
    if a.negative || c.lp == 0 then 0 else if c.negpar then 2 else 1
  }

  function Sign(c: Conv, a: Amount): string { if !a.negative then "" else if c.negpar then "(" else "-" }

  function Excess(c: Conv, num: string): nat { if c.lp > Whole(num) then c.lp - Whole(num) else 0 }

  function Ending(c: Conv, a: Amount): string { if a.negative && c.negpar then ")" else "" }

  /** The quantity before padding to the field width. */
  function Field(c: Conv, a: Amount): string {
    var num := a.digits(c.rp);
    Copies(' ', Align(c, a)) + Sign(c, a) + Copies(c.fill, Excess(c, num)) + num + Ending(c, a)
  }

  function Padded(c: Conv, f: string): string {
    if c.width <= |f| then f
    else if c.left then f + Copies(' ', c.width - |f|) else Copies(' ', c.width - |f|) + f
  }

  /** A conversion whose amount needs more digits than "#n" allows is ignored. */
  function Piece(c: Conv, a: Amount): string {
    var num := a.digits(c.rp);
    if c.lp > 0 && Whole(num) > c.lp then "" else Padded(c, Field(c, a))
  }

  /** What stands at the front of a format: text to produce, an error, or a missing amount. */
  datatype Head = Give(text: string, rest: string, args: seq<Amount>) | Bad(e2big: bool) | Missing

  function First(s: string, args: seq<Amount>, ulong: nat): (h: Head)
    requires s != "" && 0 < ulong
    ensures h.Give? ==> |h.rest| < |s|
  {
    if s[0] != '%' then Give(s[..1], s[1..], args)
    else if |s| > 1 && s[1] == '%' then Give("%", s[2..], args)
    else
      var conv := Conversion(s[1..], ulong);
      if !conv.Fine? then Bad(conv.E2big?)
      else if args == [] then Missing
      else if |args[0].digits(conv.value.rp)| >= NUM_MAX then Bad(true)
      else Give(Piece(conv.value, args[0]), conv.rest, args[1..])
  }

  datatype Result = Text(s: string) | Failed(e2big: bool) | Undefined

  function Before(t: string, r: Result): Result { if r.Text? then Text(t + r.s) else r }

  /** strfmon with room for `room` bytes; Undefined when an amount is missing. */
  function Format(s: string, args: seq<Amount>, room: nat, ulong: nat): Result
    requires 0 < ulong
    decreases |s|
  {
    if s == "" then Text("")
    else match First(s, args, ulong)
      case Bad(e2big) => Failed(e2big)
      case Missing => Undefined
      case Give(t, rest, more) => if |t| > room then Failed(true) else Before(t, Format(rest, more, room - |t|, ulong))
  }

  // ---- promises

  /** A success fits, and does not depend on how much more room there was. */
  lemma {:induction false} FormatFits(s: string, args: seq<Amount>, room: nat, more: nat, ulong: nat)
    requires 0 < ulong && Format(s, args, room, ulong).Text? && |Format(s, args, room, ulong).s| <= more
    ensures |Format(s, args, room, ulong).s| <= room && Format(s, args, more, ulong) == Format(s, args, room, ulong)
    decreases |s|
  {
    hide First;
    if s != "" {
      var h := First(s, args, ulong);
      FormatFits(h.rest, h.args, room - |h.text|, more - |h.text|, ulong);
    }
  }

  /** What does not fit is refused with E2BIG. */
  lemma {:induction false} FormatRefuses(s: string, args: seq<Amount>, room: nat, less: nat, ulong: nat)
    requires 0 < ulong && Format(s, args, room, ulong).Text? && |Format(s, args, room, ulong).s| > less
    ensures Format(s, args, less, ulong) == Failed(true)
    decreases |s|
  {
    var h := First(s, args, ulong);
    hide First;
    if |h.text| <= less { FormatRefuses(h.rest, h.args, room - |h.text|, less - |h.text|, ulong); }
  }

  /** The amount with these digits, negated.  Minus zero is not below zero, so that it counts as positive and its
      minus is one of its digits. */
  function Negated(digits: nat -> string, zero: bool): Amount {
    if zero then Amount(false, (p: nat) => "-" + digits(p)) else Amount(true, digits)
  }

  /** Under "#n" an amount and its negation take the same width, whatever the sign style, except for zero
      when its minus is one digit more than n: then minus zero is left out. */
  lemma {:induction false} SignsAlign(c: Conv, digits: nat -> string, zero: bool)
    requires c.lp > 0
    ensures |Piece(c, Amount(false, digits))| == |Piece(c, Negated(digits, zero))|
            <==> !(zero && Whole(digits(c.rp)) == c.lp)
  {
    var num := digits(c.rp);
    var minus := "-" + num;
    assert minus[1..] == num;
    assert Whole(minus) == 1 + Whole(num);
  }

  /** A conversion is never narrower than its field width, and never wider than it must be. */
  lemma {:induction false} WidthMet(c: Conv, a: Amount)
    requires c.lp == 0 || Whole(a.digits(c.rp)) <= c.lp
    ensures |Piece(c, a)| == if c.width > |Field(c, a)| then c.width else |Field(c, a)|
  {
  }

  /** The quantity always fits the field buffer. */
  lemma {:induction false} FieldFits(c: Conv, a: Amount)
    requires c.lp <= PREC_MAX && |a.digits(c.rp)| < NUM_MAX
    ensures |Field(c, a)| <= FIELD_MAX
  {
  }
}
