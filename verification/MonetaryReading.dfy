// src/misc/strfmon.c: reading an amount back from the text of a conversion.

/** What the text of a conversion says. */
module MonetaryReading {
  import opened Ascii
  import opened MonetaryParser
  import opened MonetaryText

  function Blanks(n: nat): string { seq(n, _ => ' ') }

  function Fill(c: char, n: nat): string { seq(n, _ => c) }

  /** A number as "%.pf" prints it: a digit first, and nothing but digits and a radix character. */
  predicate Numeral(num: string) {
    num != "" && Digit(num[0]) && forall k :: 0 <= k < |num| ==> Digit(num[k]) || num[k] == '.'
  }

  /** The whole part of a number is everything before its radix character. */
  lemma {:induction false} WholeIs(whole: string, rest: string)
    requires '.' !in whole && (rest == "" || rest[0] == '.')
    ensures Whole(whole + rest) == |whole|
  {
    if whole == "" {
      assert whole + rest == rest;
    } else {
      WholeIs(whole[1..], rest);
      assert (whole + rest)[1..] == whole[1..] + rest;
    }
  }

  // ---- the layout

  /** The quantity: behind a minus or in parentheses if negative; under a left precision the fill makes up the missing
      digits, and a positive amount has blanks where the negative one has its signs. */
  function Quantity(c: Conv, negative: bool, num: string): string {
    var inner := Fill(c.fill, if c.lp > Whole(num) then c.lp - Whole(num) else 0) + num;
    if negative then if c.negpar then "(" + inner + ")" else "-" + inner
    else if c.lp == 0 then inner
    else Blanks(if c.negpar then 2 else 1) + inner
  }

  lemma {:induction false} FieldIs(c: Conv, a: Amount)
    ensures Field(c, a) == Quantity(c, a.negative, a.digits(c.rp))
  {
    var num := a.digits(c.rp);
    var fill := Copies(c.fill, Excess(c, num));
    assert fill == Fill(c.fill, Excess(c, num)) && Copies(' ', 0) == "";
    assert Copies(' ', Align(c, a)) == Blanks(Align(c, a));
    assert Field(c, a) == Copies(' ', Align(c, a)) + Sign(c, a) + (fill + num) + Ending(c, a);
  }

  /** A conversion gives nothing if the amount has more digits than its left precision; otherwise the quantity,
      with blanks up to the field width on its left, or on its right under the minus flag. */
  lemma {:induction false} PieceIs(c: Conv, a: Amount)
    ensures var num := a.digits(c.rp);
            var q := Quantity(c, a.negative, num);
            var pad := Blanks(if c.width > |q| then c.width - |q| else 0);
            Piece(c, a) == if 0 < c.lp < Whole(num) then "" else if c.left then q + pad else pad + q
  {
    FieldIs(c, a);
    var q := Quantity(c, a.negative, a.digits(c.rp));
    assert q + Blanks(0) == q && Blanks(0) + q == q;
    hide Field, Quantity, Whole;
  }

  // ---- reading

  function Drop(s: string, c: char): string { if s != "" && s[0] == c then Drop(s[1..], c) else s }

  function DropEnd(s: string): string {
    if s != "" && s[|s| - 1] == ' ' then DropEnd(s[..|s| - 1]) else s
  }

  datatype Reading = Reading(negative: bool, num: string)

  /** Blanks aside, a minus or parentheses say that the amount is negative; the fill goes before the digits. */
  function Read(text: string, fill: char): Reading { ReadCore(DropEnd(Drop(text, ' ')), fill) }

  function ReadCore(t: string, fill: char): Reading {
    if t == "" then Reading(false, "")
    else if t[0] == '-' then Reading(true, Drop(t[1..], fill))
    else if t[0] == '(' && 1 < |t| then Reading(true, Drop(t[1..|t| - 1], fill))
    else Reading(false, Drop(t, fill))
  }

  lemma {:induction false} DropsAll(n: nat, c: char, s: string)
    requires s == "" || s[0] != c
    ensures Drop(Fill(c, n) + s, c) == s
  {
    if n == 0 {
      assert Fill(c, n) + s == s;
    } else {
      DropsAll(n - 1, c, s);
      assert (Fill(c, n) + s)[1..] == Fill(c, n - 1) + s;
    }
  }

  lemma {:induction false} DropsEnd(n: nat, s: string)
    requires s == "" || s[|s| - 1] != ' '
    ensures DropEnd(s + Blanks(n)) == s
  {
    var t := s + Blanks(n);
    if n == 0 {
      assert t == s;
    } else {
      DropsEnd(n - 1, s);
      assert t[..|t| - 1] == s + Blanks(n - 1);
    }
  }

  /** Blanks around a text that begins and ends otherwise are dropped. */
  lemma {:induction false} Trims(l: nat, s: string, r: nat)
    requires s != "" && s[0] != ' ' && s[|s| - 1] != ' '
    ensures DropEnd(Drop(Blanks(l) + s + Blanks(r), ' ')) == s
  {
    DropsAll(l, ' ', s + Blanks(r));
    assert Blanks(l) + s + Blanks(r) == Fill(' ', l) + (s + Blanks(r));
    DropsEnd(r, s);
  }

  /** A fill that is no sign and no part of a number. */
  predicate Distinct(fill: char) { fill != '-' && fill != '(' && fill != '.' && !Digit(fill) }

  /** The text between the blanks. */
  function Core(negative: bool, paren: bool, inner: string): string {
    if !negative then inner else if paren then "(" + inner + ")" else "-" + inner
  }

  lemma {:induction false} SignedReads(l: nat, r: nat, paren: bool, fill: char, n: nat, num: string)
    requires Numeral(num) && Distinct(fill)
    ensures Read(Blanks(l) + Core(true, paren, Fill(fill, n) + num) + Blanks(r), fill) == Reading(true, num)
  {
    var inner := Fill(fill, n) + num;
    var core := Core(true, paren, inner);
    DropsAll(n, fill, num);
    assert core[|core| - 1] == if paren then ')' else num[|num| - 1];
    Trims(l, core, r);
    assert paren ==> core[1..|core| - 1] == inner;
    assert !paren ==> core[1..] == inner;
    hide Drop, DropEnd;
  }

  lemma {:induction false} CoreReads(l: nat, r: nat, core: string, fill: char, num: string)
    requires core != "" && core[0] !in " -(" && core[|core| - 1] != ' ' && Drop(core, fill) == num
    ensures Read(Blanks(l) + core + Blanks(r), fill) == Reading(false, num)
  {
    hide Drop, DropEnd, Blanks;
    Trims(l, core, r);
  }

  lemma {:induction false} UnsignedReads(l: nat, r: nat, fill: char, n: nat, num: string)
    requires Numeral(num) && Distinct(fill)
    ensures Read(Blanks(l) + (Fill(fill, n) + num) + Blanks(r), fill) == Reading(false, num)
  {
    var inner := Fill(fill, n) + num;
    DropsAll(n, fill, num);
    hide DropEnd, Read;
    if n == 0 || fill != ' ' {
      assert inner[|inner| - 1] == num[|num| - 1] && inner[0] == if n == 0 then num[0] else fill;
      CoreReads(l, r, inner, fill, num);
    } else {
      assert Drop(num, fill) == num;
      CoreReads(l + n, r, num, fill, num);
      assert Blanks(l) + inner + Blanks(r) == Blanks(l + n) + num + Blanks(r);
    }
  }

  /** What stands where: the blanks on either side of the text with the signs. */
  lemma {:induction false} PieceCore(c: Conv, a: Amount) returns (l: nat, r: nat, n: nat)
    requires !(0 < c.lp < Whole(a.digits(c.rp)))
    ensures Piece(c, a) == Blanks(l) + Core(a.negative, c.negpar, Fill(c.fill, n) + a.digits(c.rp)) + Blanks(r)
  {
    hide Piece, Quantity, Whole, Core, Fill;
    var num := a.digits(c.rp);
    PieceIs(c, a);
    var q := Quantity(c, a.negative, num);
    n := if c.lp > Whole(num) then c.lp - Whole(num) else 0;
    var pad := if c.width > |q| then c.width - |q| else 0;
    var lead := if a.negative || c.lp == 0 then 0 else if c.negpar then 2 else 1;
    l, r := (if c.left then 0 else pad) + lead, if c.left then pad else 0;
    QuantityCore(c, a.negative, num, n, lead);
    Around(Core(a.negative, c.negpar, Fill(c.fill, n) + num), lead, pad, c.left);
  }

  lemma {:induction false} Around(core: string, lead: nat, pad: nat, left: bool)
    ensures var q := Blanks(lead) + core;
            (if left then q + Blanks(pad) else Blanks(pad) + q) ==
            Blanks((if left then 0 else pad) + lead) + core + Blanks(if left then pad else 0)
  {
    if !left {
      assert Blanks(pad) + Blanks(lead) == Blanks(pad + lead);
      assert Blanks(pad) + (Blanks(lead) + core) == Blanks(pad) + Blanks(lead) + core;
    }
  }

  lemma {:induction false} QuantityCore(c: Conv, negative: bool, num: string, n: nat, lead: nat)
    requires n == (if c.lp > Whole(num) then c.lp - Whole(num) else 0)
    requires lead == if negative || c.lp == 0 then 0 else if c.negpar then 2 else 1
    ensures Quantity(c, negative, num) == Blanks(lead) + Core(negative, c.negpar, Fill(c.fill, n) + num)
  {
    var core := Core(negative, c.negpar, Fill(c.fill, n) + num);
    assert Blanks(0) + core == core;
  }

  /** Unless it is left out, an amount's sign and digits are read back from the text, whatever the width, the
      precisions, the fill and the sign style. */
  lemma {:induction false} AmountReads(c: Conv, a: Amount)
    requires Numeral(a.digits(c.rp)) && !(0 < c.lp < Whole(a.digits(c.rp))) && Distinct(c.fill)
    ensures Read(Piece(c, a), c.fill) == Reading(a.negative, a.digits(c.rp))
  {
    var num := a.digits(c.rp);
    var l, r, n := PieceCore(c, a);
    hide Read, Piece, Whole;
    if a.negative { SignedReads(l, r, c.negpar, c.fill, n, num); } else { UnsignedReads(l, r, c.fill, n, num); }
  }
}
