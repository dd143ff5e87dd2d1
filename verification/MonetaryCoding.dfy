// fuzz/fuzz_strfmon.c: the input that makes a given choice of format.

/** Inputs for choices, the inverse of choosing. */
module MonetaryCoding {
  import opened Options
  import opened MonetaryGenerator
  import opened MonetaryChooser

  /** A yes or no as a binary digit. */
  function D(b: bool): (d: nat)
    ensures d <= 1
  {
    if b then 1 else 0
  }

  function Binary(a: nat, b: nat, c: nat, d: nat, e: nat, f: nat, g: nat, h: nat): Byte
    requires a <= 1 && b <= 1 && c <= 1 && d <= 1 && e <= 1 && f <= 1 && g <= 1 && h <= 1
  {
    a + 2 * b + 4 * c + 8 * d + 16 * e + 32 * f + 64 * g + 128 * h
  }

  /** The byte whose bits, lowest first, are these answers. */
  function Asked(a: bool, b: bool, c: bool, d: bool, e: bool, f: bool, g: bool, h: bool): Byte {
    Binary(D(a), D(b), D(c), D(d), D(e), D(f), D(g), D(h))
  }

  /** Fill, caret, a sign, which one, no symbol, left, international, percent. */
  function FlagsByte(ch: Choice): Byte {
    Asked(ch.fill.Some?, ch.caret, ch.sign.Some?, ch.sign == Some('('), ch.bang, ch.minus, ch.intl, ch.percent)
  }

  /** What is there: a prefix, each number with eight bytes, a suffix. */
  function ShapeByte(ch: Choice): Byte {
    var w, l, r := ch.width.Some?, ch.lp.Some?, ch.rp.Some?;
    Asked(ch.prefix.Some?, w, w, l, l, r, r, ch.suffix.Some?)
  }

  /** The low n bytes of v, most significant first. */
  function Bytes(v: nat, n: nat): (s: seq<Byte>)
    ensures |s| == n
  {
    if n == 0 then [] else Bytes(v / 256, n - 1) + [v % 256]
  }

  function CharBytes(c: Option<char>, first: char): seq<Byte>
    requires c.Some? ==> first <= c.value < 256 as char
  {
    if c.Some? then [(c.value as int - first as int) as Byte] else []
  }

  function NumberBytes(n: Option<nat>): seq<Byte> { if n.Some? then Bytes(n.value, 8) else [] }

  predicate Encodable(ch: Choice) { Wellformed(ch) && (ch.fill.Some? ==> '!' <= ch.fill.value <= '~') }

  /** The output capacity comes first, and is not part of the choice. */
  function Encode(ch: Choice, cap: Byte): seq<Byte>
    requires Encodable(ch)
  {
    [cap, FlagsByte(ch), ShapeByte(ch)] + (CharBytes(ch.prefix, 'a') + (CharBytes(ch.fill, '!') +
      (NumberBytes(ch.width) + (NumberBytes(ch.lp) + (NumberBytes(ch.rp) + CharBytes(ch.suffix, 'A'))))))
  }

  // ---- reading it back

  /** The input from i on is s. */
  predicate Rest(data: seq<Byte>, i: nat, s: seq<Byte>) { i + |s| == |data| && data[i..] == s }

  lemma {:induction false} CharRead(data: seq<Byte>, i: nat, c: Option<char>, first: char, count: nat, s: seq<Byte>)
    requires 0 < count && first as int + count < 256 && (c.Some? ==> first <= c.value < first + count as char)
    requires Rest(data, i, CharBytes(c, first) + s)
    ensures var r := PickChar(data, i, c.Some?, first, count); r.0 == c && Rest(data, r.1, s)
  {
    if c.Some? {
      var t := CharBytes(c, first) + s;
      assert data[i] == data[i..][0] == t[0];
      assert data[i + 1..] == data[i..][1..] == s;
      SmallMod(c.value as int - first as int, count);
    } else {
      assert CharBytes(c, first) + s == s;
    }
  }

  lemma {:induction false} SmallMod(x: nat, n: nat)
    requires x < n
    ensures x % n == x
  {
  }

  function Pow(n: nat): nat { if n == 0 then 1 else 256 * Pow(n - 1) }

  lemma {:induction false} BytesRead(data: seq<Byte>, i: nat, v: nat, n: nat)
    requires i + n <= |data| && data[i..i + n] == Bytes(v, n) && v < Pow(n)
    ensures U64(data, i, n) == v
    decreases n
  {
    if n > 0 {
      var most := Bytes(v / 256, n - 1);
      assert data[i..i + n - 1] == data[i..i + n][..n - 1] == most;
      assert data[i + n - 1] == data[i..i + n][n - 1] == v % 256;
      BytesRead(data, i, v / 256, n - 1);
    }
  }

  lemma {:induction false} EightBytes()
    ensures Pow(8) == 0x1_0000_0000_0000_0000
  {
    assert Pow(2) == 0x1_0000;
    assert Pow(4) == 0x1_0000 * Pow(2);
    assert Pow(6) == 0x1_0000 * Pow(4);
    assert Pow(8) == 0x1_0000 * Pow(6);
  }

  lemma {:induction false} NumberRead(data: seq<Byte>, i: nat, n: Option<nat>, shape: Byte, m: nat, s: seq<Byte>)
    requires 0 < m && Bit(shape, m) == n.Some? && (n.Some? ==> Bit(shape, 2 * m))
    requires (n.Some? ==> n.value < 0x1_0000_0000_0000_0000) && Rest(data, i, NumberBytes(n) + s)
    ensures var r := Pick(data, i, shape, m); r.0 == n && Rest(data, r.1, s)
  {
    hide Bit;
    if n.Some? {
      var t := Bytes(n.value, 8) + s;
      assert data[i..i + 8] == data[i..][..8] == Bytes(n.value, 8);
      assert data[i + 8..] == data[i..][8..] == s;
      EightBytes();
      hide Pow;
      BytesRead(data, i, n.value, 8);
    } else {
      assert NumberBytes(n) + s == s;
    }
  }

  lemma {:induction false} Half(x: nat, d: nat, y: nat)
    requires x == d + 2 * y && d <= 1
    ensures x % 2 == d && x / 2 == y
  {
  }

  lemma {:induction false} Halves(x: nat)
    ensures x / 1 == x && x / 4 == x / 2 / 2 && x / 8 == x / 4 / 2 && x / 16 == x / 8 / 2
    ensures x / 32 == x / 16 / 2 && x / 64 == x / 32 / 2 && x / 128 == x / 64 / 2
  {
  }

  lemma {:induction false} Digits(a: nat, b: nat, c: nat, d: nat, e: nat, f: nat, g: nat, h: nat)
    requires a <= 1 && b <= 1 && c <= 1 && d <= 1 && e <= 1 && f <= 1 && g <= 1 && h <= 1
    ensures var x := Binary(a, b, c, d, e, f, g, h);
            && x / 1 % 2 == a && x / 2 % 2 == b && x / 4 % 2 == c && x / 8 % 2 == d
            && x / 16 % 2 == e && x / 32 % 2 == f && x / 64 % 2 == g && x / 128 % 2 == h
  {
    var x := Binary(a, b, c, d, e, f, g, h);
    var x6 := g + 2 * h;
    var x5 := f + 2 * x6;
    var x4 := e + 2 * x5;
    var x3 := d + 2 * x4;
    var x2 := c + 2 * x3;
    var x1 := b + 2 * x2;
    Halves(x);
    Half(x, a, x1);
    Half(x1, b, x2);
    Half(x2, c, x3);
    Half(x3, d, x4);
    Half(x4, e, x5);
    Half(x5, f, x6);
    Half(x6, g, h);
    Half(h, h, 0);
  }

  lemma {:induction false} BitIs(x: Byte, m: nat, b: bool)
    requires 0 < m && x / m % 2 == D(b)
    ensures Bit(x, m) == b
  {
  }

  /** The bits of a byte put together from answers. */
  lemma {:induction false} Answers(a: bool, b: bool, c: bool, d: bool, e: bool, f: bool, g: bool, h: bool)
    ensures var x := Asked(a, b, c, d, e, f, g, h);
            && Bit(x, 1) == a && Bit(x, 2) == b && Bit(x, 4) == c && Bit(x, 8) == d
            && Bit(x, 16) == e && Bit(x, 32) == f && Bit(x, 64) == g && Bit(x, 128) == h
  {
    hide Binary, Bit, D;
    var x := Asked(a, b, c, d, e, f, g, h);
    Digits(D(a), D(b), D(c), D(d), D(e), D(f), D(g), D(h));
    BitIs(x, 1, a);
    BitIs(x, 2, b);
    BitIs(x, 4, c);
    BitIs(x, 8, d);
    BitIs(x, 16, e);
    BitIs(x, 32, f);
    BitIs(x, 64, g);
    BitIs(x, 128, h);
  }

  lemma {:induction false} FlagsRead(ch: Choice)
    ensures var f := FlagsByte(ch);
            && Bit(f, 1) == ch.fill.Some? && Bit(f, 2) == ch.caret && Bit(f, 4) == ch.sign.Some?
            && Bit(f, 8) == (ch.sign == Some('(')) && Bit(f, 16) == ch.bang && Bit(f, 32) == ch.minus
            && Bit(f, 64) == ch.intl && Bit(f, 128) == ch.percent
  {
    hide Asked, Bit;
    Answers(ch.fill.Some?, ch.caret, ch.sign.Some?, ch.sign == Some('('),
            ch.bang, ch.minus, ch.intl, ch.percent);
  }

  lemma {:induction false} ShapeRead(ch: Choice)
    ensures var s := ShapeByte(ch);
            && Bit(s, 1) == ch.prefix.Some? && Bit(s, 2) == ch.width.Some? == Bit(s, 4)
            && Bit(s, 8) == ch.lp.Some? == Bit(s, 16) && Bit(s, 32) == ch.rp.Some? == Bit(s, 64)
            && Bit(s, 128) == ch.suffix.Some?
  {
    hide Asked, Bit;
    var w, l, r := ch.width.Some?, ch.lp.Some?, ch.rp.Some?;
    Answers(ch.prefix.Some?, w, w, l, l, r, r, ch.suffix.Some?);
  }

  lemma {:induction false} CharsRead(data: seq<Byte>, i: nat, ch: Choice, s: seq<Byte>)
    requires Encodable(ch) && Rest(data, i, CharBytes(ch.prefix, 'a') + (CharBytes(ch.fill, '!') + s))
    ensures var prefix := PickChar(data, i, ch.prefix.Some?, 'a', 26);
            var fill := PickChar(data, prefix.1, ch.fill.Some?, '!', 94);
            prefix.0 == ch.prefix && fill.0 == ch.fill && Rest(data, fill.1, s)
  {
    hide PickChar, CharBytes, Rest;
    CharRead(data, i, ch.prefix, 'a', 26, CharBytes(ch.fill, '!') + s);
    CharRead(data, PickChar(data, i, ch.prefix.Some?, 'a', 26).1, ch.fill, '!', 94, s);
  }

  lemma {:induction false} NumbersRead(data: seq<Byte>, i: nat, ch: Choice, shape: Byte, s: seq<Byte>)
    requires Wellformed(ch)
    requires Bit(shape, 2) == ch.width.Some? == Bit(shape, 4) && Bit(shape, 8) == ch.lp.Some? == Bit(shape, 16)
    requires Bit(shape, 32) == ch.rp.Some? == Bit(shape, 64)
    requires Rest(data, i, NumberBytes(ch.width) + (NumberBytes(ch.lp) + (NumberBytes(ch.rp) + s)))
    ensures var width := Pick(data, i, shape, 2);
            var lp := Pick(data, width.1, shape, 8);
            var rp := Pick(data, lp.1, shape, 32);
            width.0 == ch.width && lp.0 == ch.lp && rp.0 == ch.rp && Rest(data, rp.1, s)
  {
    hide Pick, NumberBytes, Rest, Bit;
    NumberRead(data, i, ch.width, shape, 2, NumberBytes(ch.lp) + (NumberBytes(ch.rp) + s));
    var j := Pick(data, i, shape, 2).1;
    NumberRead(data, j, ch.lp, shape, 8, NumberBytes(ch.rp) + s);
    NumberRead(data, Pick(data, j, shape, 8).1, ch.rp, shape, 32, s);
  }

  /** What is read is the choice. */
  lemma {:induction false} ChoiceIs(data: seq<Byte>, ch: Choice)
    requires Wellformed(ch) && At(data, 1) == FlagsByte(ch) && At(data, 2) == ShapeByte(ch)
    requires var shape := ShapeByte(ch);
             var prefix := PickChar(data, 3, ch.prefix.Some?, 'a', 26);
             var fill := PickChar(data, prefix.1, ch.fill.Some?, '!', 94);
             var width := Pick(data, fill.1, shape, 2);
             var lp := Pick(data, width.1, shape, 8);
             var rp := Pick(data, lp.1, shape, 32);
             && prefix.0 == ch.prefix && fill.0 == ch.fill && width.0 == ch.width && lp.0 == ch.lp && rp.0 == ch.rp
             && PickChar(data, rp.1, ch.suffix.Some?, 'A', 26).0 == ch.suffix
    ensures Choose(data) == ch
  {
    FlagsRead(ch);
    ShapeRead(ch);
    hide Bit, FlagsByte, ShapeByte, Pick, PickChar;
  }

  /** Every well-formed choice is made by some input: the generator leaves out no format of its kind. */
  lemma {:induction false} ChooseUndoesEncoding(ch: Choice, cap: Byte)
    requires Encodable(ch)
    ensures Choose(Encode(ch, cap)) == ch
  {
    hide Bit, FlagsByte, ShapeByte, NumberBytes, CharBytes, Pick, PickChar, Encode, Rest, Choose, At;
    var data, shape := Encode(ch, cap), ShapeByte(ch);
    var last := CharBytes(ch.suffix, 'A');
    EncodedRest(ch, cap);
    ShapeRead(ch);
    CharsRead(data, 3, ch, NumberBytes(ch.width) + (NumberBytes(ch.lp) + (NumberBytes(ch.rp) + last)));
    var prefix := PickChar(data, 3, ch.prefix.Some?, 'a', 26);
    var fill := PickChar(data, prefix.1, ch.fill.Some?, '!', 94);
    NumbersRead(data, fill.1, ch, shape, last);
    var rp := Pick(data, Pick(data, Pick(data, fill.1, shape, 2).1, shape, 8).1, shape, 32);
    assert last + [] == last;
    CharRead(data, rp.1, ch.suffix, 'A', 26, []);
    ChoiceIs(data, ch);
  }

  lemma {:induction false} EncodedRest(ch: Choice, cap: Byte)
    requires Encodable(ch)
    ensures var last := CharBytes(ch.suffix, 'A');
            var numbers := NumberBytes(ch.width) + (NumberBytes(ch.lp) + (NumberBytes(ch.rp) + last));
            Rest(Encode(ch, cap), 3, CharBytes(ch.prefix, 'a') + (CharBytes(ch.fill, '!') + numbers))
    ensures At(Encode(ch, cap), 1) == FlagsByte(ch) && At(Encode(ch, cap), 2) == ShapeByte(ch)
  {
    hide FlagsByte, ShapeByte, NumberBytes, CharBytes;
  }
}
