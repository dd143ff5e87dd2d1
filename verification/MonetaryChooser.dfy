// fuzz/fuzz_strfmon.c: from input bytes to a format.

/** Choosing a format from the input's bytes and writing it. */
module MonetaryChooser {
  import opened Decimals
  import opened Options
  import opened MonetaryGenerator

  /** Byte i of the input; past the end every byte reads as 0. */
  function At(data: seq<Byte>, i: nat): Byte { if i < |data| then data[i] else 0 }

  predicate Bit(b: Byte, m: nat)
    requires 0 < m
  {
    b / m % 2 == 1
  }

  function U64(data: seq<Byte>, i: nat, n: nat): nat {
    if n == 0 then 0 else U64(data, i, n - 1) * 256 + At(data, i + n - 1)
  }

  /** A number: present under one bit of `shape`, eight bytes under the next, else one. */
  function Pick(data: seq<Byte>, i: nat, shape: Byte, m: nat): (Option<nat>, nat)
    requires 0 < m
  {
    if !Bit(shape, m) then (None, i)
    else if Bit(shape, 2 * m) then (Some(U64(data, i, 8)), i + 8)
    else (Some(At(data, i)), i + 1)
  }

  function PickChar(data: seq<Byte>, i: nat, present: bool, first: char, count: nat): (Option<char>, nat)
    requires 0 < count && first as int + count < 256
  {
    if present then (Some((first as int + At(data, i) % count) as char), i + 1) else (None, i)
  }

  /** The choice an input makes, byte by byte. */
  function Choose(data: seq<Byte>): Choice {
    var flags, shape := At(data, 1), At(data, 2);
    var prefix := PickChar(data, 3, Bit(shape, 1), 'a', 26);
    var fill := PickChar(data, prefix.1, Bit(flags, 1), '!', 94);
    var width := Pick(data, fill.1, shape, 2);
    var lp := Pick(data, width.1, shape, 8);
    var rp := Pick(data, lp.1, shape, 32);
    var suffix := PickChar(data, rp.1, Bit(shape, 128), 'A', 26);
    Choice(prefix.0, fill.0, Bit(flags, 2), if Bit(flags, 4) then Some(if Bit(flags, 8) then '(' else '+') else None,
           Bit(flags, 16), Bit(flags, 32), width.0, lp.0, rp.0, Bit(flags, 64), Bit(flags, 128), suffix.0)
  }

  lemma {:induction false} U64Bound(data: seq<Byte>, i: nat)
    ensures U64(data, i, 8) < 0x1_0000_0000_0000_0000
  {
    U64Below(data, i, 8);
    assert Pow256(2) == 0x1_0000;
    assert Pow256(4) == 0x1_0000 * Pow256(2);
    assert Pow256(6) == 0x1_0000 * Pow256(4);
    assert Pow256(8) == 0x1_0000 * Pow256(6);
  }

  function Pow256(n: nat): nat { if n == 0 then 1 else 256 * Pow256(n - 1) }

  lemma {:induction false} U64Below(data: seq<Byte>, i: nat, n: nat)
    ensures U64(data, i, n) < Pow256(n)
  {
    if n > 0 { U64Below(data, i, n - 1); }
  }

  lemma {:induction false} PickBound(data: seq<Byte>, i: nat, shape: Byte, m: nat)
    requires 0 < m
    ensures var n := Pick(data, i, shape, m).0; n.Some? ==> n.value < 0x1_0000_0000_0000_0000
  {
    U64Bound(data, i);
    hide U64;
  }

  lemma {:induction false} ChooseWellformed(data: seq<Byte>)
    ensures Wellformed(Choose(data))
  {
    var flags, shape := At(data, 1), At(data, 2);
    var prefix := PickChar(data, 3, Bit(shape, 1), 'a', 26);
    var fill := PickChar(data, prefix.1, Bit(flags, 1), '!', 94);
    var width := Pick(data, fill.1, shape, 2);
    var lp := Pick(data, width.1, shape, 8);
    PickBound(data, fill.1, shape, 2);
    PickBound(data, width.1, shape, 8);
    PickBound(data, lp.1, shape, 32);
    hide Pick, Bit;
  }

  /** struct rd: reads past the end give 0 and do not advance. */
  class Reader {
    const p: seq<Byte>
    var i: nat

    constructor (p: seq<Byte>)
      ensures this.p == p && i == 0
    {
      this.p, i := p, 0;
    }

    /** Where the reader stands, counting reads past the end. */
    ghost predicate Stands(pos: nat)
      reads this
    {
      i == if pos <= |p| then pos else |p|
    }

    method U8(ghost pos: nat) returns (b: Byte)
      requires Stands(pos)
      modifies this
      ensures b == At(p, pos) && Stands(pos + 1)
    {
      if i < |p| {
        b := p[i];
        i := i + 1;
      } else {
        b := 0;
      }
    }

    method Read64(ghost pos: nat) returns (v: nat)
      requires Stands(pos)
      modifies this
      ensures v == U64(p, pos, 8) && Stands(pos + 8)
    {
      v := 0;
      for k := 0 to 8
        invariant v == U64(p, pos, k) && Stands(pos + k)
      {
        var b := U8(pos + k);
        v := v * 256 + b;
      }
    }
  }

  /** The format buffer and how much of it is written. */
  class Buffer {
    const fmt: array<char>
    var k: nat

    ghost predicate Valid()
      reads this
    {
      fmt.Length == 160 && k < 160
    }

    ghost function Written(): string
      reads this, fmt
      requires Valid()
    {
      fmt[..k]
    }

    constructor ()
      ensures Valid() && fresh(fmt) && k == 0 && Written() == ""
    {
      fmt, k := new char[160](_ => '\0'), 0;
    }

    /** Writes c; `rest` is what is still to come. */
    method Add(c: char, ghost rest: string)
      requires Valid() && k < 159
      modifies this`k, fmt
      ensures Valid() && Cat(Written(), rest) == Cat(old(Written()), Cat([c], rest)) && k == old(k) + 1
    {
      CatAssoc(Written(), [c], rest);
      fmt[k] := c;
      k := k + 1;
    }

    method AddNumber(v: nat, ghost rest: string)
      requires Valid() && k < 139 && v < 0x1_0000_0000_0000_0000
      modifies this`k, fmt
      ensures Valid() && Cat(Written(), rest) == Cat(old(Written()), Cat(Decimal(v), rest)) && k <= old(k) + 20
    {
      CatAssoc(Written(), Decimal(v), rest);
      var n := PutU64(fmt, k, v);
      k := k + n;
    }

    method AddIf(b: bool, c: char, ghost rest: string)
      requires Valid() && k < 159
      modifies this`k, fmt
      ensures Valid() && Cat(Written(), rest) == Cat(old(Written()), Cat(If(b, [c]), rest)) && k <= old(k) + 1
    {
      if b { Add(c, rest); }
    }

    /** A letter out of `count` from `first` on. */
    method AddPicked(r: Reader, present: bool, first: char, count: nat, ghost pos: nat, ghost rest: string)
      requires Valid() && k < 159 && r.Stands(pos) && 0 < count && first as int + count < 256
      modifies this`k, fmt, r
      ensures Valid() && k <= old(k) + 1
      ensures var c := PickChar(r.p, pos, present, first, count);
              r.Stands(c.1) && Cat(Written(), rest) == Cat(old(Written()), Cat(One(c.0), rest))
    {
      if present {
        var b := r.U8(pos);
        Add((first as int + b % count) as char, rest);
      }
    }

    method AddPickedNumber(r: Reader, shape: Byte, m: nat, lead: string, ghost pos: nat, ghost rest: string)
      requires Valid() && k < 138 && r.Stands(pos) && 0 < m && |lead| <= 1
      modifies this`k, fmt, r
      ensures Valid() && k <= old(k) + 21
      ensures var n := Pick(r.p, pos, shape, m);
              r.Stands(n.1) && Cat(Written(), rest) == Cat(old(Written()), Cat(Num(lead, n.0), rest))
    {
      if Bit(shape, m) {
        ghost var n := Pick(r.p, pos, shape, m).0.value;
        CatAssoc(lead, Decimal(n), rest);
        assert Num(lead, Some(n)) == Cat(lead, Decimal(n));
        hide Bit, Cat, Decimal, U64;
        if |lead| == 1 {
          assert [lead[0]] == lead;
          Add(lead[0], Cat(Decimal(n), rest));
        } else {
          CatNothing(Cat(Decimal(n), rest));
        }
        var v: nat;
        if Bit(shape, 2 * m) {
          U64Bound(r.p, pos);
          v := r.Read64(pos);
        } else {
          v := r.U8(pos);
        }
        AddNumber(v, rest);
      }
    }

    /** The fill. */
    method AddFill(r: Reader, filled: bool, ghost pos: nat, ghost fill: Option<char>, ghost rest: string)
      requires Valid() && k < 100 && r.Stands(pos) && fill == PickChar(r.p, pos, filled, '!', 94).0
      modifies this`k, fmt, r
      ensures Valid() && k <= old(k) + 2 && r.Stands(PickChar(r.p, pos, filled, '!', 94).1)
      ensures Cat(Written(), rest) == Cat(old(Written()), FillText(fill, rest))
    {
      assert filled == fill.Some?;
      hide Cat, PickChar, One, If;
      AddIf(filled, '=', Cat(One(fill), rest));
      AddPicked(r, filled, '!', 94, pos, rest);
    }

    /** The opening letter, the '%' and the fill. */
    method AddStart(r: Reader, lettered: bool, filled: bool, ghost ch: Choice, ghost rest: string)
      requires Valid() && k < 90 && r.Stands(3)
      requires var c := PickChar(r.p, 3, lettered, 'a', 26);
               ch.prefix == c.0 && ch.fill == PickChar(r.p, c.1, filled, '!', 94).0
      modifies this`k, fmt, r
      ensures Valid() && k <= old(k) + 4 &&
              r.Stands(PickChar(r.p, PickChar(r.p, 3, lettered, 'a', 26).1, filled, '!', 94).1)
      ensures Cat(Written(), rest) == Cat(old(Written()), Cat(One(ch.prefix), Cat("%", FillText(ch.fill, rest))))
    {
      ghost var pos := PickChar(r.p, 3, lettered, 'a', 26).1;
      hide Cat, PickChar, One, FillText;
      AddPicked(r, lettered, 'a', 26, 3, Cat("%", FillText(ch.fill, rest)));
      Add('%', FillText(ch.fill, rest));
      AddFill(r, filled, pos, ch.fill, rest);
    }

    /** The flags behind the fill. */
    method AddMarks(flags: Byte, ghost ch: Choice, ghost rest: string)
      requires Valid() && k < 100 && FlagsOf(ch, flags)
      modifies this`k, fmt
      ensures Valid() && k <= old(k) + 4
      ensures Cat(Written(), rest) == Cat(old(Written()), Cat(If(ch.caret, "^"),
                     Cat(One(ch.sign), Cat(If(ch.bang, "!"), Cat(If(ch.minus, "-"), rest)))))
    {
      var caret, signed, paren, bang, minus :=
        Bit(flags, 2), Bit(flags, 4), Bit(flags, 8), Bit(flags, 16), Bit(flags, 32);
      ghost var t4 := Cat(If(ch.minus, "-"), rest);
      ghost var t3 := Cat(If(ch.bang, "!"), t4);
      hide Cat, Bit, One, If;
      AddIf(caret, '^', Cat(One(ch.sign), t3));
      AddIf(signed, if paren then '(' else '+', t3);
      AddIf(bang, '!', t4);
      AddIf(minus, '-', rest);
    }

    /** The numbers and the conversion character. */
    method AddNumbers(r: Reader, flags: Byte, shape: Byte, ghost pos: nat, ghost ch: Choice, ghost rest: string)
      requires Valid() && k < 60 && r.Stands(pos) && NumbersOf(ch, r.p, pos, flags, shape)
      modifies this`k, fmt, r
      ensures Valid() && k <= old(k) + 64 && r.Stands(AfterNumbers(r.p, pos, shape))
      ensures Cat(Written(), rest) == Cat(old(Written()), NumberText(ch, rest))
    {
      ghost var t4 := Cat(Letter(ch.intl), rest);
      ghost var t3 := Cat(Num(".", ch.rp), t4);
      ghost var t2 := Cat(Num("#", ch.lp), t3);
      hide Cat, Bit, Pick, Num;
      AddPickedNumber(r, shape, 2, "", pos, t2);
      AddPickedNumber(r, shape, 8, "#", Pick(r.p, pos, shape, 2).1, t3);
      AddPickedNumber(r, shape, 32, ".", Pick(r.p, Pick(r.p, pos, shape, 2).1, shape, 8).1, t4);
      Add(if Bit(flags, 64) then 'i' else 'n', rest);
    }

    /** "%%" and the closing letter. */
    method AddTail(r: Reader, percent: bool, lettered: bool, ghost pos: nat, ghost ch: Choice)
      requires Valid() && k < 150 && r.Stands(pos)
      requires ch.percent == percent && ch.suffix == PickChar(r.p, pos, lettered, 'A', 26).0
      modifies this`k, fmt, r
      ensures Valid() && Written() == Cat(old(Written()), TailText(ch))
    {
      ghost var t5 := Cat(One(ch.suffix), "");
      hide Cat, PickChar, One, If;
      AddIf(percent, '%', Cat(If(percent, "%"), t5));
      AddIf(percent, '%', t5);
      AddPicked(r, lettered, 'A', 26, pos, "");
      CatNothing(Written());
    }
  }

  lemma {:induction false} CatNothing(s: string)
    ensures Cat("", s) == s && Cat(s, "") == s
  {
  }

  /** The flags of a choice are those its byte asks for. */
  ghost predicate FlagsOf(ch: Choice, flags: Byte) {
    && ch.caret == Bit(flags, 2) && One(ch.sign) == If(Bit(flags, 4), [if Bit(flags, 8) then '(' else '+'])
    && ch.bang == Bit(flags, 16) && ch.minus == Bit(flags, 32)
  }

  function AfterNumbers(data: seq<Byte>, pos: nat, shape: Byte): nat {
    Pick(data, Pick(data, Pick(data, pos, shape, 2).1, shape, 8).1, shape, 32).1
  }

  ghost predicate NumbersOf(ch: Choice, data: seq<Byte>, pos: nat, flags: Byte, shape: Byte) {
    var width := Pick(data, pos, shape, 2);
    var lp := Pick(data, width.1, shape, 8);
    ch.width == width.0 && ch.lp == lp.0 && ch.rp == Pick(data, lp.1, shape, 32).0 && ch.intl == Bit(flags, 64)
  }

  /** The format for an input, in its 160-byte buffer. */
  method Generate(data: seq<Byte>) returns (fmt: array<char>, k: nat)
    ensures k < fmt.Length == 160 && fmt[..k] == FormatOf(Choose(data)) && fmt[k] == '\0'
  {
    hide PickChar, Pick, Bit, Choose, Cat, NumberText, FlagsOf, NumbersOf, AfterNumbers, One, If, TailText, FillText;
    var r := new Reader(data);
    var b := new Buffer();
    var _ := r.U8(0);
    var flags := r.U8(1);
    var shape := r.U8(2);
    ghost var ch := Choose(data);
    ghost var prefix := PickChar(data, 3, Bit(shape, 1), 'a', 26);
    ghost var fill := PickChar(data, prefix.1, Bit(flags, 1), '!', 94);
    ghost var pos := AfterNumbers(data, fill.1, shape);
    ChoiceParts(data);
    ghost var t3 := NumberText(ch, TailText(ch));
    var lettered, filled, percent, closed := Bit(shape, 1), Bit(flags, 1), Bit(flags, 128), Bit(shape, 128);
    CatNothing(FormatOf(ch));
    b.AddStart(r, lettered, filled, ch,
      Cat(If(ch.caret, "^"), Cat(One(ch.sign), Cat(If(ch.bang, "!"), Cat(If(ch.minus, "-"), t3)))));
    b.AddMarks(flags, ch, t3);
    b.AddNumbers(r, flags, shape, fill.1, ch, TailText(ch));
    b.AddTail(r, percent, closed, pos, ch);
    fmt, k := b.fmt, b.k;
    fmt[k] := '\0';
  }

  lemma {:induction false} ChoiceParts(data: seq<Byte>)
    ensures var ch, flags, shape := Choose(data), At(data, 1), At(data, 2);
            var prefix := PickChar(data, 3, Bit(shape, 1), 'a', 26);
            var fill := PickChar(data, prefix.1, Bit(flags, 1), '!', 94);
            var end := AfterNumbers(data, fill.1, shape);
            && ch.prefix == prefix.0 && ch.fill == fill.0
            && FlagsOf(ch, flags) && NumbersOf(ch, data, fill.1, flags, shape)
            && ch.percent == Bit(flags, 128) && ch.suffix == PickChar(data, end, Bit(shape, 128), 'A', 26).0
  {
  }
}
