// src/misc/strfmon.c: vstrfmon and its buffers.

/** vstrfmon with its field buffer and its bounded output. */
module MonetaryBuffer {
  import opened MonetaryParser
  import opened MonetaryText

  /** The caller's array, `written` bytes of it used, `left` more allowed. */
  class Out {
    const s: array<char>
    const limit: nat
    var left: nat
    var written: nat

    ghost predicate Valid()
      reads this
    {
      written + left == limit && limit < s.Length
    }

    constructor (s: array<char>, limit: nat)
      requires limit < s.Length
      ensures Valid() && this.s == s && this.limit == limit && written == 0
    {
      this.s, this.limit, left, written := s, limit, limit, 0;
    }

    method Put(t: string) returns (ok: bool)
      requires Valid()
      modifies this, s
      ensures Valid() && ok == (|t| <= old(left))
      ensures s[..written] == if ok then old(s[..written]) + t else old(s[..written])
      ensures forall i :: limit <= i < s.Length ==> s[i] == old(s[i])
    {
      if |t| > left { return false; }
      for i := 0 to |t|
        invariant written == old(written) && left == old(left)
        invariant s[..written + i] == old(s[..written]) + t[..i]
        invariant forall k :: limit <= k < s.Length ==> s[k] == old(s[k])
      {
        s[written + i] := t[i];
        assert t[..i + 1] == t[..i] + [t[i]];
      }
      assert t[..|t|] == t;
      written, left := written + |t|, left - |t|;
      ok := true;
    }

    method PutCopies(c: char, n: nat) returns (ok: bool)
      requires Valid()
      modifies this, s
      ensures Valid() && ok == (n <= old(left))
      ensures s[..written] == if ok then old(s[..written]) + Copies(c, n) else old(s[..written])
      ensures forall i :: limit <= i < s.Length ==> s[i] == old(s[i])
    {
      if n > left { return false; }
      for i := 0 to n
        invariant written == old(written) && left == old(left)
        invariant s[..written + i] == old(s[..written]) + Copies(c, i)
        invariant forall k :: limit <= k < s.Length ==> s[k] == old(s[k])
      {
        s[written + i] := c;
        assert Copies(c, i + 1) == Copies(c, i) + [c];
      }
      written, left := written + n, left - n;
      ok := true;
    }

    /** The field, padded to its width on the side the '-' flag says. */
    method PutPadded(c: Conv, f: string) returns (ok: bool)
      requires Valid()
      modifies this, s
      ensures Valid() && ok == (|Padded(c, f)| <= old(left))
      ensures ok ==> s[..written] == old(s[..written]) + Padded(c, f)
      ensures forall i :: limit <= i < s.Length ==> s[i] == old(s[i])
    {
      if c.width > |f| {
        if c.left {
          ok := Put(f);
          if ok { ok := PutCopies(' ', c.width - |f|); }
        } else {
          ok := PutCopies(' ', c.width - |f|);
          if ok { ok := Put(f); }
        }
      } else {
        ok := Put(f);
      }
    }
  }

  method Append(field: array<char>, fl: nat, t: string) returns (end: nat)
    requires fl + |t| <= field.Length
    modifies field
    ensures end == fl + |t| && field[..end] == old(field[..fl]) + t
  {
    for i := 0 to |t|
      invariant field[..fl + i] == old(field[..fl]) + t[..i]
    {
      field[fl + i] := t[i];
      assert t[..i + 1] == t[..i] + [t[i]];
    }
    assert t[..|t|] == t;
    end := fl + |t|;
  }

  /** The quantity, built up in the field buffer. */
  method BuildField(c: Conv, a: Amount, num: string) returns (field: array<char>, fl: nat)
    requires num == a.digits(c.rp) && |num| < NUM_MAX && c.lp <= PREC_MAX
    ensures fresh(field) && fl <= field.Length && field[..fl] == Field(c, a)
  {
    FieldFits(c, a);
    hide Whole;
    field := new char[FIELD_MAX](_ => ' ');
    fl := Append(field, 0, Copies(' ', Align(c, a)));
    fl := Append(field, fl, Sign(c, a));
    fl := Append(field, fl, Copies(c.fill, Excess(c, num)));
    fl := Append(field, fl, num);
    fl := Append(field, fl, Ending(c, a));
  }

  /** strfmon into the first `maxsize` bytes of s. */
  method Strfmon(s: array<char>, maxsize: nat, fmt: string, args: seq<Amount>, ulong: nat)
    returns (rc: int, e2big: bool)
    requires maxsize <= s.Length && 0x1_0000_0000 <= ulong
    requires maxsize > 0 ==> !Format(fmt, args, maxsize - 1, ulong).Undefined?
    modifies s
    ensures forall i :: maxsize <= i < s.Length ==> s[i] == old(s[i])
    ensures maxsize == 0 ==> rc == -1 && e2big
    ensures maxsize > 0 ==> Reported(Format(fmt, args, maxsize - 1, ulong), s[..maxsize], rc, e2big)
  {
    if maxsize == 0 { return -1, true; }
    hide Format;
    var o := new Out(s, maxsize - 1);
    var ok;
    ok, e2big := PutAll(o, fmt, args, ulong);
    if !ok { return -1, e2big; }
    s[o.written] := '\0';
    rc := o.written;
  }

  /** The loop over the format, into room left for `o.limit` bytes. */
  method PutAll(o: Out, fmt: string, args: seq<Amount>, ulong: nat) returns (ok: bool, e2big: bool)
    requires o.Valid() && o.written == 0 && 0x1_0000_0000 <= ulong && !Format(fmt, args, o.limit, ulong).Undefined?
    modifies o, o.s
    ensures o.Valid() && forall j :: o.limit <= j < o.s.Length ==> o.s[j] == old(o.s[j])
    ensures Format(fmt, args, o.limit, ulong) == if ok then Text(o.s[..o.written]) else Failed(e2big)
  {
    hide Format;
    ghost var all := Format(fmt, args, o.limit, ulong);
    var i: nat, k: nat := 0, 0;
    assert fmt[0..] == fmt && args[0..] == args && o.s[..0] == "";
    assert all == Before("", all);
    while i < |fmt|
      invariant i <= |fmt| && k <= |args| && o.Valid()
      invariant all == Before(o.s[..o.written], Format(fmt[i..], args[k..], o.left, ulong))
      invariant forall j :: o.limit <= j < o.s.Length ==> o.s[j] == old(o.s[j])
      decreases |fmt| - i
    {
      ok, i, k, e2big := PutNext(o, fmt, i, args, k, ulong);
      if !ok { return; }
    }
    FormatDone(args[k..], o.left, ulong);
    assert fmt[i..] == "";
    ok, e2big := true, false;
  }

  lemma {:induction false} FormatDone(args: seq<Amount>, room: nat, ulong: nat)
    requires 0 < ulong
    ensures Format("", args, room, ulong) == Text("")
  {
  }

  /** What the caller sees of a result: the whole text, its length and a terminator, or -1. */
  ghost predicate Reported(r: Result, s: string, rc: int, e2big: bool) {
    match r
    case Text(t) => rc == |t| < |s| && s[..rc] == t && s[rc] == '\0'
    case Failed(big) => rc == -1 && e2big == big
    case Undefined => false
  }

  /** What stands at the front of a format, read but not yet written. */
  datatype Item = Literal(text: string) | Quantity(c: Conv, a: Amount) | Error(e2big: bool)

  function TextOf(item: Item): string
    requires !item.Error?
  {
    match item case Literal(text) => text case Quantity(c, a) => Piece(c, a)
  }

  /** The item is what the format begins with, and i and k are where the rest of it and of the amounts begin. */
  ghost predicate Begins(fmt: string, at: nat, args: seq<Amount>, next: nat, ulong: nat, item: Item, i: nat, k: nat)
    requires at < |fmt| && next <= |args| && 0 < ulong
  {
    var h := First(fmt[at..], args[next..], ulong);
    if item.Error? then h == Bad(item.e2big)
    else at < i <= |fmt| && next <= k <= |args| && h == Give(TextOf(item), fmt[i..], args[k..])
  }

  method ReadLiteral(fmt: string, at: nat, ghost args: seq<Amount>, ghost next: nat, ghost ulong: nat)
    returns (item: Item, i: nat)
    requires at < |fmt| && next <= |args| && 0 < ulong
    requires fmt[at] != '%' || (at + 1 < |fmt| && fmt[at + 1] == '%')
    ensures item.Literal? && Begins(fmt, at, args, next, ulong, item, i, next)
  {
    i := if fmt[at] != '%' then at + 1 else at + 2;
    item := Literal([fmt[at]]);
    assert fmt[at..][i - at..] == fmt[i..] && fmt[at..][..1] == [fmt[at]];
  }

  method ReadQuantity(fmt: string, at: nat, args: seq<Amount>, next: nat, ulong: nat)
    returns (item: Item, i: nat, k: nat)
    requires at < |fmt| && next <= |args| && 0x1_0000_0000 <= ulong
    requires fmt[at] == '%' && !(at + 1 < |fmt| && fmt[at + 1] == '%')
    requires First(fmt[at..], args[next..], ulong) != Missing
    ensures Begins(fmt, at, args, next, ulong, item, i, k)
    ensures item.Quantity? ==> item.c.lp <= PREC_MAX && |item.a.digits(item.c.rp)| < NUM_MAX
    ensures !item.Literal?
  {
    assert fmt[at..][1..] == fmt[at + 1..];
    ConversionBounds(fmt[at + 1..], ulong);
    hide Conversion, Piece;
    var status, c;
    k := next;
    status, c, i := ReadConversion(fmt, at + 1, ulong);
    if !status.Ok? { return Error(status.TooBig?), i, k; }
    assert args[next..][0] == args[next] && args[next..][1..] == args[next + 1..];
    if |args[next].digits(c.rp)| >= NUM_MAX { return Error(true), i, k; }
    item, k := Quantity(c, args[next]), next + 1;
  }

  method ReadItem(fmt: string, at: nat, args: seq<Amount>, next: nat, ulong: nat) returns (item: Item, i: nat, k: nat)
    requires at < |fmt| && next <= |args| && 0x1_0000_0000 <= ulong
    requires First(fmt[at..], args[next..], ulong) != Missing
    ensures Begins(fmt, at, args, next, ulong, item, i, k)
    ensures item.Quantity? ==> item.c.lp <= PREC_MAX && |item.a.digits(item.c.rp)| < NUM_MAX
  {
    hide First, Begins;
    if fmt[at] != '%' || (at + 1 < |fmt| && fmt[at + 1] == '%') {
      item, i := ReadLiteral(fmt, at, args, next, ulong);
      k := next;
    } else {
      item, i, k := ReadQuantity(fmt, at, args, next, ulong);
    }
  }

  method PutItem(o: Out, item: Item) returns (ok: bool)
    requires o.Valid() && !item.Error?
    requires item.Quantity? ==> item.c.lp <= PREC_MAX && |item.a.digits(item.c.rp)| < NUM_MAX
    modifies o, o.s
    ensures o.Valid() && ok == (|TextOf(item)| <= old(o.left))
    ensures ok ==> o.s[..o.written] == old(o.s[..o.written]) + TextOf(item) && o.left == old(o.left) - |TextOf(item)|
    ensures forall j :: o.limit <= j < o.s.Length ==> o.s[j] == old(o.s[j])
  {
    hide Piece;
    match item {
      case Literal(text) => ok := o.Put(text);
      case Quantity(c, a) => ok := PutConversion(o, c, a, a.digits(c.rp));
    }
  }

  /** One character or conversion. */
  method PutNext(o: Out, fmt: string, at: nat, args: seq<Amount>, next: nat, ulong: nat)
    returns (ok: bool, i: nat, k: nat, e2big: bool)
    requires o.Valid() && at < |fmt| && next <= |args| && 0x1_0000_0000 <= ulong
    requires !Format(fmt[at..], args[next..], o.left, ulong).Undefined?
    modifies o, o.s
    ensures o.Valid() && (ok ==> at < i <= |fmt| && next <= k <= |args|)
    ensures forall j :: o.limit <= j < o.s.Length ==> o.s[j] == old(o.s[j])
    ensures ok ==> Before(old(o.s[..o.written]), Format(fmt[at..], args[next..], old(o.left), ulong))
                   == Before(o.s[..o.written], Format(fmt[i..], args[k..], o.left, ulong))
    ensures !ok ==> Format(fmt[at..], args[next..], old(o.left), ulong) == Failed(e2big)
  {
    hide First, Piece, TextOf;
    var item;
    item, i, k := ReadItem(fmt, at, args, next, ulong);
    FormatBegins(fmt, at, args, next, o.left, ulong, item, i, k);
    if item.Error? { return false, i, k, item.e2big; }
    hide Format, Begins;
    ok := PutItem(o, item);
    e2big := true;
    if ok { Taken(old(o.s[..o.written]), TextOf(item), Format(fmt[i..], args[k..], o.left, ulong)); }
  }

  lemma {:induction false} FormatBegins(fmt: string, at: nat, args: seq<Amount>, next: nat, room: nat, ulong: nat,
                                        item: Item, i: nat, k: nat)
    requires at < |fmt| && next <= |args| && 0 < ulong && Begins(fmt, at, args, next, ulong, item, i, k)
    ensures item.Error? ==> Format(fmt[at..], args[next..], room, ulong) == Failed(item.e2big)
    ensures !item.Error? ==> i <= |fmt| && k <= |args|
    ensures !item.Error? && |TextOf(item)| > room ==> Format(fmt[at..], args[next..], room, ulong) == Failed(true)
    ensures !item.Error? && |TextOf(item)| <= room
            ==> Format(fmt[at..], args[next..], room, ulong)
                == Before(TextOf(item), Format(fmt[i..], args[k..], room - |TextOf(item)|, ulong))
  {
    hide First, TextOf;
  }

  lemma {:induction false} Taken(done: string, t: string, r: Result)
    ensures Before(done, Before(t, r)) == Before(done + t, r)
  {
    if r.Text? { assert done + (t + r.s) == (done + t) + r.s; }
  }

  method PutConversion(o: Out, c: Conv, a: Amount, num: string) returns (ok: bool)
    requires o.Valid() && num == a.digits(c.rp) && |num| < NUM_MAX && c.lp <= PREC_MAX
    modifies o, o.s
    ensures o.Valid() && ok == (|Piece(c, a)| <= old(o.left))
    ensures ok ==> o.s[..o.written] == old(o.s[..o.written]) + Piece(c, a) && o.left == old(o.left) - |Piece(c, a)|
    ensures forall i :: o.limit <= i < o.s.Length ==> o.s[i] == old(o.s[i])
  {
    if c.lp > 0 && Whole(num) > c.lp { return true; }
    var field, fl := BuildField(c, a, num);
    hide Whole, Field, Padded;
    ok := o.PutPadded(c, field[..fl]);
  }
}
