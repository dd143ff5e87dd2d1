// fuzz/host_oracle.c: quoting in the report.

/** Quoting, and reading a quoted string back. */
module Quoted {
  import opened Options

  /** A byte of a C string: never 0. */
  type Byte = b: int | 0 < b < 256 witness 1

  const DQ: char := '\"'
  const BS: char := '\\'

  function Hex(d: nat): char
    requires d < 16
  {
    if d < 10 then '0' + d as char else 'a' + (d - 10) as char
  }

  predicate Plain(c: Byte) { 0x20 <= c < 0x7f && c as char != DQ && c as char != BS }

  function Escape(c: Byte): string {
    if c as char == DQ || c as char == BS then [BS, c as char]
    else if 0x20 <= c < 0x7f then [c as char]
    else [BS, 'x', Hex(c / 16), Hex(c % 16)]
  }

  function Body(s: seq<Byte>): string { if s == [] then "" else Escape(s[0]) + Body(s[1..]) }

  function Quote(s: seq<Byte>): string { [DQ] + Body(s) + [DQ] }

  // ---- reading back

  function Unhex(c: char): Option<nat> {
    if '0' <= c <= '9' then Some((c - '0') as nat)
    else if 'a' <= c <= 'f' then Some((c - 'a') as nat + 10)
    else None
  }

  /** The byte at the front of a quoted body and the number of characters it takes. */
  function Unescape(t: string): Option<(Byte, nat)> {
    if t == "" || t[0] == DQ then None
    else if t[0] != BS then if 0x20 <= t[0] as int < 0x7f then Some((t[0] as int, 1)) else None
    else if |t| > 1 && (t[1] == DQ || t[1] == BS) then Some((t[1] as int, 2))
    else if |t| > 3 && t[1] == 'x' && Unhex(t[2]).Some? && Unhex(t[3]).Some? &&
            Unhex(t[2]).value + Unhex(t[3]).value > 0 then
      Some((16 * Unhex(t[2]).value + Unhex(t[3]).value, 4))
    else None
  }

  /** The bytes up to the closing quote, and what follows it. */
  function ReadBody(t: string): Option<(seq<Byte>, string)> {
    if t == "" then None
    else if t[0] == DQ then Some(([], t[1..]))
    else
      var u := Unescape(t);
      if u.None? || u.value.1 > |t| then None
      else
        var r := ReadBody(t[u.value.1..]);
        if r.None? then None else Some(([u.value.0] + r.value.0, r.value.1))
  }

  function Read(t: string): Option<(seq<Byte>, string)> { if t == "" || t[0] != DQ then None else ReadBody(t[1..]) }

  lemma {:induction false} UnescapeReads(c: Byte, rest: string)
    ensures Unescape(Escape(c) + rest) == Some((c, |Escape(c)|)) && Escape(c)[0] != DQ
  {
    var t := Escape(c) + rest;
    if !Plain(c) && c as char != DQ && c as char != BS {
      assert t[0] == BS && t[1] == 'x' && t[2] == Hex(c / 16) && t[3] == Hex(c % 16);
    }
  }

  lemma {:induction false} ReadCons(t: string, c: Byte, n: nat, s: seq<Byte>, rest: string)
    requires t != "" && t[0] != DQ && Unescape(t) == Some((c, n)) && n <= |t| && ReadBody(t[n..]) == Some((s, rest))
    ensures ReadBody(t) == Some(([c] + s, rest))
  {
    hide Unescape;
  }

  lemma {:induction false} BodyCons(s: seq<Byte>, rest: string)
    requires s != []
    ensures Body(s) + rest == Escape(s[0]) + (Body(s[1..]) + rest)
  {
    hide Escape;
  }

  lemma {:induction false} BodyReads(s: seq<Byte>, rest: string)
    ensures ReadBody(Body(s) + ([DQ] + rest)) == Some((s, rest))
  {
    if s == [] {
      var t := [DQ] + rest;
      assert Body(s) + t == t && t[1..] == rest;
    } else {
      hide Escape, Unescape, ReadBody, Body;
      BodyReads(s[1..], rest);
      BodyCons(s, [DQ] + rest);
      EscapeThen(s[0], Body(s[1..]) + ([DQ] + rest), s[1..], rest);
      assert s == [s[0]] + s[1..];
    }
  }

  lemma {:induction false} EscapeThen(c: Byte, tail: string, s: seq<Byte>, rest: string)
    requires ReadBody(tail) == Some((s, rest))
    ensures ReadBody(Escape(c) + tail) == Some(([c] + s, rest))
  {
    var t := Escape(c) + tail;
    UnescapeReads(c, tail);
    assert t[|Escape(c)|..] == tail && t != "" && t[0] == Escape(c)[0];
    hide Escape, Unescape, ReadBody;
    ReadCons(t, c, |Escape(c)|, s, rest);
  }

  /** A quoted string reads back exactly, whatever is written after it. */
  lemma {:induction false} QuoteReads(s: seq<Byte>, rest: string)
    ensures Read(Quote(s) + rest) == Some((s, rest))
  {
    BodyReads(s, rest);
    assert (Quote(s) + rest)[1..] == Body(s) + ([DQ] + rest);
  }
}
