// crt/crt1.c: the units of the command line.

/** UTF-16 code units and the three kinds of unit the splitter treats specially. */
module Utf16 {
  newtype Wchar = x: int | 0 <= x < 0x1_0000

  const TAB: Wchar := 9
  const SPACE: Wchar := 32
  const QUOTE: Wchar := 34
  const BACKSLASH: Wchar := 92

  predicate Blank(c: Wchar) { c == SPACE || c == TAB }

  /** Units that may be consumed without reaching an argument. */
  predicate Special(c: Wchar) { Blank(c) || c == QUOTE || c == BACKSLASH }

  function Repeat(c: Wchar, n: nat): seq<Wchar> { seq(n, _ => c) }

  /** The number of backslashes a text starts with. */
  function RunLen(s: seq<Wchar>): (n: nat)
    ensures n <= |s|
    ensures n < |s| ==> s[n] != BACKSLASH
  {
    if s == [] || s[0] != BACKSLASH then 0 else 1 + RunLen(s[1..])
  }

  lemma {:induction false} RunIsRepeat(s: seq<Wchar>)
    ensures s[..RunLen(s)] == Repeat(BACKSLASH, RunLen(s))
  {
    if s != [] && s[0] == BACKSLASH {
      RunIsRepeat(s[1..]);
      assert s[..RunLen(s)] == [s[0]] + s[1..][..RunLen(s[1..])];
    }
  }

  lemma {:induction false} RunLenOf(n: nat, t: seq<Wchar>)
    requires t == [] || t[0] != BACKSLASH
    ensures RunLen(Repeat(BACKSLASH, n) + t) == n
  {
    var s := Repeat(BACKSLASH, n) + t;
    if n == 0 {
      assert s == t;
    } else {
      RunLenOf(n - 1, t);
      assert s[1..] == Repeat(BACKSLASH, n - 1) + t;
    }
  }

  function Flatten(xs: seq<seq<Wchar>>): seq<Wchar> {
    if xs == [] then [] else xs[0] + Flatten(xs[1..])
  }
}
