// fuzz/host_oracle.c: the bounded report.

module ReportBuffer {
  import opened Quoted

  const RBUF: nat := 4096

  /** The longest prefix that fits beside the terminator. */
  function Cut(t: string): string { if |t| < RBUF then t else t[..RBUF - 1] }

  /** Cutting early changes nothing in the end. */
  lemma {:induction false} CutAbsorbs(a: string, b: string)
    ensures Cut(Cut(a) + b) == Cut(a + b)
  {
    if |a| >= RBUF { assert (a[..RBUF - 1] + b)[..RBUF - 1] == (a + b)[..RBUF - 1]; }
  }

  lemma {:induction false} BodyNext(f: string, s: seq<Byte>, i: nat)
    requires i < |s|
    ensures f + Escape(s[i]) + Body(s[i + 1..]) == f + Body(s[i..])
  {
    assert s[i..][1..] == s[i + 1..];
  }

  lemma {:induction false} BodyDone(f: string, s: seq<Byte>)
    requires s == []
    ensures f + Body(s) == f
  {
  }

  lemma {:induction false} QuoteIs(f: string, s: seq<Byte>)
    ensures f + [DQ] + Body(s) + [DQ] == f + Quote(s)
  {
  }

  class Report {
    const rbuf: array<char>
    var rlen: nat
    /** Everything added since the last emit, as if there were no limit. */
    ghost var full: string

    ghost predicate Valid()
      reads this, rbuf
    {
      rbuf.Length == RBUF && rlen < RBUF && rbuf[..rlen] == Cut(full)
    }

    constructor ()
      ensures Valid() && fresh(rbuf) && full == ""
    {
      rbuf, rlen, full := new char[RBUF](_ => '\0'), 0, "";
      new;
      assert rbuf[..rlen] == "";
    }

    /** addf, for the text its format expands to. */
    method AddF(t: string)
      requires Valid()
      modifies this, rbuf
      ensures Valid() && full == old(full) + t
    {
      var room := RBUF - rlen;
      Print(t);
      CutAbsorbs(full, t);
      if |t| > 0 {
        rlen := rlen + if |t| < room then |t| else room - 1;
      }
      full := full + t;
    }

    /** vsnprintf at the end of what is there: as much of t as fits, and a terminator. */
    method Print(t: string)
      requires Valid()
      modifies rbuf
      ensures var end := if rlen + |t| < RBUF then rlen + |t| else RBUF - 1;
              rbuf[..end] == Cut(old(rbuf[..rlen]) + t) && rbuf[end] == '\0'
    {
      var n := if rlen + |t| < RBUF then |t| else RBUF - 1 - rlen;
      for i := 0 to n
        invariant rbuf[..rlen + i] == old(rbuf[..rlen]) + t[..i]
      {
        rbuf[rlen + i] := t[i];
        assert t[..i + 1] == t[..i] + [t[i]];
      }
      assert old(rbuf[..rlen]) + t[..n] == Cut(old(rbuf[..rlen]) + t);
      rbuf[rlen + n] := '\0';
    }

    method AddQ(s: seq<Byte>)
      requires Valid()
      modifies this, rbuf
      ensures Valid() && full == old(full) + Quote(s)
    {
      hide Cut, Escape, Body;
      AddF([DQ]);
      ghost var start := full;
      assert s[0..] == s;
      for i := 0 to |s|
        invariant Valid() && full + Body(s[i..]) == start + Body(s)
      {
        BodyNext(full, s, i);
        AddEscaped(s[i]);
      }
      BodyDone(full, s[|s|..]);
      QuoteIs(old(full), s);
      AddF([DQ]);
    }

    method AddEscaped(c: Byte)
      requires Valid()
      modifies this, rbuf
      ensures Valid() && full == old(full) + Escape(c)
    {
      hide Cut;
      if c as char == DQ || c as char == BS {
        AddF([BS, c as char]);
      } else if 0x20 <= c < 0x7f {
        AddF([c as char]);
      } else {
        AddF([BS, 'x', Hex(c / 16), Hex(c % 16)]);
      }
    }

    /** emit: what is written out, and an empty buffer. */
    method Emit() returns (out: string)
      requires Valid()
      modifies this
      ensures Valid() && out == Cut(old(full)) && full == ""
    {
      out := rbuf[..rlen];
      rlen, full := 0, "";
      assert rbuf[..0] == "";
    }
  }
}
