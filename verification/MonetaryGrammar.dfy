// src/misc/strfmon.c: how a format is written, and what strfmon makes of every format.

/** The published grammar of formats. */
module MonetaryGrammar {
  import opened Ascii
  import opened Decimals
  import opened Options
  import opened MonetaryParser
  import opened MonetaryText

  datatype Flag = Filled(c: char) | Caret | Paren | Plus | Bang | Minus

  /** Between a percent sign and its letter: flags in any order, a width, a left and a right precision. */
  datatype Spec = Spec(flags: seq<Flag>, width: string, left: Option<string>, right: Option<string>)

  predicate Proper(sp: Spec) {
    && AllDigits(sp.width) && (sp.left.Some? ==> AllDigits(sp.left.value))
    && (sp.right.Some? ==> AllDigits(sp.right.value))
  }

  function FlagText(f: Flag): string {
    match f
    case Filled(c) => ['=', c]
    case Caret => "^"
    case Paren => "("
    case Plus => "+"
    case Bang => "!"
    case Minus => "-"
  }

  /** Flags in front of t. */
  function FlagsText(fs: seq<Flag>, t: string): string {
    if fs == [] then t else FlagText(fs[0]) + FlagsText(fs[1..], t)
  }

  function PartText(mark: char, ds: Option<string>, t: string): string {
    if ds.Some? then [mark] + (ds.value + t) else t
  }

  function SpecText(sp: Spec, t: string): string {
    FlagsText(sp.flags, sp.width + PartText('#', sp.left, PartText('.', sp.right, t)))
  }

  predicate Bare(t: string) { t == "" || t == "=" || t[0] !in "=^(+!-" }

  /** t does not go on with the part before it; an equals sign at the very end is no flag. */
  predicate Apart(sp: Spec, t: string) {
    t == "" ||
    (if sp.right.Some? then !Digit(t[0])
     else t[0] != '.' && !Digit(t[0]) && (sp.left.None? ==> t[0] != '#' && (sp.width == "" ==> Bare(t))))
  }

  // ---- what it means

  function Filling(fs: seq<Flag>, c: char): char {
    if fs == [] then c else Filling(fs[1..], if fs[0].Filled? then fs[0].c else c)
  }

  function Set(fs: seq<Flag>, c: Conv): Conv {
    c.(fill := Filling(fs, c.fill), nogrp := c.nogrp || Caret in fs, negpar := c.negpar || Paren in fs,
       nosym := c.nosym || Bang in fs, left := c.left || Minus in fs)
  }

  /** A width is taken if all its digits but the last make at most a sixteenth of the largest unsigned long. */
  predicate WidthTaken(ds: string, ulong: nat)
    requires AllDigits(ds)
  {
    ds == "" || Fold(0, ds[..|ds| - 1]) <= (ulong - 1) / 16
  }

  function LeftOf(sp: Spec, ulong: nat): nat
    requires Proper(sp) && 0 < ulong
  {
    if sp.left.Some? then Fold(0, sp.left.value) % ulong else 0
  }

  /** 2 where there is none, or the number is the one that marks none. */
  function RightOf(sp: Spec, ulong: nat): nat
    requires Proper(sp) && 0 < ulong
  {
    if sp.right.None? || Fold(0, sp.right.value) % ulong == ulong - 1 then 2 else Fold(0, sp.right.value) % ulong
  }

  function ConvOf(sp: Spec, intl: bool, ulong: nat): Conv
    requires Proper(sp) && 0 < ulong
  {
    Set(sp.flags, NO_FLAGS).(width := Fold(0, sp.width), lp := LeftOf(sp, ulong), rp := RightOf(sp, ulong),
                             intl := intl)
  }

  /** What a specification and what follows it come to: numbers too large, then a letter amiss, then a right
      precision too large, and otherwise the conversion. */
  function Comes(sp: Spec, t: string, ulong: nat): Outcome<Conv>
    requires Proper(sp) && 0 < ulong
  {
    if !WidthTaken(sp.width, ulong) || LeftOf(sp, ulong) > PREC_MAX then E2big
    else if t == "" || t[0] !in "in" then Einval
    else if RightOf(sp, ulong) > PREC_MAX then E2big
    else Fine(ConvOf(sp, t[0] == 'i', ulong), t[1..])
  }

  // ---- reading it

  lemma {:induction false} FlagReads(f: Flag, t: string, c: Conv)
    ensures Flags(FlagText(f) + t, c) == Flags(t, Set([f], c))
  {
    var s := FlagText(f) + t;
    assert s[|FlagText(f)|..] == t && s[0] == FlagText(f)[0] && (f.Filled? ==> s[1] == f.c);
    assert Filling([f], c.fill) == Filling([], if f.Filled? then f.c else c.fill);
  }

  lemma {:induction false} FlagsRead(fs: seq<Flag>, t: string, c: Conv)
    ensures Flags(FlagsText(fs, t), c) == Flags(t, Set(fs, c))
  {
    if fs != [] {
      FlagReads(fs[0], FlagsText(fs[1..], t), c);
      FlagsRead(fs[1..], t, Set([fs[0]], c));
      assert fs == [fs[0]] + fs[1..];
      hide Flags;
      assert Filling([fs[0]], c.fill) == Filling([], if fs[0].Filled? then fs[0].c else c.fill);
      assert Set(fs[1..], Set([fs[0]], c)) == Set(fs, c);
    }
  }

  lemma {:induction false} WidthReads(ds: string, v: nat, t: string, ulong: nat)
    requires AllDigits(ds) && (t == "" || !Digit(t[0]))
    ensures Width(ds + t, v, ulong) ==
            if ds == "" || Fold(v, ds[..|ds| - 1]) <= (ulong - 1) / 16 then Fine(Fold(v, ds), t) else E2big
    decreases |ds|
  {
    var s := ds + t;
    hide Value;
    if ds == "" {
      assert s == t;
    } else {
      var u, rest := v * 10 + Value(ds[0]), ds[1..];
      assert s[1..] == rest + t;
      WidthReads(rest, u, t, ulong);
      FoldGrows(v, ds[..|ds| - 1]);
      if rest != "" { assert ds[..|ds| - 1][1..] == rest[..|rest| - 1]; }
    }
  }

  lemma {:induction false} NumberReads(ds: string, v: nat, w: nat, t: string, ulong: nat)
    requires AllDigits(ds) && (t == "" || !Digit(t[0])) && 0 < ulong && v == w % ulong
    ensures Number(ds + t, v, ulong) == (Fold(w, ds) % ulong, t)
    decreases |ds|
  {
    var s := ds + t;
    if ds == "" {
      assert s == t;
    } else {
      var d := Value(ds[0]);
      assert s[1..] == ds[1..] + t;
      Modular(w, d, ulong);
      NumberReads(ds[1..], (v * 10 + d) % ulong, w * 10 + d, t, ulong);
    }
  }

  lemma {:induction false} PartReads(mark: char, ds: string, t: string, ulong: nat)
    requires AllDigits(ds) && (t == "" || !Digit(t[0])) && 0 < ulong
    ensures var s := PartText(mark, Some(ds), t);
            s != "" && s[0] == mark && Number(s[1..], 0, ulong) == (Fold(0, ds) % ulong, t)
  {
    assert PartText(mark, Some(ds), t)[1..] == ds + t;
    Small(ulong);
    NumberReads(ds, 0, 0, t, ulong);
  }

  lemma {:induction false} Small(ulong: nat)
    requires 0 < ulong
    ensures 0 % ulong == 0
  {
  }

  lemma {:induction false} FlagsStop(sp: Spec, t: string, c: Conv)
    requires Proper(sp) && Apart(sp, t)
    ensures var t1 := PartText('#', sp.left, PartText('.', sp.right, t));
            Flags(sp.width + t1, c) == (if sp.width + t1 == "=" then Einval else Fine(c, sp.width + t1)) &&
            (t1 == "" || !Digit(t1[0]))
  {
    var t1 := PartText('#', sp.left, PartText('.', sp.right, t));
    var s := sp.width + t1;
    assert s != "" ==> s[0] == if sp.width == "" then t1[0] else sp.width[0];
  }

  /** What the parser makes of every specification, whatever follows. */
  lemma {:induction false} SpecReads(sp: Spec, t: string, ulong: nat)
    requires Proper(sp) && Apart(sp, t) && 0 < ulong
    ensures Conversion(SpecText(sp, t), ulong) == Comes(sp, t, ulong)
  {
    hide Flags, FlagsText, Set, Width, LeftPrecision, RightPrecision, Fold, LeftOf, RightOf, PartText;
    var t2 := PartText('.', sp.right, t);
    var t1 := PartText('#', sp.left, t2);
    var t0 := sp.width + t1;
    var c := Set(sp.flags, NO_FLAGS);
    FlagsRead(sp.flags, t0, NO_FLAGS);
    FlagsStop(sp, t, c);
    if t0 == "=" {
      LoneSign(sp, t, ulong);
    } else {
      WidthReads(sp.width, 0, t1, ulong);
      LeftReads(sp, t, ulong);
      RightReads(sp, t, ulong);
    }
  }

  lemma {:induction false} FirstOf(s: string, t: string)
    ensures if s == "" then s + t == t else (s + t)[0] == s[0]
  {
  }

  lemma {:induction false} LoneSign(sp: Spec, t: string, ulong: nat)
    requires Proper(sp) && 0 < ulong && sp.width + PartText('#', sp.left, PartText('.', sp.right, t)) == "="
    ensures Comes(sp, t, ulong) == Einval
  {
    var t1 := PartText('#', sp.left, PartText('.', sp.right, t));
    FirstOf(sp.width, t1);
    assert sp.width == "" && t1 == "=";
    assert sp.left.None? && sp.right.None? && t == "=";
    hide Fold;
  }

  lemma {:induction false} LeftReads(sp: Spec, t: string, ulong: nat)
    requires Proper(sp) && Apart(sp, t) && 0 < ulong
    ensures var t2 := PartText('.', sp.right, t);
            LeftPrecision(PartText('#', sp.left, t2), ulong) ==
            if LeftOf(sp, ulong) > PREC_MAX then E2big else Fine(LeftOf(sp, ulong), t2)
  {
    var t2 := PartText('.', sp.right, t);
    if sp.left.Some? { PartReads('#', sp.left.value, t2, ulong); }
    hide Number, Fold;
  }

  lemma {:induction false} RightReads(sp: Spec, t: string, ulong: nat)
    requires Proper(sp) && Apart(sp, t) && 0 < ulong
    ensures var r := RightPrecision(PartText('.', sp.right, t), ulong);
            r.1 == t && RightOf(sp, ulong) == if r.0 == ulong - 1 then 2 else r.0
  {
    if sp.right.Some? { PartReads('.', sp.right.value, t, ulong); }
    hide Number, Fold;
  }

  // ---- everything is so written

  lemma {:induction false} EveryFlags(s: string) returns (fs: seq<Flag>, t: string)
    ensures s == FlagsText(fs, t) && Bare(t)
  {
    fs, t := [], s;
    if !Bare(s) {
      var f := match s[0] case '=' => Filled(s[1]) case '^' => Caret case '(' => Paren case '+' => Plus
                          case '!' => Bang case _ => Minus;
      assert s == FlagText(f) + s[|FlagText(f)|..];
      fs, t := EveryFlags(s[|FlagText(f)|..]);
      fs := [f] + fs;
      assert fs[1..] + [] == fs[1..];
    }
  }

  lemma {:induction false} EveryDigits(s: string) returns (ds: string, t: string)
    ensures s == ds + t && AllDigits(ds) && (t == "" || !Digit(t[0]))
  {
    ds, t := "", s;
    if s != "" && Digit(s[0]) {
      ds, t := EveryDigits(s[1..]);
      ds := [s[0]] + ds;
    }
  }

  lemma {:induction false} EveryPart(mark: char, s: string) returns (ds: Option<string>, t: string)
    ensures s == PartText(mark, ds, t) && (t == "" || if ds.Some? then !Digit(t[0]) else t[0] != mark)
    ensures ds.Some? ==> AllDigits(ds.value)
  {
    ds, t := None, s;
    if s != "" && s[0] == mark {
      var v;
      v, t := EveryDigits(s[1..]);
      ds := Some(v);
      assert s == [mark] + s[1..];
    }
  }

  /** Whatever stands behind a percent sign is a specification and what follows it. */
  lemma {:induction false} EverySpec(s: string) returns (sp: Spec, t: string)
    ensures Proper(sp) && Apart(sp, t) && s == SpecText(sp, t)
  {
    var fs, t0 := EveryFlags(s);
    var w, t1 := EveryDigits(t0);
    var l, t2 := EveryPart('#', t1);
    var r;
    r, t := EveryPart('.', t2);
    sp := Spec(fs, w, l, r);
    assert s == SpecText(sp, t);
    hide FlagsText;
    assert t != "" && w == "" && l.None? && r.None? ==> t == t0;
    assert t != "" && l.None? && r.None? ==> t == t1;
    assert t != "" && r.None? ==> t == t2;
  }

  // ---- whole formats

  datatype Item = Plain(c: char) | Percent | Money(sp: Spec, intl: bool)

  function Letter(intl: bool): string { if intl then "i" else "n" }

  /** An item in front of t. */
  function ItemText(it: Item, t: string): string {
    match it
    case Plain(c) => [c] + t
    case Percent => "%%" + t
    case Money(sp, intl) => "%" + SpecText(sp, Letter(intl) + t)
  }

  function Written(its: seq<Item>, t: string): string {
    if its == [] then t else ItemText(its[0], Written(its[1..], t))
  }

  predicate Sound(its: seq<Item>) {
    forall k :: 0 <= k < |its| ==> (its[k].Plain? ==> its[k].c != '%') && (its[k].Money? ==> Proper(its[k].sp))
  }

  /** An accepted specification, with the letter behind it. */
  predicate Accepted(sp: Spec, ulong: nat)
    requires Proper(sp) && 0 < ulong
  {
    WidthTaken(sp.width, ulong) && LeftOf(sp, ulong) <= PREC_MAX && RightOf(sp, ulong) <= PREC_MAX
  }

  /** Every conversion is accepted and has an amount, whose digits fit their buffer. */
  predicate Serves(its: seq<Item>, args: seq<Amount>, ulong: nat)
    requires Sound(its) && 0 < ulong
  {
    its == [] ||
    if its[0].Money? then
      && Accepted(its[0].sp, ulong) && args != []
      && |args[0].digits(RightOf(its[0].sp, ulong))| < NUM_MAX && Serves(its[1..], args[1..], ulong)
    else Serves(its[1..], args, ulong)
  }

  /** The amounts in the conversions' places, in order; the rest as it is written, two percent signs as one. */
  function Produced(its: seq<Item>, args: seq<Amount>, ulong: nat): string
    requires Sound(its) && 0 < ulong && Serves(its, args, ulong)
  {
    if its == [] then ""
    else match its[0]
      case Plain(c) => [c] + Produced(its[1..], args, ulong)
      case Percent => "%" + Produced(its[1..], args, ulong)
      case Money(sp, intl) => Piece(ConvOf(sp, intl, ulong), args[0]) + Produced(its[1..], args[1..], ulong)
  }

  function Left(its: seq<Item>, args: seq<Amount>, ulong: nat): seq<Amount>
    requires Sound(its) && 0 < ulong && Serves(its, args, ulong)
  {
    if its == [] then args else Left(its[1..], if its[0].Money? then args[1..] else args, ulong)
  }

  /** How a format ends behind its last good item: at its end, or with a conversion that is refused, whose letter is
      amiss, or whose amount is missing or too long. */
  ghost predicate Ends(t: string, args: seq<Amount>, ulong: nat, r: Result)
    requires 0 < ulong
  {
    if t == "" then r == Text("")
    else exists sp, u :: Stops(t, sp, u) && Verdict(sp, u, args, ulong, r)
  }

  predicate Stops(t: string, sp: Spec, u: string) {
    var s := SpecText(sp, u);
    Proper(sp) && Apart(sp, u) && t == "%" + s && (s == "" || s[0] != '%')
  }

  predicate Verdict(sp: Spec, u: string, args: seq<Amount>, ulong: nat, r: Result)
    requires Proper(sp) && 0 < ulong
  {
    match Comes(sp, u, ulong)
    case Einval => r == Failed(false)
    case E2big => r == Failed(true)
    case Fine(c, _) => if args == [] then r == Undefined else |args[0].digits(c.rp)| >= NUM_MAX && r == Failed(true)
  }

  function Within(t: string, room: nat, r: Result): Result { if |t| > room then Failed(true) else Before(t, r) }

  lemma {:induction false} Goes(s: string, args: seq<Amount>, room: nat, ulong: nat, h: Head, u: string, r: Result)
    requires s != "" && 0 < ulong && h == First(s, args, ulong) && h.Give?
    requires |h.text| <= room ==> Format(h.rest, h.args, room - |h.text|, ulong) == Within(u, room - |h.text|, r)
    ensures Format(s, args, room, ulong) == Within(h.text + u, room, r)
  {
    hide First;
    if r.Text? { assert h.text + (u + r.s) == (h.text + u) + r.s; }
  }

  lemma {:induction false} SpecStart(sp: Spec, t: string)
    requires Proper(sp) && t != "" && t[0] != '%'
    ensures SpecText(sp, t) != "" && SpecText(sp, t)[0] != '%'
  {
    var t1 := PartText('#', sp.left, PartText('.', sp.right, t));
    assert (sp.width + t1)[0] == if sp.width == "" then t1[0] else sp.width[0];
  }

  lemma {:induction false} MoneyFirst(sp: Spec, intl: bool, t: string, args: seq<Amount>, ulong: nat)
    requires Proper(sp) && 0 < ulong && Accepted(sp, ulong) && args != []
    requires |args[0].digits(RightOf(sp, ulong))| < NUM_MAX
    ensures var s := ItemText(Money(sp, intl), t);
            s != "" && First(s, args, ulong) == Give(Piece(ConvOf(sp, intl, ulong), args[0]), t, args[1..])
  {
    var u := Letter(intl) + t;
    var s := ItemText(Money(sp, intl), t);
    assert u[1..] == t && u[0] == if intl then 'i' else 'n';
    assert s[1..] == SpecText(sp, u) && s[0] == '%';
    SpecStart(sp, u);
    SpecReads(sp, u, ulong);
    hide Conversion, SpecText, Piece, WidthTaken, LeftOf, RightOf, Set, Fold;
  }

  /** What strfmon makes of every format: the text of its good items, if it fits, and then how it ends. */
  lemma {:induction false} FormatReads(its: seq<Item>, t: string, args: seq<Amount>, room: nat, ulong: nat, r: Result)
    requires Sound(its) && 0 < ulong && Serves(its, args, ulong) && Ends(t, Left(its, args, ulong), ulong, r)
    ensures Format(Written(its, t), args, room, ulong) == Within(Produced(its, args, ulong), room, r)
  {
    if its == [] {
      EndFormats(t, args, room, ulong, r);
    } else {
      var s, rest := Written(its, t), Written(its[1..], t);
      var more := if its[0].Money? then args[1..] else args;
      forall m: nat ensures Format(rest, more, m, ulong) == Within(Produced(its[1..], more, ulong), m, r) {
        FormatReads(its[1..], t, more, m, ulong, r);
      }
      var h := match its[0] case Plain(c) => Give([c], rest, args) case Percent => Give("%", rest, args)
               case Money(sp, intl) => Give(Piece(ConvOf(sp, intl, ulong), args[0]), rest, args[1..]);
      FirstItem(its[0], rest, args, ulong, h);
      hide First, Format, Ends, Written;
      assert s == ItemText(its[0], rest) by { WrittenFirst(its, t); }
      Goes(s, args, room, ulong, h, Produced(its[1..], more, ulong), r);
    }
  }

  lemma {:induction false} WrittenFirst(its: seq<Item>, t: string)
    requires its != []
    ensures Written(its, t) == ItemText(its[0], Written(its[1..], t))
  {
  }

  lemma {:induction false} FirstItem(it: Item, t: string, args: seq<Amount>, ulong: nat, h: Head)
    requires Sound([it]) && 0 < ulong && Serves([it], args, ulong)
    requires h == match it case Plain(c) => Give([c], t, args) case Percent => Give("%", t, args)
                  case Money(sp, intl) => Give(Piece(ConvOf(sp, intl, ulong), args[0]), t, args[1..])
    ensures var s := ItemText(it, t); s != "" && First(s, args, ulong) == h
  {
    assert [it][0] == it;
    var s := ItemText(it, t);
    match it {
      case Plain(c) => assert s[..1] == [c] && s[1..] == t;
      case Percent => assert s[2..] == t && s[1] == '%';
      case Money(sp, intl) => MoneyFirst(sp, intl, t, args, ulong);
    }
  }

  lemma {:induction false} EndFormats(t: string, args: seq<Amount>, room: nat, ulong: nat, r: Result)
    requires 0 < ulong && Ends(t, args, ulong, r)
    ensures Format(t, args, room, ulong) == Within("", room, r)
  {
    if t == "" {
    } else {
      var sp, u :| Stops(t, sp, u) && Verdict(sp, u, args, ulong, r);
      SpecReads(sp, u, ulong);
      assert t[1..] == SpecText(sp, u);
      hide Conversion, SpecText, Comes;
    }
  }

  lemma {:induction false} Further(
    it: Item, its: seq<Item>, t: string, args: seq<Amount>, more: seq<Amount>, ulong: nat)
    requires Sound([it]) && Sound(its) && 0 < ulong && Serves([it], args, ulong)
    requires more == (if it.Money? then args[1..] else args) && Serves(its, more, ulong)
    ensures var all := [it] + its;
            && Sound(all) && Written(all, t) == ItemText(it, Written(its, t))
            && Serves(all, args, ulong) && Left(all, args, ulong) == Left(its, more, ulong)
  {
    var all := [it] + its;
    assert all[1..] == its && all[0] == it == [it][0];
  }

  predicate Usable(sp: Spec, u: string, args: seq<Amount>, ulong: nat)
    requires Proper(sp) && 0 < ulong
  {
    var o := Comes(sp, u, ulong);
    o.Fine? && args != [] && |args[0].digits(o.value.rp)| < NUM_MAX
  }

  lemma {:induction false} Usual(sp: Spec, u: string, args: seq<Amount>, ulong: nat)
    requires Proper(sp) && 0 < ulong && Usable(sp, u, args, ulong)
    ensures u != "" && Comes(sp, u, ulong).rest == u[1..]
    ensures Sound([Money(sp, u[0] == 'i')]) && Serves([Money(sp, u[0] == 'i')], args, ulong)
    ensures "%" + SpecText(sp, u) == ItemText(Money(sp, u[0] == 'i'), u[1..])
  {
    assert u == [u[0]] + u[1..] && (u[0] == 'i' || u[0] == 'n');
    var its := [Money(sp, u[0] == 'i')];
    assert its[1..] == [];
  }

  function Judged(sp: Spec, u: string, args: seq<Amount>, ulong: nat): Result
    requires Proper(sp) && 0 < ulong
  {
    match Comes(sp, u, ulong)
    case Einval => Failed(false)
    case E2big => Failed(true)
    case Fine(_, _) => if args == [] then Undefined else Failed(true)
  }

  /** Every format is good items and then such an end. */
  lemma {:induction false} EveryFormat(s: string, args: seq<Amount>, ulong: nat)
    returns (its: seq<Item>, t: string, r: Result)
    requires 0 < ulong
    ensures Sound(its) && s == Written(its, t) && Serves(its, args, ulong) && Ends(t, Left(its, args, ulong), ulong, r)
    decreases |s|
  {
    hide Comes, SpecText, Conversion;
    its, t, r := [], s, Text("");
    if s == "" {
    } else if s[0] != '%' {
      its, t, r := EveryFormat(s[1..], args, ulong);
      Further(Plain(s[0]), its, t, args, args, ulong);
      its := [Plain(s[0])] + its;
    } else if 1 < |s| && s[1] == '%' {
      its, t, r := EveryFormat(s[2..], args, ulong);
      assert s == "%%" + s[2..];
      Further(Percent, its, t, args, args, ulong);
      its := [Percent] + its;
    } else {
      var sp, u := EverySpec(s[1..]);
      assert s == "%" + SpecText(sp, u);
      SpecReads(sp, u, ulong);
      if Usable(sp, u, args, ulong) {
        Usual(sp, u, args, ulong);
        its, t, r := EveryFormat(u[1..], args[1..], ulong);
        var it := Money(sp, u[0] == 'i');
        Further(it, its, t, args, args[1..], ulong);
        its := [it] + its;
      } else {
        r := Judged(sp, u, args, ulong);
        assert Stops(t, sp, u) && Verdict(sp, u, args, ulong, r);
      }
    }
  }
}
