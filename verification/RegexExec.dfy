// src/regex/regex.c: the loops of run and regexec.

/** The matcher's loops, with their undo log, and what they report. */
module RegexExec {
  import opened Options
  import opened RegexCompiler
  import opened RegexProgram
  import opened RegexMatcher

  /** An entry of the backtracking stack: an alternative put off, or a slot's value from before it was overwritten. */
  datatype Entry = Try(pc: nat, sp: nat) | Undo(slot: nat, was: int)

  /** The alternatives on the stack, each with the slots as they were when it was put off. */
  function Unwound(bt: seq<Entry>, slots: seq<int>): seq<Place> {
    if bt == [] then []
    else
      var rest := bt[..|bt| - 1];
      match bt[|bt| - 1]
      case Try(pc, sp) => Unwound(rest, slots) + [Place(pc, sp, slots)]
      case Undo(k, was) => Unwound(rest, if k < |slots| then slots[k := was] else slots)
  }

  lemma {:induction false} Unwinds(bt: seq<Entry>, e: Entry, slots: seq<int>)
    ensures Unwound(bt + [e], slots) ==
            match e
            case Try(pc, sp) => Unwound(bt, slots) + [Place(pc, sp, slots)]
            case Undo(k, was) => Unwound(bt, if k < |slots| then slots[k := was] else slots)
  {
    assert (bt + [e])[..|bt|] == bt;
  }

  /** How often an attempt goes round its loop. */
  ghost function Turns(prog: seq<Inst>, s: Subject, a: State): nat
    requires Ready(prog, s, a)
    decreases Left(prog, s, a)
  {
    if Next(prog, s, a).None? then 1
    else
      NextFalls(prog, s, a);
      1 + Turns(prog, s, Next(prog, s, a).value)
  }

  ghost function TurnsFrom(prog: seq<Inst>, s: Subject, start: nat, n: nat): nat
    requires FineFrom(prog, 0, false) && start <= s.len
  {
    FirstReady(prog, s, start, n);
    Turns(prog, s, First(prog, start, n))
  }

  /** The slots of a match among the places, none of which ends later. */
  ghost predicate Best(prog: seq<Inst>, places: set<Place>, found: bool, slots: seq<int>)
    requires 1 < |slots|
  {
    && (forall c :: c in places && AtMatch(prog, c) && |c.slots| == |slots| ==> found && c.slots[1] <= slots[1])
    && (found ==> exists c :: c in places && AtMatch(prog, c) && c.slots == slots)
  }

  lemma {:induction false} BestMore(
    prog: seq<Inst>, places: set<Place>, c: Place, found: bool, slots: seq<int>, found': bool, slots': seq<int>)
    requires 1 < |slots| == |slots'| == |c.slots| && Best(prog, places, found, slots)
    requires if AtMatch(prog, c) && (!found || c.slots[1] > slots[1]) then found' && slots' == c.slots
             else found' == found && (found ==> slots' == slots)
    ensures Best(prog, places + {c}, found', slots')
  {
    if found' && !(AtMatch(prog, c) && (!found || c.slots[1] > slots[1])) {
      var d :| d in places && AtMatch(prog, d) && d.slots == slots;
      assert d in places + {c};
    } else if found' {
      assert c in places + {c};
    }
  }

  lemma {:induction false} OneTurn(prog: seq<Inst>, s: Subject, a: State)
    requires Ready(prog, s, a)
    ensures |a.progress| == |prog|
    ensures match Next(prog, s, a)
            case None => Tried(prog, s, a) == {a.at} && Turns(prog, s, a) == 1
            case Some(b) => Ready(prog, s, b) && Tried(prog, s, a) == {a.at} + Tried(prog, s, b)
                            && Turns(prog, s, a) == 1 + Turns(prog, s, b)
  {
    TriedNext(prog, s, a);
  }

  datatype Outcome = Found | NoMatch | GaveUp

  class Matcher {
    const prog: seq<Inst>
    const s: Subject
    const slot: array<int>
    const best: array<int>
    const progress: array<int>
    var bt: seq<Entry>
    var pc: nat
    var sp: nat

    ghost predicate Valid()
      reads this
    {
      slot != best && slot != progress && best != progress
      && progress.Length == |prog| && 1 < slot.Length == best.Length
    }

    ghost function Now(): State
      reads this, slot, progress
    {
      State(Place(pc, sp, slot[..]), progress[..], Unwound(bt, slot[..]))
    }

    constructor (prog: seq<Inst>, s: Subject, n: nat)
      requires 1 < n
      ensures Valid() && this.prog == prog && this.s == s && slot.Length == n
      ensures fresh(slot) && fresh(best) && fresh(progress)
    {
      this.prog, this.s := prog, s;
      slot, best, progress := new int[n](_ => -1), new int[n](_ => -1), new int[|prog|](_ => -1);
      bt, pc, sp := [], 0, 0;
    }

    /** Slots are put back until an alternative comes up. */
    method Backtrack() returns (goes: bool)
      requires Valid()
      modifies this`bt, this`pc, this`sp, slot
      ensures Valid()
      ensures match Pop(old(Now())) case None => !goes case Some(b) => goes && Now() == b
    {
      while bt != []
        invariant Valid() && Unwound(bt, slot[..]) == old(Now()).stack && progress[..] == old(progress[..])
        decreases |bt|
      {
        var e := bt[|bt| - 1];
        bt := bt[..|bt| - 1];
        match e {
          case Try(x, y) =>
            pc, sp := x, y;
            return true;
          case Undo(k, was) => if k < slot.Length { slot[k] := was; }
        }
      }
      return false;
    }

    /** A slot is overwritten, and its value kept for the way back. */
    method Note(k: nat)
      requires Valid()
      modifies this`bt, this`pc, slot
      ensures Valid()
      ensures var was := old(Now());
              Now() == was.(at := Place(old(pc) + 1, sp, Saved(was.at.slots, k, sp)))
    {
      if k < slot.Length {
        Unwinds(bt, Undo(k, slot[k]), slot[..][k := sp]);
        assert slot[..][k := sp][k := slot[k]] == slot[..];
        bt := bt + [Undo(k, slot[k])];
        slot[k] := sp;
        assert slot[..] == old(slot[..])[k := sp];
      }
      pc := pc + 1;
    }

    /** Two ways: the second is put off. */
    method Fork(x: nat, y: nat)
      requires Valid()
      modifies this`bt, this`pc
      ensures Valid()
      ensures var was := old(Now()); Now() == was.(at := was.at.(pc := x), stack := was.stack + [was.at.(pc := y)])
    {
      Unwinds(bt, Try(y, sp), slot[..]);
      bt := bt + [Try(y, sp)];
      pc := x;
    }

    /** The guard at a back edge, and what it records. */
    method Pass(x: nat) returns (ok: bool)
      requires Valid() && pc < |prog| && (prog[pc].Jmp? || prog[pc].Split?) && x == prog[pc].x
      modifies progress
      ensures Valid() && ok == !Guarded(prog, old(Now()))
      ensures var was := old(Now()); Now() == if ok then was.(progress := Recorded(prog, was)) else was
    {
      ok := x > pc || sp > progress[pc];
      if ok && x <= pc { progress[pc] := sp; }
    }

    /** One instruction; false, and nothing changed, if it fails. */
    method Step() returns (ok: bool)
      requires Valid() && pc < |prog|
      modifies this`bt, this`pc, this`sp, slot, progress
      ensures Valid()
      ensures if ok then Next(prog, s, old(Now())) == Some(Now())
              else Now() == old(Now()) && Next(prog, s, old(Now())) == Pop(old(Now()))
    {
      hide Unwound;
      var inst := prog[pc];
      match inst {
        case Save(k) =>
          Note(k);
          return true;
        case Jmp(x) =>
          ok := Pass(x);
          if ok { pc := x; }
        case Split(x, y) =>
          ok := Pass(x);
          if ok { Fork(x, y); } else { pc := y; }
          return true;
        case _ => ok := Test(inst);
      }
    }

    /** An instruction that tests the subject. */
    method Test(inst: Inst) returns (ok: bool)
      requires Valid() && pc < |prog| && inst == prog[pc] && !inst.Save? && !inst.Jmp? && !inst.Split?
      modifies this`pc, this`sp
      ensures Valid() && ok == Does(s, inst, old(sp), slot[..]).Some?
      ensures pc == old(pc) + (if ok then 1 else 0)
      ensures sp == if ok then Does(s, inst, old(sp), slot[..]).value.0 else old(sp)
    {
      ok := false;
      if Consumes(inst) {
        ok := sp < s.len && s.ok(inst, sp);
        if ok { sp := sp + 1; }
      } else if inst.Bol? || inst.Eol? {
        ok := s.ok(inst, sp);
      } else if inst.Backref? && 2 * inst.group + 1 < slot.Length {
        var so, eo := slot[2 * inst.group], slot[2 * inst.group + 1];
        if 0 <= so <= eo && eo - so <= s.len - sp && s.same(so, eo - so, sp) { ok, sp := true, sp + (eo - so); }
      }
      if ok { pc := pc + 1; }
    }

    /** One turn: an instruction, and the last alternative put off if it fails. */
    method Turn() returns (goes: bool)
      requires Valid()
      modifies this`bt, this`pc, this`sp, slot, progress
      ensures Valid()
      ensures match Next(prog, s, old(Now())) case None => !goes case Some(b) => goes && Now() == b
    {
      goes := false;
      if pc < |prog| { goes := Step(); }
      if !goes { goes := Backtrack(); }
    }

    method Keep()
      requires Valid()
      modifies best
      ensures Valid() && best[..] == slot[..]
    {
      for i := 0 to slot.Length
        invariant forall k :: 0 <= k < i ==> best[k] == slot[k]
      {
        best[i] := slot[i];
      }
    }

    method Restore()
      requires Valid()
      modifies slot
      ensures Valid() && slot[..] == best[..]
    {
      for i := 0 to slot.Length
        invariant forall k :: 0 <= k < i ==> slot[k] == best[k]
      {
        slot[i] := best[i];
      }
    }

    /** At a match its slots are kept, if it is the first or ends later than the one kept. */
    method Consider(found: bool, ghost done: set<Place>) returns (now: bool)
      requires Valid() && Best(prog, done, found, best[..])
      modifies best
      ensures Valid() && Best(prog, done + {Now().at}, now, best[..])
    {
      var better := pc < |prog| && prog[pc].Match? && (!found || slot[1] > best[1]);
      now := found || better;
      ghost var was := best[..];
      if better { Keep(); }
      BestMore(prog, done, Place(pc, sp, slot[..]), found, was, now, best[..]);
    }

    /** An attempt begins with nothing captured and nothing recorded. */
    method Reset(start: nat)
      requires Valid()
      modifies this`bt, this`pc, this`sp, slot, progress
      ensures Valid() && Now() == First(prog, start, slot.Length)
    {
      for i := 0 to slot.Length
        invariant forall k :: 0 <= k < i ==> slot[k] == -1
      {
        slot[i] := -1;
      }
      for i := 0 to progress.Length
        invariant forall k :: 0 <= k < i ==> progress[k] == -1
        invariant forall k :: 0 <= k < slot.Length ==> slot[k] == -1
      {
        progress[i] := -1;
      }
      bt, pc, sp := [], 0, start;
    }

    /** An attempt at one start: of all it tries, the slots of a match that ends last; unless its turns run out. */
    method Run(start: nat, budget: nat) returns (r: Outcome)
      requires Valid() && FineFrom(prog, 0, false) && start <= s.len
      modifies this`bt, this`pc, this`sp, slot, best, progress
      ensures Valid() && (r.GaveUp? <==> budget < TurnsFrom(prog, s, start, slot.Length))
      ensures !r.GaveUp? ==> Best(prog, TriedFrom(prog, s, start, slot.Length), r.Found?, slot[..])
    {
      Reset(start);
      ghost var all, turns := TriedFrom(prog, s, start, slot.Length), TurnsFrom(prog, s, start, slot.Length);
      ghost var done: set<Place> := {};
      var found, left := false, budget;
      FirstReady(prog, s, start, slot.Length);
      while left > 0
        invariant Valid() && Ready(prog, s, Now()) && left <= budget
        invariant all == done + Tried(prog, s, Now()) && turns == budget - left + Turns(prog, s, Now())
        invariant Best(prog, done, found, best[..])
      {
        hide Ready, Next, Tried, Turns, FineFrom, Best, Unwound;
        left := left - 1;
        OneTurn(prog, s, Now());
        found := Consider(found, done);
        done := done + {Now().at};
        var goes := Turn();
        if !goes {
          if found { Restore(); }
          return if found then Found else NoMatch;
        }
      }
      assert Turns(prog, s, Now()) >= 1;
      return GaveUp;
    }
  }

  // ---- regexec

  datatype Report = Matched(start: nat, slots: seq<int>) | Nothing | OutOfSpace

  ghost predicate MatchIn(prog: seq<Inst>, places: set<Place>, n: nat) {
    exists c :: c in places && AtMatch(prog, c) && |c.slots| == n
  }

  /** No attempt before `start` tries a match or runs out of turns. */
  ghost predicate NoneBefore(prog: seq<Inst>, s: Subject, n: nat, budget: nat, start: nat)
    requires FineFrom(prog, 0, false) && start <= s.len + 1
  {
    forall k :: 0 <= k < start ==> TurnsFrom(prog, s, k, n) <= budget && !MatchIn(prog, TriedFrom(prog, s, k, n), n)
  }

  /** What regexec reports: the slots of the match that ends last among those tried at the first start with one;
      nothing if no attempt tries one; and that it gives up if an attempt before that runs out of turns. */
  ghost predicate Reports(prog: seq<Inst>, s: Subject, n: nat, budget: nat, r: Report)
    requires FineFrom(prog, 0, false)
  {
    match r
    case Matched(start, slots) =>
      && start <= s.len && 1 < |slots| == n && NoneBefore(prog, s, n, budget, start)
      && TurnsFrom(prog, s, start, n) <= budget && Best(prog, TriedFrom(prog, s, start, n), true, slots)
    case Nothing => NoneBefore(prog, s, n, budget, s.len + 1)
    case OutOfSpace =>
      exists k :: 0 <= k <= s.len && NoneBefore(prog, s, n, budget, k) && budget < TurnsFrom(prog, s, k, n)
  }

  /** The first start at which an attempt succeeds; n is twice the number of groups, the whole match included. */
  method Regexec(prog: seq<Inst>, s: Subject, n: nat, budget: nat) returns (r: Report)
    requires FineFrom(prog, 0, false) && 1 < n
    ensures Reports(prog, s, n, budget, r)
  {
    hide FineFrom, TurnsFrom, TriedFrom;
    var m := new Matcher(prog, s, n);
    for start := 0 to s.len + 1
      invariant m.Valid() && m.prog == prog && m.s == s && m.slot.Length == n
      invariant fresh(m) && fresh(m.slot) && fresh(m.best) && fresh(m.progress)
      invariant NoneBefore(prog, s, n, budget, start)
    {
      var o := m.Run(start, budget);
      match o {
        case Found => return Matched(start, m.slot[..]);
        case GaveUp => return OutOfSpace;
        case NoMatch => NotBest(prog, TriedFrom(prog, s, start, n), m.slot[..]);
      }
    }
    return Nothing;
  }

  lemma {:induction false} NotBest(prog: seq<Inst>, places: set<Place>, slots: seq<int>)
    requires 1 < |slots| && Best(prog, places, false, slots)
    ensures !MatchIn(prog, places, |slots|)
  {
  }
}
