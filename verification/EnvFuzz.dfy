// fuzz/fuzz_env.c: the record machine over the environment, and its own checks.

/** The record machine of fuzz_env.c, with its own checks. */
module EnvFuzz {
  import opened Options
  import opened EnvSpec
  import opened EnvOwnership
  import opened EnvLibrary

  const REC: nat := 64
  const MAXENV: nat := 4096
  const ENVHIGH: nat := 512
  const ENVLOW: nat := 256
  const PUTARENA: nat := 128
  const PUTCAP: nat := 1024

  /** What the records see: the entries and the arena, without pointers. */
  datatype Machine = Machine(entries: seq<string>, slots: seq<string>, putSlot: nat, putCalls: nat)

  /** What unsetting a reused slot's old name leaves. */
  function Retired(es: seq<string>, s: string): seq<string> {
    if NameLen(s) == 0 then es else Without(es, s[..NameLen(s)])
  }

  function NamePart(rec: string): string { rec[..NameLen(rec)] }

  function ValuePart(rec: string): string { if NameLen(rec) < |rec| then rec[NameLen(rec) + 1..] else "" }

  /** One record's effect. */
  function Step(m: Machine, op: nat, rec: string, block: bool, room: bool): Machine
    requires m.putSlot < |m.slots|
  {
    if op <= 1 then m.(entries := SetSpec(m.entries, NamePart(rec), ValuePart(rec), op == 0, block, room).1)
    else if op == 2 then
      if m.putCalls >= PUTCAP then m
      else
        Machine(PutSpec(Retired(m.entries, m.slots[m.putSlot]), rec, block, room).1,
                m.slots[m.putSlot := rec], (m.putSlot + 1) % |m.slots|, m.putCalls + 1)
    else if op == 3 && rec != "" && rec[0] != '=' then m.(entries := Without(m.entries, NamePart(rec)))
    else m
  }

  /** When a record's checks report something: the list has outgrown MAXENV, or a kept value does
      not fit the buffer it was copied to. */
  predicate Fires(m: Machine, op: nat, rec: string, block: bool, room: bool)
    requires m.putSlot < |m.slots|
  {
    var after := Step(m, op, rec, block, room).entries;
    if op <= 1 then
      || |after| > MAXENV
      || (op == 1 && NameLen(rec) > 0 && Lookup(m.entries, NamePart(rec)).Some? &&
          |Lookup(m.entries, NamePart(rec)).value| > REC)
    else if op == 2 then
      && m.putCalls < PUTCAP && |after| > MAXENV
      && PutSpec(Retired(m.entries, m.slots[m.putSlot]), rec, block, room).0
    else op == 3 && |after| > MAXENV
  }

  ghost predicate Short(es: seq<string>) { forall i :: 0 <= i < |es| ==> |es[i]| <= REC }

  // ---- what a record can do to the list

  lemma {:induction false} NamePartValid(rec: string)
    ensures NameLen(NamePart(rec)) == |NamePart(rec)| && '=' !in NamePart(rec)
  {
    if rec != "" && rec[0] != '=' {
      NamePartValid(rec[1..]);
      assert NamePart(rec) == [rec[0]] + NamePart(rec[1..]);
    }
  }

  lemma {:induction false} WithoutShort(es: seq<string>, name: string)
    requires Short(es)
    ensures Short(Without(es, name))
  {
    if es != [] { WithoutShort(es[1..], name); }
  }

  lemma {:induction false} PutBound(es: seq<string>, s: string, name: string)
    requires Short(es) && |s| <= REC
    ensures Short(Put(es, s, name)) && |Put(es, s, name)| <= |es| + 1
  {
  }

  lemma {:induction false} RetiredBound(es: seq<string>, s: string)
    requires Short(es)
    ensures Short(Retired(es, s)) && |Retired(es, s)| <= |es|
  {
    WithoutShort(es, s[..NameLen(s)]);
  }

  lemma {:induction false} StepBound(m: Machine, op: nat, rec: string, block: bool, room: bool)
    requires m.putSlot < |m.slots| && Short(m.entries) && |rec| < REC
    ensures Short(Step(m, op, rec, block, room).entries)
    ensures |Step(m, op, rec, block, room).entries| <= |m.entries| + if rec == "" then 0 else 1
  {
    var es, name, value := m.entries, NamePart(rec), ValuePart(rec);
    WithoutShort(es, name);
    PutBound(es, name + "=" + value, name);
    var kept := Retired(es, m.slots[m.putSlot]);
    RetiredBound(es, m.slots[m.putSlot]);
    WithoutShort(kept, rec);
    PutBound(kept, rec, name);
    hide Put, Without, Retired, Short;
  }

  // ---- what the checks after a record find

  lemma {:induction false} SetChecks(es: seq<string>, name: string, value: string,
                                     overwrite: bool, block: bool, room: bool)
    requires name != "" && NameLen(name) == |name| && '=' !in name
    ensures var r := SetSpec(es, name, value, overwrite, block, room);
            r.0 ==> Lookup(r.1, name) == if !overwrite && Lookup(es, name).Some? then Lookup(es, name) else Some(value)
  {
    PutThenGet(es, name, value, name);
    hide Put, Find;
  }

  lemma {:induction false} PutChecks(es: seq<string>, rec: string, table: bool, room: bool)
    requires 0 < NameLen(rec) < |rec| && PutSpec(es, rec, table, room).0
    ensures Lookup(PutSpec(es, rec, table, room).1, NamePart(rec)) == Some(ValuePart(rec))
  {
    NamePartValid(rec);
    PutThenGet(es, NamePart(rec), ValuePart(rec), NamePart(rec));
    assert rec == NamePart(rec) + "=" + ValuePart(rec);
  }

  lemma {:induction false} NoneLeft(es: seq<string>, name: string)
    ensures Lookup(Without(es, name), name) == None && Matches(Without(es, name), name) == 0
  {
    UnsetThenGet(es, name, name);
    MatchesNone(Without(es, name), name);
  }

  lemma {:induction false} MatchesNone(es: seq<string>, name: string)
    ensures Lookup(es, name) == None <==> Matches(es, name) == 0
  {
    if es != [] {
      LookupCons(es, name);
      MatchesNone(es[1..], name);
    }
  }

  /** Once a reused slot's name is unset, no entry points at the slot. */
  lemma {:induction false} SlotRetired(ps: seq<Ptr>, m: Memory, slot: nat)
    requires AllLive(m, ps) && Named(Texts(m, ps)) && slot < |m.arena|
    requires forall i :: 0 <= i < |ps| && 0 < NameLen(m.arena[slot]) ==>
               !NameEq(Texts(m, ps)[i], NamePart(m.arena[slot]))
    ensures Arena(slot) !in ps
  {
    forall i | 0 <= i < |ps| ensures ps[i] != Arena(slot) {
      assert WellNamed(Texts(m, ps)[i]);
    }
  }

  // ---- pruning between inputs

  /** Whole names dropped from the front until at most ENVLOW entries are left. */
  ghost function Pruned(es: seq<string>): seq<string>
    requires Named(es)
    decreases |es|
  {
    if |es| <= ENVLOW || NameLen(es[0]) > REC then es
    else
      WithoutFirst(es);
      Pruned(Without(es, NamePart(es[0])))
  }

  lemma {:induction false} WithoutNamed(es: seq<string>, name: string)
    requires Named(es)
    ensures Named(Without(es, name))
  {
    if es != [] { WithoutNamed(es[1..], name); }
  }

  lemma {:induction false} WithoutFirst(es: seq<string>)
    requires es != [] && Named(es)
    ensures |Without(es, NamePart(es[0]))| < |es| && Named(Without(es, NamePart(es[0])))
    ensures ValidName(NamePart(es[0]))
  {
    NamePartValid(es[0]);
    WithoutNamed(es, NamePart(es[0]));
    assert NameEq(es[0], NamePart(es[0]));
  }

  lemma {:induction false} PrunedBound(es: seq<string>)
    requires Named(es) && Short(es)
    ensures |Pruned(es)| <= ENVLOW && Short(Pruned(es))
    decreases |es|
  {
    if |es| > ENVLOW {
      assert NameLen(es[0]) <= REC;
      WithoutFirst(es);
      WithoutShort(es, NamePart(es[0]));
      PrunedBound(Without(es, NamePart(es[0])));
    }
  }

  class Harness {
    const env: Env
    var putSlot: nat
    var putCalls: nat

    ghost predicate Valid()
      reads this, env
    {
      env.Valid() && |env.mem.arena| == PUTARENA && putSlot < PUTARENA
    }

    ghost function State(): Machine
      reads this, env
      requires Valid()
    {
      Machine(env.Entries(), env.mem.arena, putSlot, putCalls)
    }

    constructor (e: Env)
      requires e.Valid() && |e.mem.arena| == PUTARENA
      ensures env == e && Valid() && State() == Machine(e.Entries(), e.mem.arena, 0, 0)
    {
      env, putSlot, putCalls := e, 0, 0;
    }

    method CheckEnviron() returns (fired: bool)
      requires Valid()
      ensures fired == (|env.environ| > MAXENV)
    {
      fired := false;
      var n := 0;
      while n < |env.environ|
        invariant n <= |env.environ| && n <= MAXENV && !fired
      {
        var text := Text(env.mem, env.environ[n]);
        assert WellNamed(env.Entries()[n]);
        if '=' !in text || text[0] == '=' { fired := true; }
        n := n + 1;
        if n > MAXENV { return true; }
      }
    }

    method CountNamed(name: string) returns (n: nat)
      requires Valid()
      ensures n == Matches(env.Entries(), name)
    {
      n := 0;
      for i := 0 to |env.environ|
        invariant n == Matches(env.Entries()[..i], name)
      {
        var same := Env.CompareName(Text(env.mem, env.environ[i]), name);
        MatchesNext(env.Entries(), name, i);
        if same { n := n + 1; }
      }
      assert env.Entries()[..|env.environ|] == env.Entries();
    }

    method SetRecord(op: nat, rec: string, block: bool, room: bool) returns (fired: bool)
      requires Valid() && op <= 1
      modifies env`environ, env`mem, env`nextBlock
      ensures Valid() && State() == Step(old(State()), op, rec, block, room)
      ensures fired == Fires(old(State()), op, rec, block, room)
    {
      var name, value := NamePart(rec), ValuePart(rec);
      NamePartValid(rec);
      ghost var es := env.Entries();
      var had := env.GetEnv(name);
      var kept := if had.Some? then (if |had.value| > REC then had.value[..REC] else had.value) else "";
      var ok := env.SetEnv(name, value, op == 0, block, room);
      fired := CheckEnviron();
      if name == "" || rec[0] == '=' {
        return fired || ok;
      }
      SetChecks(es, name, value, op == 0, block, room);
      hide Put, Find, Lookup;
      if !ok { return; }
      var now := env.GetEnv(name);
      if now.None? || (op == 0 && now.value != value) || (op != 0 && had.Some? && now.value != kept) {
        fired := true;
      }
    }

    method PutRecord(rec: string, table: bool, room: bool) returns (fired: bool)
      requires Valid()
      modifies this`putSlot, this`putCalls, env`environ, env`mem, env`putenvStrings
      ensures Valid() && State() == Step(old(State()), 2, rec, table, room)
      ensures fired == Fires(old(State()), 2, rec, table, room)
    {
      if putCalls >= PUTCAP { return false; }
      var slot := putSlot;
      putSlot := (putSlot + 1) % PUTARENA;
      Retire(slot);
      env.WriteSlot(slot, rec);
      putCalls := putCalls + 1;
      ghost var es := env.Entries();
      var ok := env.PutEnv(slot, table, room);
      hide Put, Find, Without, Sound, NameLen;
      if !ok { return false; }
      fired := CheckPut(rec, es, table, room);
    }

    /** The checks after a putenv that succeeded. */
    method CheckPut(rec: string, ghost es: seq<string>, ghost table: bool, ghost room: bool) returns (fired: bool)
      requires Valid() && (true, env.Entries()) == PutSpec(es, rec, table, room)
      ensures fired == (|env.environ| > MAXENV)
    {
      fired := CheckEnviron();
      var name := NamePart(rec);
      NamePartValid(rec);
      if name != "" {
        var now := env.GetEnv(name);
        if |name| < |rec| {
          PutChecks(es, rec, table, room);
          if now != Some(rec[|name| + 1..]) { fired := true; }
        } else {
          NoneLeft(es, name);
          assert rec == name;
          if now.Some? { fired := true; }
        }
      }
    }

    /** Unsets the name a slot's old text carries, so that the slot may be overwritten. */
    method Retire(slot: nat)
      requires Valid() && slot < PUTARENA
      modifies env`environ, env`mem
      ensures Valid() && env.mem.arena == old(env.mem.arena) && Arena(slot) !in env.environ
      ensures env.Entries() == Retired(old(env.Entries()), env.mem.arena[slot])
    {
      var s := env.mem.arena[slot];
      NamePartValid(s);
      if s != "" && NameLen(s) > 0 {
        WithoutNone(env.Entries(), NamePart(s));
        var _ := env.UnsetEnv(NamePart(s));
      }
      SlotRetired(env.environ, env.mem, slot);
    }

    method UnsetRecord(rec: string) returns (fired: bool)
      requires Valid()
      modifies env`environ, env`mem
      ensures Valid() && State() == Step(old(State()), 3, rec, false, false)
      ensures fired == Fires(old(State()), 3, rec, false, false)
    {
      var name := NamePart(rec);
      NamePartValid(rec);
      NoneLeft(env.Entries(), name);
      var ok := env.UnsetEnv(name);
      fired := CheckEnviron();
      if name == "" { return fired || ok; }
      if !ok { return; }
      var now := env.GetEnv(name);
      var count := CountNamed(name);
      if now.Some? || count != 0 { fired := true; }
    }

    method GetRecord(rec: string) returns (fired: bool)
      requires Valid()
      ensures !fired
    {
      var name := NamePart(rec);
      MatchesNone(env.Entries(), name);
      var v := env.GetEnv(name);
      var count := CountNamed(name);
      return v.Some? && count == 0;
    }

    /** The number of entries, counted no further than one past MAXENV. */
    method EnvCount() returns (n: nat)
      ensures n == if |env.environ| <= MAXENV then |env.environ| else MAXENV + 1
    {
      n := 0;
      while n <= MAXENV && n < |env.environ|
        invariant n <= MAXENV + 1 && n <= |env.environ|
      {
        n := n + 1;
      }
    }

    method EnvPrune()
      requires Valid()
      modifies env`environ, env`mem
      ensures Valid() && env.mem.arena == old(env.mem.arena)
      ensures var es := old(env.Entries());
              |es| <= MAXENV + 1 ==> env.Entries() == if |es| <= ENVHIGH then es else Pruned(es)
    {
      var n := EnvCount();
      if n <= ENVHIGH { return; }
      while n > ENVLOW
        invariant Valid() && env.mem.arena == old(env.mem.arena)
        invariant |old(env.Entries())| <= MAXENV + 1 ==> n == |env.environ|
        invariant |old(env.Entries())| <= MAXENV + 1 ==> Pruned(env.Entries()) == Pruned(old(env.Entries()))
        invariant n <= |env.environ|
      {
        var first := Text(env.mem, env.environ[0]);
        assert first == env.Entries()[0];
        if NameLen(first) == 0 || NameLen(first) > REC { break; }
        WithoutFirst(env.Entries());
        var ok := env.UnsetEnv(NamePart(first));
        if !ok { break; }
        var m := EnvCount();
        if m >= n { break; }
        n := m;
      }
    }

    method Record(op: nat, rec: string, block: bool, room: bool) returns (fired: bool)
      requires Valid()
      modifies this`putSlot, this`putCalls, env
      ensures Valid() && State() == Step(old(State()), op, rec, block, room)
      ensures fired == Fires(old(State()), op, rec, block, room)
    {
      if op <= 1 {
        fired := SetRecord(op, rec, block, room);
      } else if op == 2 {
        fired := PutRecord(rec, block, room);
      } else if op == 3 {
        fired := UnsetRecord(rec);
      } else {
        fired := GetRecord(rec);
      }
    }

    static method ReadRecord(data: string, at: nat) returns (op: nat, rec: string, pos: nat)
      requires at + 2 <= |data|
      ensures op == data[at] as int % 5 && pos == RecordEnd(data, at) && rec == data[at + 2..pos]
    {
      op, pos := data[at] as int % 5, at + 2;
      var len := data[at + 1] as int % REC;
      if len > |data| - pos { len := |data| - pos; }
      rec := data[pos..pos + len];
      pos := pos + len;
    }

    /** The record at `at`; records with a NUL inside are skipped. */
    method NextRecord(data: string, at: nat, block: nat -> bool, room: nat -> bool) returns (pos: nat, fired: bool)
      requires Valid() && at + 2 <= |data|
      modifies this`putSlot, this`putCalls, env
      ensures Valid() && at < pos <= |data|
      ensures Feed(old(State()), data, at, block, room) == Or(fired, Feed(State(), data, pos, block, room))
    {
      FeedNext(State(), data, at, block, room);
      hide Sound, Feed, Step, Fires;
      hide RecordEnd;
      var op, rec;
      op, rec, pos := ReadRecord(data, at);
      if '\0' in rec { return pos, false; }
      fired := Record(op, rec, block(pos), room(pos));
    }

    /** One input.  `block` and `room` say which allocations succeed, by input position. */
    method TestOneInput(data: string, block: nat -> bool, room: nat -> bool) returns (fired: bool)
      requires Valid()
      modifies this`putSlot, this`putCalls, env
      ensures Valid()
      ensures |old(env.environ)| <= MAXENV + 1 ==> (State(), fired) == Input(old(State()), data, block, room)
    {
      EnvPrune();
      fired := false;
      if |data| < 2 { return; }
      ghost var start := State();
      hide Sound, Feed, Step, Fires, Pruned;
      assert Feed(start, data, 0, block, room) == Or(false, Feed(start, data, 0, block, room));
      var pos := 0;
      while pos + 2 <= |data|
        invariant Valid() && pos <= |data|
        invariant Feed(start, data, 0, block, room) == Or(fired, Feed(State(), data, pos, block, room))
        decreases |data| - pos
      {
        var complaint;
        pos, complaint := NextRecord(data, pos, block, room);
        fired := fired || complaint;
      }
      FeedDone(State(), data, pos, block, room);
      var complaint := CheckEnviron();
      fired := fired || complaint;
    }

    /** Any number of inputs of at most 10754 bytes, one after another, from a small environment of short
        entries: no check ever reports, whatever allocations fail at whatever point of whatever input. */
    method Campaign(inputs: seq<string>, block: (nat, nat) -> bool, room: (nat, nat) -> bool) returns (fired: bool)
      requires Valid() && Short(env.Entries()) && |env.environ| <= MAXENV
      requires forall i :: 0 <= i < |inputs| ==> |inputs[i]| <= 10754
      modifies this`putSlot, this`putCalls, env
      ensures Valid() && !fired && Short(env.Entries()) && |env.environ| <= MAXENV
    {
      hide Input;
      fired := false;
      for i := 0 to |inputs|
        invariant Valid() && !fired && Short(env.Entries()) && |env.environ| <= MAXENV
      {
        var blocks, rooms := (pos: nat) => block(i, pos), (pos: nat) => room(i, pos);
        InputQuiet(State(), inputs[i], blocks, rooms);
        var complaint := TestOneInput(inputs[i], blocks, rooms);
        fired := fired || complaint;
      }
    }
  }

  // ---- whole inputs

  function Or(fired: bool, r: (Machine, bool)): (Machine, bool) { (r.0, fired || r.1) }

  /** The end of the record at `pos`. */
  function RecordEnd(data: string, pos: nat): (end: nat)
    requires pos + 2 <= |data|
    ensures pos + 2 <= end <= |data| && end - pos - 2 < REC
  {
    var len := data[pos + 1] as int % REC;
    if len > |data| - (pos + 2) then |data| else pos + 2 + len
  }

  /** The records from `pos` on, and whether any check reports. */
  function Feed(m: Machine, data: string, pos: nat, block: nat -> bool, room: nat -> bool): (r: (Machine, bool))
    requires m.putSlot < |m.slots| && pos <= |data|
    ensures r.0.putSlot < |r.0.slots|
    decreases |data| - pos
  {
    if pos + 2 > |data| then (m, |m.entries| > MAXENV)
    else
      var op, end := data[pos] as int % 5, RecordEnd(data, pos);
      var rec := data[pos + 2..end];
      if '\0' in rec then Feed(m, data, end, block, room)
      else
        Or(Fires(m, op, rec, block(end), room(end)),
           Feed(Step(m, op, rec, block(end), room(end)), data, end, block, room))
  }

  lemma {:induction false} FeedNext(m: Machine, data: string, pos: nat, block: nat -> bool, room: nat -> bool)
    requires m.putSlot < |m.slots| && pos + 2 <= |data|
    ensures var op, end := data[pos] as int % 5, RecordEnd(data, pos);
            var rec := data[pos + 2..end];
            Feed(m, data, pos, block, room) ==
            if '\0' in rec then Feed(m, data, end, block, room)
            else
              Or(Fires(m, op, rec, block(end), room(end)),
                 Feed(Step(m, op, rec, block(end), room(end)), data, end, block, room))
  {
  }

  lemma {:induction false} FeedDone(m: Machine, data: string, pos: nat, block: nat -> bool, room: nat -> bool)
    requires m.putSlot < |m.slots| && pos <= |data| < pos + 2
    ensures Feed(m, data, pos, block, room) == (m, |m.entries| > MAXENV)
  {
  }

  /** A whole input, pruning first. */
  ghost function Input(m: Machine, data: string, block: nat -> bool, room: nat -> bool): (r: (Machine, bool))
    requires m.putSlot < |m.slots| && Named(m.entries)
  {
    var start := m.(entries := if |m.entries| <= ENVHIGH then m.entries else Pruned(m.entries));
    if |data| < 2 then (start, false) else Feed(start, data, 0, block, room)
  }

  /** On short entries only an overgrown list is reported. */
  lemma {:induction false} QuietStep(m: Machine, op: nat, rec: string, block: bool, room: bool)
    requires m.putSlot < |m.slots| && Short(m.entries)
    ensures Fires(m, op, rec, block, room) ==> |Step(m, op, rec, block, room).entries| > MAXENV
  {
    var i := Find(m.entries, NamePart(rec));
    if i < |m.entries| { assert |m.entries[i]| <= REC; }
    hide Step;
  }

  lemma {:induction false} FeedBound(m: Machine, data: string, pos: nat, block: nat -> bool, room: nat -> bool)
    requires m.putSlot < |m.slots| && pos <= |data| && Short(m.entries) && |m.entries| <= ENVHIGH + pos / 3
    ensures var r := Feed(m, data, pos, block, room);
            && Short(r.0.entries) && |r.0.entries| <= ENVHIGH + |data| / 3
            && (r.1 ==> ENVHIGH + |data| / 3 > MAXENV)
    decreases |data| - pos
  {
    hide Feed, Step, Fires;
    if pos + 2 > |data| {
      FeedDone(m, data, pos, block, room);
    } else {
      FeedNext(m, data, pos, block, room);
      var op, end := data[pos] as int % 5, RecordEnd(data, pos);
      var rec := data[pos + 2..end];
      hide RecordEnd;
      if '\0' in rec {
        FeedBound(m, data, end, block, room);
      } else {
        StepBound(m, op, rec, block(end), room(end));
        QuietStep(m, op, rec, block(end), room(end));
        StepSlots(m, op, rec, block(end), room(end));
        FeedBound(Step(m, op, rec, block(end), room(end)), data, end, block, room);
      }
    }
  }

  lemma {:induction false} StepSlots(m: Machine, op: nat, rec: string, block: bool, room: bool)
    requires m.putSlot < |m.slots|
    ensures var r := Step(m, op, rec, block, room); r.putSlot < |r.slots|
  {
  }

  /** An input of at most 10754 bytes never makes a check report: it starts with at most ENVHIGH entries and
      adds fewer than one per three bytes. */
  lemma {:induction false} InputQuiet(m: Machine, data: string, block: nat -> bool, room: nat -> bool)
    requires m.putSlot < |m.slots| && Named(m.entries) && Short(m.entries) && |data| <= 10754
    ensures var r := Input(m, data, block, room); !r.1 && Short(r.0.entries) && |r.0.entries| <= MAXENV
  {
    PrunedBound(m.entries);
    var start := m.(entries := if |m.entries| <= ENVHIGH then m.entries else Pruned(m.entries));
    FeedBound(start, data, 0, block, room);
    hide Feed;
  }

  const LONG_ENTRY := "A=" + seq(REC + 1, _ => 'x')

  /** A value of 65 bytes, kept by a setenv that may not overwrite, is reported as changed although it is not. */
  lemma {:induction false} KeptValueMisreported(block: bool, room: bool)
    ensures var m := Machine([LONG_ENTRY], [""], 0, 0);
            Fires(m, 1, "A", block, room) && Step(m, 1, "A", block, room) == m
  {
    var es := [LONG_ENTRY];
    assert NameLen("A") == 1 && NamePart("A") == "A";
    assert NameEq(es[0], "A");
    assert Find(es, "A") == 0;
    assert |es[0][2..]| == REC + 1;
  }
}
