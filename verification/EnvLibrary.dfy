// src/env/setenv.c and src/env/getenv.c, updating the environment in place.

module EnvLibrary {
  import opened Options
  import opened EnvSpec
  import opened EnvOwnership

  class Env {
    var environ: seq<Ptr>
    var mem: Memory
    var putenvStrings: seq<Ptr>
    var nextBlock: nat

    ghost predicate Valid()
      reads this
    {
      Sound(environ, mem, putenvStrings, nextBlock, {})
    }

    ghost function Entries(): seq<string>
      reads this
      requires AllLive(mem, environ)
    {
      Texts(mem, environ)
    }

    constructor (slots: nat)
      ensures Valid() && environ == [] && mem.arena == seq(slots, _ => "")
    {
      environ, mem, putenvStrings, nextBlock := [], Memory(map[], seq(slots, _ => "")), [], 0;
    }

    method IsPutenv(p: Ptr) returns (b: bool)
      ensures b == (p in putenvStrings)
    {
      for i := 0 to |putenvStrings|
        invariant p !in putenvStrings[..i]
      {
        if putenvStrings[i] == p { return true; }
      }
      assert putenvStrings[..|putenvStrings|] == putenvStrings;
      return false;
    }

    /** getenv.c's name_eq, character by character. */
    static method CompareName(entry: string, name: string) returns (same: bool)
      ensures same == NameEq(entry, name)
    {
      for i := 0 to |name|
        invariant i <= |entry| && forall k :: 0 <= k < i ==> Upper(entry[k]) == Upper(name[k])
      {
        if i == |entry| || Upper(entry[i]) != Upper(name[i]) { return false; }
      }
      return |name| < |entry| && entry[|name|] == '=';
    }

    method EnvFind(name: string) returns (i: nat)
      requires AllLive(mem, environ)
      ensures i == Find(Entries(), name)
    {
      i := 0;
      while i < |environ|
        invariant i <= |environ| && forall k :: 0 <= k < i ==> !NameEq(Entries()[k], name)
      {
        var same := CompareName(Text(mem, environ[i]), name);
        if same { break; }
        i := i + 1;
      }
      FindIs(Entries(), name, i);
    }

    method GetEnv(name: string) returns (value: Option<string>)
      requires AllLive(mem, environ)
      ensures value == if ValidName(name) then Lookup(Entries(), name) else None
    {
      if NameLen(name) == 0 || NameLen(name) < |name| { return None; }
      var i := EnvFind(name);
      if i < |environ| { return Some(Text(mem, environ[i])[|name| + 1..]); }
      return None;
    }

    /** Frees an entry's string unless it is the caller's. */
    method Release(p: Ptr)
      requires Live(mem, p) && Tracked([p], putenvStrings) && OnlyArena(putenvStrings)
      modifies this`mem
      ensures mem == Freed(old(mem), p)
    {
      var callers := IsPutenv(p);
      if !callers {
        assert [p][0] == p;
        // free() is given a block of its own that is still live
        assert p.Block? && p.id in mem.heap;
        mem := mem.(heap := mem.heap - {p.id});
      }
    }

    method UnsetEnv(name: string) returns (ok: bool)
      requires Valid()
      modifies this`environ, this`mem
      ensures Valid() && mem.arena == old(mem.arena) && ok == ValidName(name)
      ensures Entries() == if ok then Without(old(Entries()), name) else old(Entries())
    {
      if NameLen(name) == 0 || NameLen(name) < |name| { return false; }
      ok := true;
      MatchesBound(Entries(), name);
      var remaining := |environ|;
      while remaining > 0
        invariant Valid() && mem.arena == old(mem.arena)
        invariant Without(Entries(), name) == Without(old(Entries()), name)
        invariant Matches(Entries(), name) <= remaining
        decreases remaining
      {
        var p := EnvFind(name);
        if p == |environ| {
          NoMatch(Entries(), name);
          return;
        }
        RemoveSound(environ, mem, putenvStrings, nextBlock, p);
        RemoveMatch(Entries(), name, p);
        Release(environ[p]);
        environ := Cut(environ, p);
        remaining := remaining - 1;
      }
      Unmatched(Entries(), name);
    }

    /** __putenv: `p`, whose name is `name`, becomes the entry for that name.  `room` is whether the
        list can grow. */
    method PutPointer(p: Ptr, name: string, room: bool) returns (ok: bool)
      requires Sound(environ, mem, putenvStrings, nextBlock, Own(p)) && (p.Block? ==> p !in environ)
      requires Live(mem, p) && WellNamed(Text(mem, p)) && (p.Arena? ==> p in putenvStrings)
      modifies this`environ, this`mem
      ensures Valid() && mem.arena == old(mem.arena)
      ensures ok == (room || Find(old(Entries()), name) < |old(environ)|)
      ensures Entries() == if ok then Put(old(Entries()), old(Text(mem, p)), name) else old(Entries())
    {
      ok := true;
      var e := EnvFind(name);
      if e < |environ| {
        ReplaceSound(environ, mem, putenvStrings, nextBlock, e, p);
        Release(environ[e]);
        environ := environ[e := p];
      } else if room {
        AppendSound(environ, mem, putenvStrings, nextBlock, p);
        environ := environ + [p];
      } else {
        DropSound(environ, mem, putenvStrings, nextBlock, p);
        if p.Block? { mem := Freed(mem, p); }
        ok := false;
      }
    }

    /** `block` and `room`: whether malloc and the list's reallocarray succeed. */
    method SetEnv(name: string, value: string, overwrite: bool, block: bool, room: bool) returns (ok: bool)
      requires Valid()
      modifies this`environ, this`mem, this`nextBlock
      ensures Valid() && mem.arena == old(mem.arena)
      ensures (ok, Entries()) == SetSpec(old(Entries()), name, value, overwrite, block, room)
    {
      if NameLen(name) == 0 || NameLen(name) < |name| { return false; }
      if !overwrite {
        var had := GetEnv(name);
        if had.Some? { return true; }
      }
      if !block { return false; }
      var p := Block(nextBlock);
      FreshSound(environ, mem, putenvStrings, nextBlock, name + "=" + value);
      mem, nextBlock := mem.(heap := mem.heap[nextBlock := name + "=" + value]), nextBlock + 1;
      NameOf(name, value);
      ok := PutPointer(p, name, room);
    }

    method PutEnv(slot: nat, table: bool, room: bool) returns (ok: bool)
      requires Valid() && slot < |mem.arena|
      modifies this`environ, this`mem, this`putenvStrings
      ensures Valid() && mem.arena == old(mem.arena)
      ensures (ok, Entries()) == PutSpec(old(Entries()), mem.arena[slot], table, room)
    {
      var s := mem.arena[slot];
      var l := NameLen(s);
      if l == 0 || l == |s| {
        ok := UnsetEnv(s);
        return;
      }
      if !table { return false; }
      putenvStrings := putenvStrings + [Arena(slot)];
      ok := PutPointer(Arena(slot), s[..l], room);
    }

    method ClearEnv()
      requires Valid()
      modifies this`environ, this`mem
      ensures Valid() && environ == [] && mem.heap == map[] && mem.arena == old(mem.arena)
    {
      hide Sound, Freed;
      assert environ[0..] == environ;
      for e := 0 to |environ|
        invariant environ == old(environ) && mem.arena == old(mem.arena)
        invariant Sound(environ[e..], mem, putenvStrings, nextBlock, {})
      {
        ClearStep(environ, mem, putenvStrings, nextBlock, e);
        Release(environ[e]);
      }
      environ := environ[|environ|..];
      NothingListed(mem, putenvStrings, nextBlock);
    }

    /** The caller overwrites the text of an arena slot: allowed only while no entry points at it. */
    method WriteSlot(slot: nat, text: string)
      requires Valid() && slot < |mem.arena| && Arena(slot) !in environ
      modifies this`mem
      ensures Valid() && Entries() == old(Entries()) && mem.arena == old(mem.arena)[slot := text]
    {
      mem := mem.(arena := mem.arena[slot := text]);
      assert Entries() == old(Entries());
    }
  }

  /** setenv on the list of texts: success and the new list. */
  function SetSpec(es: seq<string>, name: string, value: string, overwrite: bool,
                   block: bool, room: bool): (bool, seq<string>)
  {
    if !ValidName(name) then (false, es)
    else if !overwrite && Find(es, name) < |es| then (true, es)
    else if block && (room || Find(es, name) < |es|) then (true, Put(es, name + "=" + value, name))
    else (false, es)
  }

  /** putenv on the list of texts. */
  function PutSpec(es: seq<string>, s: string, table: bool, room: bool): (bool, seq<string>) {
    var l := NameLen(s);
    if l == 0 || l == |s| then (ValidName(s), if ValidName(s) then Without(es, s) else es)
    else if table && (room || Find(es, s[..l]) < |es|) then (true, Put(es, s, s[..l]))
    else (false, es)
  }

  lemma {:induction false} FreshSound(ps: seq<Ptr>, m: Memory, registered: seq<Ptr>, next: nat, s: string)
    requires Sound(ps, m, registered, next, {})
    ensures Sound(ps, m.(heap := m.heap[next := s]), registered, next + 1, {next}) && Block(next) !in ps
    ensures Texts(m.(heap := m.heap[next := s]), ps) == Texts(m, ps)
  {
    var m' := m.(heap := m.heap[next := s]);
    assert forall k :: 0 <= k < |ps| ==> Live(m, ps[k]) && ps[k] != Block(next);
    assert Texts(m', ps) == Texts(m, ps);
  }

  lemma {:induction false} NameOf(name: string, value: string)
    requires NameLen(name) == |name|
    ensures NameLen(name + "=" + value) == |name|
  {
    var s := name + "=" + value;
    if name != "" {
      NameOf(name[1..], value);
      assert s[1..] == name[1..] + "=" + value;
    }
  }

  /** How many entries are for `name`. */
  function Matches(es: seq<string>, name: string): nat {
    if es == [] then 0 else (if NameEq(es[0], name) then 1 else 0) + Matches(es[1..], name)
  }

  lemma {:induction false} MatchesBound(es: seq<string>, name: string)
    ensures Matches(es, name) <= |es|
  {
    if es != [] { MatchesBound(es[1..], name); }
  }

  lemma {:induction false} MatchesNext(es: seq<string>, name: string, i: nat)
    requires i < |es|
    ensures Matches(es[..i + 1], name) == Matches(es[..i], name) + if NameEq(es[i], name) then 1 else 0
  {
    if i > 0 {
      MatchesNext(es[1..], name, i - 1);
      assert es[..i + 1][1..] == es[1..][..i] && es[..i][1..] == es[1..][..i - 1];
    }
  }

  lemma {:induction false} NoMatch(es: seq<string>, name: string)
    requires Find(es, name) == |es|
    ensures Without(es, name) == es
  {
    if es != [] { NoMatch(es[1..], name); }
  }

  lemma {:induction false} Unmatched(es: seq<string>, name: string)
    requires Matches(es, name) == 0
    ensures Without(es, name) == es
  {
    if es != [] { Unmatched(es[1..], name); }
  }

  lemma {:induction false} RemoveMatch(es: seq<string>, name: string, p: nat)
    requires p == Find(es, name) < |es|
    ensures Without(Cut(es, p), name) == Without(es, name) && Matches(Cut(es, p), name) == Matches(es, name) - 1
  {
    var r := Cut(es, p);
    if p == 0 {
      assert r == es[1..];
    } else {
      RemoveMatch(es[1..], name, p - 1);
      assert r[1..] == Cut(es[1..], p - 1);
    }
  }
}
