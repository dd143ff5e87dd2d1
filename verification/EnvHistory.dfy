// fuzz/fuzz_env.c: what a run of records means, without the list of entries and without the ring of slots.

/** The record machine against the history of its records. */
module EnvHistory {
  import opened Options
  import opened EnvSpec
  import opened EnvOwnership
  import opened EnvLibrary
  import opened EnvFuzz

  /** A record, and whether its allocations succeed. */
  datatype Rec = Rec(op: nat, text: string, block: bool, room: bool)

  /** What each name finds, and every string handed to putenv so far. */
  datatype History = History(get: string -> Option<string>, puts: seq<string>)

  ghost function Unset(get: string -> Option<string>, name: string): string -> Option<string> {
    (n: string) => if SameName(name, n) then None else get(n)
  }

  ghost function Stored(get: string -> Option<string>, name: string, value: string): string -> Option<string> {
    (n: string) => if SameName(name, n) then Some(value) else get(n)
  }

  /** Storing needs a block, and room in the list unless the name is there already. */
  ghost function StoredIf(get: string -> Option<string>, name: string, value: string, block: bool, room: bool):
    string -> Option<string>
  {
    if block && (room || get(name).Some?) then Stored(get, name, value) else get
  }

  /** The string put `ring` puts ago loses its name: its memory is about to be used again. */
  ghost function Expired(h: History, ring: nat): string -> Option<string> {
    if ring == 0 || |h.puts| < ring || NamePart(h.puts[|h.puts| - ring]) == "" then h.get
    else Unset(h.get, NamePart(h.puts[|h.puts| - ring]))
  }

  ghost function Happens(h: History, r: Rec, ring: nat): History {
    var name := NamePart(r.text);
    if r.op == 2 then
      if |h.puts| >= PUTCAP then h
      else
        var get := Expired(h, ring);
        History(
          if name == "" then get
          else if '=' !in r.text then Unset(get, name)
          else StoredIf(get, name, ValuePart(r.text), r.block, r.room),
          h.puts + [r.text])
    else if name == "" || (r.op == 1 && h.get(name).Some?) then h
    else if r.op <= 1 then h.(get := StoredIf(h.get, name, ValuePart(r.text), r.block, r.room))
    else if r.op == 3 then h.(get := Unset(h.get, name))
    else h
  }

  ghost function Told(h: History, run: seq<Rec>, ring: nat): History
    decreases |run|
  {
    if run == [] then h else Told(Happens(h, run[0], ring), run[1..], ring)
  }

  function Ran(m: Machine, run: seq<Rec>): (r: Machine)
    requires m.putSlot < |m.slots|
    ensures r.putSlot < |r.slots|
    decreases |run|
  {
    if run == [] then m else Ran(Step(m, run[0].op, run[0].text, run[0].block, run[0].room), run[1..])
  }

  // ---- the list of entries

  predicate Askable(name: string) { name != "" && '=' !in name }

  /** Every name finds in the list what the history says. */
  ghost predicate Finds(es: seq<string>, get: string -> Option<string>) {
    forall name: string :: Askable(name) ==> Lookup(es, name) == get(name)
  }

  lemma {:induction false} SameLookup(es: seq<string>, a: string, b: string)
    requires SameName(a, b)
    ensures (Lookup(es, a).Some? <==> Lookup(es, b).Some?) && Lookup(es, a) == Lookup(es, b)
  {
    if es != [] {
      SameLookup(es[1..], a, b);
      LookupCons(es, a);
      LookupCons(es, b);
    }
  }

  lemma {:induction false} AskableName(rec: string)
    requires NamePart(rec) != ""
    ensures Askable(NamePart(rec)) && ValidName(NamePart(rec))
  {
    NamePartValid(rec);
  }

  lemma {:induction false} UnsetFinds(es: seq<string>, get: string -> Option<string>, name: string)
    requires Finds(es, get) && Askable(name)
    ensures Finds(Without(es, name), Unset(get, name))
  {
    hide Without, Lookup;
    forall n: string | Askable(n) ensures Lookup(Without(es, name), n) == Unset(get, name)(n) {
      UnsetThenGet(es, name, n);
      if SameName(name, n) { SameLookup(Without(es, name), name, n); }
    }
  }

  lemma {:induction false} StoredFinds(es: seq<string>, get: string -> Option<string>, name: string, value: string)
    requires Finds(es, get) && Askable(name) && ValidName(name)
    ensures Finds(Put(es, name + "=" + value, name), Stored(get, name, value))
  {
    hide Put, Lookup;
    var r := Put(es, name + "=" + value, name);
    forall n: string | Askable(n) ensures Lookup(r, n) == Stored(get, name, value)(n) {
      PutThenGet(es, name, value, n);
      if SameName(name, n) { SameLookup(r, name, n); }
    }
  }

  lemma {:induction false} FoundIsThere(es: seq<string>, name: string)
    ensures Lookup(es, name).Some? <==> Find(es, name) < |es|
  {
  }

  lemma {:induction false} SetFinds(es: seq<string>, get: string -> Option<string>, r: Rec)
    requires Finds(es, get) && NamePart(r.text) != "" && r.op <= 1
    ensures var name := NamePart(r.text);
            var after := SetSpec(es, name, ValuePart(r.text), r.op == 0, r.block, r.room).1;
            Finds(after, if r.op == 1 && get(name).Some? then get
                         else StoredIf(get, name, ValuePart(r.text), r.block, r.room))
  {
    var name := NamePart(r.text);
    AskableName(r.text);
    FoundIsThere(es, name);
    StoredFinds(es, get, name, ValuePart(r.text));
    hide Put, Lookup, Find, Finds;
    assert Lookup(es, name) == get(name) by { FindsAt(es, get, name); }
  }

  lemma {:induction false} FindsAt(es: seq<string>, get: string -> Option<string>, name: string)
    requires Finds(es, get) && Askable(name)
    ensures Lookup(es, name) == get(name)
  {
  }

  lemma {:induction false} PutFinds(es: seq<string>, get: string -> Option<string>, r: Rec)
    requires Finds(es, get)
    ensures var name := NamePart(r.text);
            Finds(PutSpec(es, r.text, r.block, r.room).1,
                  if name == "" then get
                  else if '=' !in r.text then Unset(get, name)
                  else StoredIf(get, name, ValuePart(r.text), r.block, r.room))
  {
    var s := r.text;
    var name, l := NamePart(s), NameLen(s);
    NameEndsAtEquals(s);
    if name != "" {
      AskableName(s);
      if l == |s| {
        assert name == s;
        UnsetFinds(es, get, name);
      } else {
        assert s == name + "=" + ValuePart(s);
        FoundIsThere(es, name);
        StoredFinds(es, get, name, ValuePart(s));
        FindsAt(es, get, name);
      }
    }
    hide Put, Lookup, Find, Finds, Without;
  }

  lemma {:induction false} NameEndsAtEquals(s: string)
    ensures NameLen(s) == |s| <==> '=' !in s
  {
    if s != "" && s[0] != '=' {
      NameEndsAtEquals(s[1..]);
      assert s == [s[0]] + s[1..];
    }
  }

  // ---- the ring of slots

  /** Where the k-th string put goes. */
  function SlotOf(k: nat, n: nat): (j: nat)
    requires 0 < n
    ensures j < n
  {
    if k < n then k else SlotOf(k - n, n)
  }

  /** The slots hold the last strings put, each where its number falls in the ring; the others are unused. */
  ghost predicate Ring(m: Machine, puts: seq<string>) {
    var n := |m.slots|;
    && 0 < n && m.putCalls == |puts| && m.putSlot == SlotOf(|puts|, n)
    && (forall k: nat :: k < |puts| <= k + n ==> InSlot(m.slots, puts, k))
    && (forall j :: |puts| <= j < n ==> m.slots[j] == "")
  }

  ghost predicate InSlot(slots: seq<string>, puts: seq<string>, k: nat)
    requires k < |puts| && slots != []
  {
    slots[SlotOf(k, |slots|)] == puts[k]
  }

  lemma {:induction false} SlotAfter(k: nat, d: nat, n: nat)
    requires d < n
    ensures SlotOf(k + d, n) == if SlotOf(k, n) + d < n then SlotOf(k, n) + d else SlotOf(k, n) + d - n
  {
    if k >= n { SlotAfter(k - n, d, n); }
  }

  lemma {:induction false} NextSlot(k: nat, n: nat)
    requires 0 < n
    ensures SlotOf(k + 1, n) == (SlotOf(k, n) + 1) % n
  {
    var j := SlotOf(k, n);
    if n == 1 {
      SlotAfter(k, 0, n);
    } else {
      SlotAfter(k, 1, n);
      assert j + 1 == n ==> (j + 1) % n == 0;
    }
  }

  /** What is in the slot about to be used. */
  lemma {:induction false} OldSlot(m: Machine, puts: seq<string>)
    requires Ring(m, puts)
    ensures var n := |m.slots|; m.slots[m.putSlot] == if |puts| < n then "" else puts[|puts| - n]
  {
    var n := |m.slots|;
    if n <= |puts| {
      assert InSlot(m.slots, puts, |puts| - n);
    }
  }

  lemma {:induction false} RingAdvances(m: Machine, puts: seq<string>, s: string, m': Machine)
    requires Ring(m, puts) && m'.slots == m.slots[m.putSlot := s]
    requires m'.putSlot == (m.putSlot + 1) % |m.slots| && m'.putCalls == m.putCalls + 1
    ensures Ring(m', puts + [s])
  {
    var n, more := |m.slots|, puts + [s];
    NextSlot(|puts|, n);
    forall k: nat | k < |more| <= k + n ensures InSlot(m'.slots, more, k) {
      if k < |puts| {
        assert InSlot(m.slots, puts, k);
        SlotAfter(k, |puts| - k, n);
      }
    }
    forall j | |more| <= j < n ensures m'.slots[j] == "" { }
  }

  // ---- runs

  ghost predicate Tells(m: Machine, h: History) { Finds(m.entries, h.get) && Ring(m, h.puts) }

  lemma {:induction false} StepTells(m: Machine, h: History, r: Rec)
    requires Tells(m, h)
    ensures m.putSlot < |m.slots| && |Step(m, r.op, r.text, r.block, r.room).slots| == |m.slots|
    ensures Tells(Step(m, r.op, r.text, r.block, r.room), Happens(h, r, |m.slots|))
  {
    var name := NamePart(r.text);
    if r.op == 2 {
      PutTells(m, h, r);
    } else if name == "" {
      NoName(m, r);
    } else {
      AskableName(r.text);
      assert r.text != "" && r.text[0] != '=';
      var after := Step(m, r.op, r.text, r.block, r.room);
      assert Ring(after, h.puts);
      if r.op <= 1 {
        SetFinds(m.entries, h.get, r);
      } else if r.op == 3 {
        UnsetFinds(m.entries, h.get, name);
      }
      hide Finds, SetSpec, Without, StoredIf, Ring;
    }
  }

  /** A record without a name changes nothing unless it is handed to putenv. */
  lemma {:induction false} NoName(m: Machine, r: Rec)
    requires m.putSlot < |m.slots| && NamePart(r.text) == "" && r.op != 2
    ensures Step(m, r.op, r.text, r.block, r.room) == m
  {
  }

  lemma {:induction false} PutTells(m: Machine, h: History, r: Rec)
    requires Tells(m, h) && r.op == 2
    ensures m.putSlot < |m.slots| && |Step(m, r.op, r.text, r.block, r.room).slots| == |m.slots|
    ensures Tells(Step(m, r.op, r.text, r.block, r.room), Happens(h, r, |m.slots|))
  {
    hide Finds;
    if m.putCalls < PUTCAP {
      OldSlot(m, h.puts);
      var stale := m.slots[m.putSlot];
      var kept, get := Retired(m.entries, stale), Expired(h, |m.slots|);
      if NamePart(stale) != "" {
        AskableName(stale);
        UnsetFinds(m.entries, h.get, NamePart(stale));
      }
      assert Finds(kept, get);
      PutFinds(kept, get, r);
      RingAdvances(m, h.puts, r.text, Step(m, r.op, r.text, r.block, r.room));
      hide Ring, PutSpec, Retired, Expired;
    }
  }

  /** After any run of records from unused slots, each name finds what the records' history says: only a string put
      as many puts before as there are slots loses its name. */
  lemma {:induction false} RunTells(m: Machine, h: History, run: seq<Rec>)
    requires Tells(m, h)
    ensures m.putSlot < |m.slots| && Tells(Ran(m, run), Told(h, run, |m.slots|))
    decreases |run|
  {
    hide Step, Tells, Happens;
    SlotInRing(m, h);
    if run != [] {
      StepTells(m, h, run[0]);
      var r := run[0];
      RunTells(Step(m, r.op, r.text, r.block, r.room), Happens(h, r, |m.slots|), run[1..]);
    }
  }

  lemma {:induction false} SlotInRing(m: Machine, h: History)
    requires Tells(m, h)
    ensures m.putSlot < |m.slots|
  {
  }

  // ---- puts

  /** Records that put these strings, all of them stored. */
  function Puts(texts: seq<string>): (run: seq<Rec>)
    ensures |run| == |texts| && forall k :: 0 <= k < |run| ==> run[k] == Rec(2, texts[k], true, true)
  {
    if texts == [] then [] else [Rec(2, texts[0], true, true)] + Puts(texts[1..])
  }

  ghost predicate Different(texts: seq<string>) {
    forall j, k :: 0 <= j < k < |texts| ==> !SameName(NamePart(texts[j]), NamePart(texts[k]))
  }

  /** What k finds after that many puts. */
  ghost predicate PutFound(h: History, texts: seq<string>, k: nat, ring: nat)
    requires k < |texts|
  {
    h.get(NamePart(texts[k])) == if |texts| <= k + ring then Some(ValuePart(texts[k])) else None
  }

  lemma {:induction false} ToldSnoc(h: History, run: seq<Rec>, r: Rec, ring: nat)
    ensures Told(h, run + [r], ring) == Happens(Told(h, run, ring), r, ring)
    decreases |run|
  {
    if run == [] {
      assert (run + [r])[1..] == [];
    } else {
      ToldSnoc(Happens(h, run[0], ring), run[1..], r, ring);
      assert (run + [r])[1..] == run[1..] + [r];
    }
  }

  lemma {:induction false} PutsSnoc(texts: seq<string>)
    requires texts != []
    ensures Puts(texts) == Puts(texts[..|texts| - 1]) + [Rec(2, texts[|texts| - 1], true, true)]
  {
  }

  /** Each of the last strings put, as many as there are slots, is found under its name; the older ones are gone;
      other names find what they found. */
  lemma {:induction false} LastPutsFound(h: History, texts: seq<string>, ring: nat, other: string)
    requires 0 < ring && h.puts == [] && |texts| <= PUTCAP && Different(texts)
    requires forall k :: 0 <= k < |texts| ==> WellNamed(texts[k])
    requires forall k :: 0 <= k < |texts| ==> !SameName(NamePart(texts[k]), other)
    ensures var r := Told(h, Puts(texts), ring);
            && r.puts == texts && r.get(other) == h.get(other)
            && forall k: nat :: k < |texts| ==> PutFound(r, texts, k, ring)
    decreases |texts|
  {
    if texts != [] {
      var n := |texts| - 1;
      var before, last := texts[..n], texts[n];
      LastPutsFound(h, before, ring, other);
      PutsSnoc(texts);
      ToldSnoc(h, Puts(before), Rec(2, last, true, true), ring);
      var b := Told(h, Puts(before), ring);
      LastPut(b, before, last, ring, other);
      assert texts == before + [last];
    }
  }

  lemma {:induction false} NotSame(a: string, b: string)
    requires !SameName(a, b)
    ensures !SameName(b, a)
  {
  }

  lemma {:induction false} LastPut(b: History, before: seq<string>, last: string, ring: nat, other: string)
    requires 0 < ring && |before| < PUTCAP && b.puts == before && Different(before + [last])
    requires forall k :: 0 <= k < |before + [last]| ==> WellNamed((before + [last])[k])
    requires forall k :: 0 <= k < |before + [last]| ==> !SameName(NamePart((before + [last])[k]), other)
    requires forall k: nat :: k < |before| ==> PutFound(b, before, k, ring)
    ensures var r, texts := Happens(b, Rec(2, last, true, true), ring), before + [last];
            && r.puts == texts && r.get(other) == b.get(other)
            && forall k: nat :: k < |texts| ==> PutFound(r, texts, k, ring)
  {
    var n, texts := |before|, before + [last];
    var r, get := Happens(b, Rec(2, last, true, true), ring), Expired(b, ring);
    assert WellNamed(texts[n]) && NamePart(last) != "" && '=' in last;
    assert forall x: string :: r.get(x) == if SameName(NamePart(last), x) then Some(ValuePart(last)) else get(x);
    assert !SameName(NamePart(texts[n]), other);
    if ring <= n { assert WellNamed(texts[n - ring]) && !SameName(NamePart(texts[n - ring]), other); }
    forall k: nat | k < |texts| ensures PutFound(r, texts, k, ring) {
      if k < n {
        assert PutFound(b, before, k, ring) && texts[k] == before[k];
        NotSame(NamePart(texts[k]), NamePart(texts[n]));
        assert r.get(NamePart(texts[k])) == get(NamePart(texts[k]));
        ExpiredAt(b, texts, k, ring);
      } else {
        assert SameName(NamePart(last), NamePart(last));
      }
    }
  }

  /** Of the strings put, one expires: the oldest that still had a slot. */
  lemma {:induction false} ExpiredAt(b: History, texts: seq<string>, k: nat, ring: nat)
    requires 0 < ring && texts != [] && b.puts == texts[..|texts| - 1] && k < |texts| - 1 && Different(texts)
    requires forall j :: 0 <= j < |texts| ==> WellNamed(texts[j])
    ensures var name := NamePart(texts[k]);
            Expired(b, ring)(name) == if k + ring == |texts| - 1 then None else b.get(name)
  {
    var n := |texts| - 1;
    if ring <= n {
      var e := n - ring;
      assert WellNamed(texts[e]) && b.puts[e] == texts[e];
      if k < e {
        NotSame(NamePart(texts[k]), NamePart(texts[e]));
      } else if e < k {
        assert !SameName(NamePart(texts[e]), NamePart(texts[k]));
      } else {
        assert SameName(NamePart(texts[e]), NamePart(texts[e]));
      }
    }
  }

  /** On the machine: a string put stays until its slot comes round again. */
  lemma {:induction false} RingKeepsLast(es: seq<string>, ring: nat, texts: seq<string>, k: nat)
    requires 0 < ring && |texts| <= PUTCAP && Different(texts) && k < |texts|
    requires forall j :: 0 <= j < |texts| ==> WellNamed(texts[j])
    ensures var m := Ran(Machine(es, seq(ring, _ => ""), 0, 0), Puts(texts));
            Lookup(m.entries, NamePart(texts[k])) ==
              if |texts| <= k + ring then Some(ValuePart(texts[k])) else None
  {
    var m := Machine(es, seq(ring, _ => ""), 0, 0);
    var h := History((name: string) => Lookup(es, name), []);
    assert Tells(m, h);
    RunTells(m, h, Puts(texts));
    var r := Told(h, Puts(texts), ring);
    forall j | 0 <= j < |texts| ensures !SameName(NamePart(texts[j]), "") { assert WellNamed(texts[j]); }
    LastPutsFound(h, texts, ring, "");
    assert PutFound(r, texts, k, ring) && WellNamed(texts[k]);
    AskableName(texts[k]);
    hide Told, Ran, Ring, Lookup;
    FindsAt(Ran(m, Puts(texts)).entries, r.get, NamePart(texts[k]));
  }

  // ---- inputs

  /** The input from pos on is these records: an operation, a length and a text each. */
  ghost predicate Spells(data: string, pos: nat, run: seq<Rec>, block: nat -> bool, room: nat -> bool)
    decreases |run|
  {
    if run == [] then pos == |data|
    else
      var r := run[0];
      var end := pos + 2 + |r.text|;
      && end <= |data| && r.op < 5 && |r.text| < REC && '\0' !in r.text
      && data[pos] as int == r.op && data[pos + 1] as int == |r.text| && data[pos + 2..end] == r.text
      && r.block == block(end) && r.room == room(end) && Spells(data, end, run[1..], block, room)
  }

  /** An input that spells records does what the records do. */
  lemma {:induction false} FeedRuns(m: Machine, data: string, pos: nat, run: seq<Rec>,
                                    block: nat -> bool, room: nat -> bool)
    requires m.putSlot < |m.slots| && pos <= |data| && Spells(data, pos, run, block, room)
    ensures Feed(m, data, pos, block, room).0 == Ran(m, run)
    decreases |run|
  {
    hide Feed, Step, Fires;
    if run == [] {
      FeedDone(m, data, pos, block, room);
    } else {
      var r := run[0];
      var end := pos + 2 + |r.text|;
      SmallRemainder(r.op, 5);
      SmallRemainder(|r.text|, REC);
      FeedNext(m, data, pos, block, room);
      assert RecordEnd(data, pos) == end;
      StepSlots(m, r.op, r.text, r.block, r.room);
      FeedRuns(Step(m, r.op, r.text, r.block, r.room), data, end, run[1..], block, room);
    }
  }

  lemma {:induction false} SmallRemainder(x: nat, n: nat)
    requires x < n
    ensures x % n == x
  {
  }

  /** So a whole input, from a list short enough to be left alone, tells its records' history. */
  lemma {:induction false} InputTells(m: Machine, h: History, data: string, run: seq<Rec>,
                                      block: nat -> bool, room: nat -> bool)
    requires Tells(m, h) && Named(m.entries) && |m.entries| <= ENVHIGH && 2 <= |data|
    requires Spells(data, 0, run, block, room)
    ensures m.putSlot < |m.slots| && Tells(Input(m, data, block, room).0, Told(h, run, |m.slots|))
  {
    SlotInRing(m, h);
    FeedRuns(m, data, 0, run, block, room);
    RunTells(m, h, run);
    hide Feed, Tells, Ran, Told;
  }

  // ---- pruning

  /** Dropping another name keeps the order in which two names come. */
  lemma {:induction false} DropOrder(es: seq<string>, first: string, a: string, b: string)
    requires '=' !in first && Askable(a) && Askable(b) && !SameName(first, a) && !SameName(first, b)
    requires Find(es, a) <= Find(es, b) < |es|
    ensures var less := Without(es, first); Find(less, a) <= Find(less, b) < |less|
  {
    var rest := es[1..];
    if NameEq(es[0], first) {
      EnvSpec.Apart(es[0], first, a);
      EnvSpec.Apart(es[0], first, b);
      DropOrder(rest, first, a, b);
      assert Without(es, first) == Without(rest, first);
    } else {
      var less := Without(es, first);
      assert less[1..] == Without(rest, first) && less[0] == es[0];
      if !NameEq(es[0], b) {
        if NameEq(es[0], a) { StillThere(rest, first, b); } else { DropOrder(rest, first, a, b); }
      }
    }
  }

  lemma {:induction false} StillThere(es: seq<string>, first: string, b: string)
    requires '=' !in first && Askable(b) && !SameName(first, b) && Find(es, b) < |es|
    ensures Find(Without(es, first), b) < |Without(es, first)|
  {
    UnsetThenGet(es, first, b);
  }

  /** Pruning drops names whole, first come first dropped: a name finds what it found or nothing, and one that comes
      behind another in the list is not dropped before it. */
  lemma {:induction false} PrunedKeeps(es: seq<string>, a: string, b: string)
    requires Named(es) && Askable(a) && Askable(b)
    ensures Lookup(Pruned(es), a) == None || Lookup(Pruned(es), a) == Lookup(es, a)
    ensures Find(es, a) <= Find(es, b) < |es| && Lookup(Pruned(es), a).Some? ==> Lookup(Pruned(es), b).Some?
    decreases |es|
  {
    if |es| > ENVLOW && NameLen(es[0]) <= REC {
      var first := NamePart(es[0]);
      WithoutFirst(es);
      NamePartValid(es[0]);
      var less := Without(es, first);
      PrunedKeeps(less, a, b);
      UnsetThenGet(es, first, a);
      assert Pruned(es) == Pruned(less);
      if SameName(first, a) {
        SameLookup(less, first, a);
      } else if Find(es, a) <= Find(es, b) < |es| {
        FirstIs(es, a, b);
        DropOrder(es, first, a, b);
      }
      hide Lookup, Find, Without, Pruned;
    } else if Find(es, a) <= Find(es, b) < |es| {
      FoundIsThere(es, b);
    }
  }

  lemma {:induction false} StillEqual(e: string, a: string, b: string)
    requires NameEq(e, a)
    ensures SameName(a, b) ==> NameEq(e, b)
  {
  }

  /** A name that is not the first entry's cannot come before one that is. */
  lemma {:induction false} FirstIs(es: seq<string>, a: string, b: string)
    requires es != [] && WellNamed(es[0]) && Askable(a) && Askable(b) && Find(es, a) <= Find(es, b) < |es|
    requires !SameName(NamePart(es[0]), a)
    ensures !SameName(NamePart(es[0]), b)
  {
    var first := NamePart(es[0]);
    NamePartValid(es[0]);
    assert NameEq(es[0], first);
    EnvSpec.Apart(es[0], first, a);
    StillEqual(es[0], first, b);
  }

  /** And it stops as soon as it may: with the last name dropped back in there were too many. */
  lemma {:induction false} PrunedNoFurther(es: seq<string>) returns (last: seq<string>)
    requires Named(es) && Short(es) && |es| > ENVLOW
    ensures |last| > ENVLOW && Named(last) && Pruned(es) == Without(last, NamePart(last[0]))
    decreases |es|
  {
    WithoutFirst(es);
    var less := Without(es, NamePart(es[0]));
    WithoutShort(es, NamePart(es[0]));
    assert NameLen(es[0]) <= REC;
    if |less| > ENVLOW {
      last := PrunedNoFurther(less);
    } else {
      last := es;
    }
  }
}
