// src/env/setenv.c: the pointers behind the environment.

/** setenv.c with its pointers: who owns a string decides whether it may be freed. */
module EnvOwnership {
  import opened EnvSpec

  /** A caller's string in the putenv arena, or a heap block. */
  datatype Ptr = Arena(slot: nat) | Block(id: nat)

  /** Live heap blocks and the arena's texts. */
  datatype Memory = Memory(heap: map<nat, string>, arena: seq<string>)

  predicate Live(m: Memory, p: Ptr) {
    match p case Arena(slot) => slot < |m.arena| case Block(id) => id in m.heap
  }

  function Text(m: Memory, p: Ptr): string
    requires Live(m, p)
  {
    match p case Arena(slot) => m.arena[slot] case Block(id) => m.heap[id]
  }

  ghost predicate AllLive(m: Memory, ps: seq<Ptr>) { forall i :: 0 <= i < |ps| ==> Live(m, ps[i]) }

  ghost function Texts(m: Memory, ps: seq<Ptr>): (r: seq<string>)
    requires AllLive(m, ps)
  {
    seq(|ps|, i requires 0 <= i < |ps| => Text(m, ps[i]))
  }

  ghost predicate Named(es: seq<string>) { forall i :: 0 <= i < |es| ==> WellNamed(es[i]) }

  /** No block is listed twice.  A caller's string may be. */
  ghost predicate Distinct(ps: seq<Ptr>) { forall i, j :: 0 <= i < j < |ps| && ps[i].Block? ==> ps[i] != ps[j] }

  /** The heap holds exactly the listed blocks and `extra`. */
  ghost predicate NoLeak(m: Memory, ps: seq<Ptr>, extra: set<nat>, next: nat) {
    forall id :: id in m.heap ==> id < next && (id in extra || Block(id) in ps)
  }

  /** Listed arena strings are registered as the caller's. */
  ghost predicate Tracked(ps: seq<Ptr>, registered: seq<Ptr>) {
    forall i :: 0 <= i < |ps| && ps[i].Arena? ==> ps[i] in registered
  }

  ghost predicate OnlyArena(registered: seq<Ptr>) {
    forall i :: 0 <= i < |registered| ==> registered[i].Arena?
  }

  ghost predicate Sound(ps: seq<Ptr>, m: Memory, registered: seq<Ptr>, next: nat, extra: set<nat>) {
    && AllLive(m, ps) && Named(Texts(m, ps)) && Distinct(ps)
    && NoLeak(m, ps, extra, next) && Tracked(ps, registered) && OnlyArena(registered)
  }

  /** free(), for what is not the caller's. */
  function Freed(m: Memory, p: Ptr): (r: Memory)
    ensures r.arena == m.arena
  {
    match p case Arena(_) => m case Block(id) => m.(heap := m.heap - {id})
  }

  lemma {:induction false} TextsAfterFree(m: Memory, ps: seq<Ptr>, p: Ptr)
    requires AllLive(m, ps) && (p.Block? ==> p !in ps)
    ensures AllLive(Freed(m, p), ps) && Texts(Freed(m, p), ps) == Texts(m, ps)
  {
  }

  lemma {:induction false} LeakAfterFree(m: Memory, ps: seq<Ptr>, qs: seq<Ptr>, p: Ptr,
                                         extra: set<nat>, kept: set<nat>, next: nat)
    requires NoLeak(m, ps, extra, next)
    requires forall i :: 0 <= i < |ps| ==> ps[i] == p || ps[i] in qs
    requires forall id :: id in extra ==> Block(id) == p || id in kept || Block(id) in qs
    ensures NoLeak(Freed(m, p), qs, kept, next)
  {
  }

  /** The list without its i-th entry. */
  function Cut<T>(s: seq<T>, i: nat): seq<T>
    requires i < |s|
  {
    s[..i] + s[i + 1..]
  }

  lemma {:induction false} CutAt<T>(s: seq<T>, i: nat)
    requires i < |s|
    ensures |Cut(s, i)| == |s| - 1
    ensures forall k :: 0 <= k < |s| - 1 ==> Cut(s, i)[k] == s[if k < i then k else k + 1]
    ensures forall k :: 0 <= k < |s| ==> s[k] == s[i] || s[k] in Cut(s, i)
  {
    forall k | 0 <= k < |s| ensures s[k] == s[i] || s[k] in Cut(s, i) {
      if k < i { assert Cut(s, i)[k] == s[k]; } else if i < k { assert Cut(s, i)[k - 1] == s[k]; }
    }
  }

  lemma {:induction false} CutDistinct(ps: seq<Ptr>, i: nat)
    requires Distinct(ps) && i < |ps|
    ensures Distinct(Cut(ps, i)) && (ps[i].Block? ==> ps[i] !in Cut(ps, i))
  {
    CutAt(ps, i);
  }

  lemma {:induction false} CutTexts(ps: seq<Ptr>, m: Memory, i: nat)
    requires AllLive(m, ps) && Named(Texts(m, ps)) && i < |ps|
    ensures AllLive(m, Cut(ps, i)) && Texts(m, Cut(ps, i)) == Cut(Texts(m, ps), i) && Named(Texts(m, Cut(ps, i)))
  {
    CutAt(ps, i);
    CutAt(Texts(m, ps), i);
  }

  lemma {:induction false} RemoveSound(ps: seq<Ptr>, m: Memory, registered: seq<Ptr>, next: nat, i: nat)
    requires Sound(ps, m, registered, next, {}) && i < |ps|
    ensures Sound(Cut(ps, i), Freed(m, ps[i]), registered, next, {})
    ensures Texts(Freed(m, ps[i]), Cut(ps, i)) == Cut(Texts(m, ps), i)
  {
    var qs := Cut(ps, i);
    CutDistinct(ps, i);
    CutTexts(ps, m, i);
    TextsAfterFree(m, qs, ps[i]);
    CutAt(ps, i);
    hide Cut;
    LeakAfterFree(m, ps, qs, ps[i], {}, {}, next);
  }

  lemma {:induction false} ClearStep(ps: seq<Ptr>, m: Memory, registered: seq<Ptr>, next: nat, e: nat)
    requires e < |ps| && Sound(ps[e..], m, registered, next, {})
    ensures Live(m, ps[e]) && Tracked([ps[e]], registered) && OnlyArena(registered)
    ensures Sound(ps[e + 1..], Freed(m, ps[e]), registered, next, {})
  {
    var left := ps[e..];
    RemoveSound(left, m, registered, next, 0);
    assert left[0] == ps[e] && Cut(left, 0) == ps[e + 1..];
  }

  lemma {:induction false} NothingListed(m: Memory, registered: seq<Ptr>, next: nat)
    requires Sound([], m, registered, next, {})
    ensures m.heap == map[]
  {
    assert forall id :: id in m.heap ==> Block(id) in [];
  }

  function Own(p: Ptr): set<nat> { match p case Arena(_) => {} case Block(id) => {id} }

  lemma {:induction false} ReplaceSound(ps: seq<Ptr>, m: Memory, registered: seq<Ptr>, next: nat, i: nat, p: Ptr)
    requires Sound(ps, m, registered, next, Own(p)) && i < |ps| && (p.Block? ==> p !in ps)
    requires Live(m, p) && WellNamed(Text(m, p)) && (p.Arena? ==> p in registered)
    ensures var qs := ps[i := p];
            Sound(qs, Freed(m, ps[i]), registered, next, {})
            && Texts(Freed(m, ps[i]), qs) == Texts(m, ps)[i := Text(m, p)]
  {
    var qs := ps[i := p];
    assert Texts(m, qs) == Texts(m, ps)[i := Text(m, p)];
    TextsAfterFree(m, qs, ps[i]);
    forall k | 0 <= k < |ps| ensures ps[k] == ps[i] || ps[k] in qs {
      if k != i { assert qs[k] == ps[k]; }
    }
    assert qs[i] == p;
    LeakAfterFree(m, ps, qs, ps[i], Own(p), {}, next);
  }

  lemma {:induction false} AppendSound(ps: seq<Ptr>, m: Memory, registered: seq<Ptr>, next: nat, p: Ptr)
    requires Sound(ps, m, registered, next, Own(p)) && (p.Block? ==> p !in ps)
    requires Live(m, p) && WellNamed(Text(m, p)) && (p.Arena? ==> p in registered)
    ensures Sound(ps + [p], m, registered, next, {}) && Texts(m, ps + [p]) == Texts(m, ps) + [Text(m, p)]
  {
    assert Texts(m, ps + [p]) == Texts(m, ps) + [Text(m, p)];
    forall k | 0 <= k < |ps| ensures ps[k] in ps + [p] { assert (ps + [p])[k] == ps[k]; }
    assert (ps + [p])[|ps|] == p;
  }

  lemma {:induction false} DropSound(ps: seq<Ptr>, m: Memory, registered: seq<Ptr>, next: nat, p: Ptr)
    requires Sound(ps, m, registered, next, Own(p)) && (p.Block? ==> p !in ps)
    ensures Sound(ps, Freed(m, p), registered, next, {}) && Texts(Freed(m, p), ps) == Texts(m, ps)
  {
    TextsAfterFree(m, ps, p);
    LeakAfterFree(m, ps, ps, p, Own(p), {}, next);
  }
}
