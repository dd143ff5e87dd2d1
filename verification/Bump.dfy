// The bump allocator of fuzz/linux_pilot_harness_dirent.c.

/** The bump allocator over a fixed arena. */
module Bump {
  import opened Options

  const ARENA: nat := 0x10_0000
  const SIZE_END: nat := 0x1_0000_0000_0000_0000

  /** A block handed out. */
  datatype Block = Block(at: nat, len: nat)

  function Aligned(used: nat): nat { (used + 15) / 16 * 16 }

  function Wanted(n: nat): nat { if n == 0 then 1 else n }

  /** Blocks lie on 16-byte boundaries, one behind the other, below `used`. */
  ghost predicate Laid(blocks: seq<Block>, used: nat) {
    && (forall k :: 0 <= k < |blocks| ==> blocks[k].at % 16 == 0 && 0 < blocks[k].len)
    && (forall k :: 0 <= k < |blocks| ==> blocks[k].at + blocks[k].len <= used)
    && (forall j, k :: 0 <= j < k < |blocks| ==> blocks[j].at + blocks[j].len <= blocks[k].at)
  }

  class Arena {
    var used: nat
    ghost var blocks: seq<Block>

    ghost predicate Valid()
      reads this
    {
      used <= ARENA && Laid(blocks, used)
    }

    constructor ()
      ensures Valid() && blocks == [] && used == 0
    {
      used, blocks := 0, [];
    }

    /** __malloc, its sum taken modulo 2^64.  A request that fits is served by a fresh aligned block behind
        all others; one that does not is refused and changes nothing.  That is so exactly when the sum
        does not wrap: otherwise a block larger than the arena is handed out and `used` goes back. */
    method Malloc(n: nat) returns (p: Option<nat>)
      requires Valid() && n < SIZE_END
      modifies this
      ensures var a, w := Aligned(old(used)), Wanted(n);
              if a + w <= ARENA then p == Some(a) && used == a + w && blocks == old(blocks) + [Block(a, w)]
              else if a + w < SIZE_END then p == None && used == old(used) && blocks == old(blocks)
              else p == Some(a) && used == a + w - SIZE_END && blocks == old(blocks) + [Block(a, w)]
      ensures Valid() <==> Aligned(old(used)) + Wanted(n) < SIZE_END
    {
      // adding 15 and clearing the four low bits
      var a := (used + 15) - (used + 15) % 16;
      var w := if n == 0 then 1 else n;
      var end := (a + w) % SIZE_END;
      assert end == if a + w < SIZE_END then a + w else a + w - SIZE_END;
      if end > ARENA { return None; }
      AlignedBounds(used);
      used := end;
      blocks := blocks + [Block(a, w)];
      assert blocks[|blocks| - 1] == Block(a, w);
      return Some(a);
    }
  }

  lemma {:induction false} AlignedBounds(used: nat)
    ensures used <= Aligned(used) < used + 16 && Aligned(used) % 16 == 0
  {
  }

  /** Whether a request is served, and where the arena then stands; one without room changes nothing. */
  predicate Room(used: nat, n: nat) { Aligned(used) + Wanted(n) <= ARENA }

  function Extended(used: nat, n: nat): nat { if Room(used, n) then Aligned(used) + Wanted(n) else used }

  function Used(requests: seq<nat>): nat {
    if requests == [] then 0 else Extended(Used(requests[..|requests| - 1]), requests[|requests| - 1])
  }

  lemma {:induction false} UsedStep(requests: seq<nat>, i: nat)
    requires i < |requests|
    ensures Used(requests[..i + 1]) == Extended(Used(requests[..i]), requests[i])
  {
    hide Extended;
    assert requests[..i + 1][..i] == requests[..i];
  }

  method MallocFits(arena: Arena, n: nat) returns (p: Option<nat>)
    requires arena.Valid() && n < SIZE_END - ARENA - 16
    modifies arena
    ensures arena.Valid() && arena.used == Extended(old(arena.used), n)
    ensures p.Some? == Room(old(arena.used), n)
    ensures p.Some? ==> arena.blocks == old(arena.blocks) + [Block(p.value, Wanted(n))]
    ensures p.None? ==> arena.blocks == old(arena.blocks)
  {
    AlignedBounds(arena.used);
    p := arena.Malloc(n);
  }

  /** Each served request has its block, and served are exactly those there was room for at their turn. */
  ghost predicate Answered(requests: seq<nat>, answers: seq<Option<nat>>, blocks: seq<Block>) {
    && |answers| <= |requests|
    && (forall k :: 0 <= k < |answers| && answers[k].Some? ==>
          Block(answers[k].value, Wanted(requests[k])) in blocks)
    && (forall k :: 0 <= k < |answers| ==> answers[k].Some? == Room(Used(requests[..k]), requests[k]))
  }

  lemma {:induction false} AnsweredStep(requests: seq<nat>, answers: seq<Option<nat>>, blocks: seq<Block>,
                                        p: Option<nat>, blocks': seq<Block>)
    requires |answers| < |requests| && Answered(requests, answers, blocks)
    requires p.Some? == Room(Used(requests[..|answers|]), requests[|answers|])
    requires blocks' == if p.Some? then blocks + [Block(p.value, Wanted(requests[|answers|]))] else blocks
    ensures Answered(requests, answers + [p], blocks')
  {
    hide Used, Room, Wanted;
    if p.Some? { assert blocks'[|blocks|] == Block(p.value, Wanted(requests[|answers|])); }
    assert forall b :: b in blocks ==> b in blocks';
  }

  /** Requests below 2^64 - 2^20 never wrap, so any sequence of them is served by disjoint aligned blocks
      inside the arena, each of the size asked for; refused are exactly those larger than the room left
      by the ones served before. */
  method ServeAll(requests: seq<nat>) returns (arena: Arena, answers: seq<Option<nat>>)
    requires forall k :: 0 <= k < |requests| ==> requests[k] < SIZE_END - ARENA - 16
    ensures fresh(arena) && arena.Valid() && arena.used == Used(requests)
    ensures |answers| == |requests| && Answered(requests, answers, arena.blocks)
  {
    arena := new Arena();
    answers := [];
    assert Used(requests[..0]) == 0 && Answered(requests, answers, arena.blocks);
    hide *;
    for i := 0 to |requests|
      invariant fresh(arena) && arena.Valid() && arena.used == Used(requests[..i])
      invariant |answers| == i && Answered(requests, answers, arena.blocks)
    {
      ghost var blocks := arena.blocks;
      var p := MallocFits(arena, requests[i]);
      UsedStep(requests, i);
      AnsweredStep(requests, answers, blocks, p, arena.blocks);
      answers := answers + [p];
    }
    assert requests[..|requests|] == requests;
  }
}
