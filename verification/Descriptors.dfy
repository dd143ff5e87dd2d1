// fuzz/linux_pilot_harness.c, src/unistd/close.c and src/signal/linux/plat_signal.c: the table in place.

/** The table as the library updates it in place, step for step as in Lockstep. */
module Descriptors {
  import opened FdTable
  import opened Lockstep

  class Fds {
    const fds: array<nat>
    var limit: nat

    ghost predicate Valid()
      reads this
    {
      fds.Length == FD_MAX && limit <= FD_MAX
    }

    constructor ()
      ensures Valid() && fresh(fds) && limit == FD_MAX && fds[..] == seq(FD_MAX, _ => 0)
    {
      fds, limit := new nat[FD_MAX](_ => 0), FD_MAX;
    }

    /** __fd_alloc: the lowest free slot not below `lowest`, -1 when there is none under the limit. */
    method Alloc(lowest: int) returns (i: int)
      requires Valid()
      ensures var from := if lowest < 0 then 0 else lowest;
              if from >= limit || FirstFree(fds[..limit], from) == limit then i == -1
              else i == FirstFree(fds[..limit], from)
    {
      var from := if lowest < 0 then 0 else lowest;
      i := from;
      while i < limit
        invariant from <= i && (i <= limit || i == from)
        invariant forall k :: from <= k < i ==> fds[..limit][k] != 0
      {
        if fds[i] == 0 {
          FirstFreeIs(fds[..limit], from, i);
          return;
        }
        i := i + 1;
      }
      if from < limit { FirstFreeIs(fds[..limit], from, limit); }
      return -1;
    }

    /** __fd_install: the handle goes to the lowest free slot. */
    method Install(h: nat) returns (fd: int)
      requires Valid()
      modifies fds
      ensures fd == if FirstFree(old(fds[..limit]), 0) < limit then FirstFree(old(fds[..limit]), 0) else -1
      ensures fds[..] == if fd == -1 then old(fds[..]) else old(fds[..])[fd := h]
    {
      fd := Alloc(0);
      if fd < 0 { return -1; }
      fds[fd] := h;
    }

    /** __fd_get: the slot's handle, 0 for a number that is not an open descriptor. */
    method Get(fd: int) returns (h: nat)
      requires Valid()
      ensures h == if 0 <= fd < FD_MAX then fds[fd] else 0
    {
      if fd < 0 || fd >= FD_MAX || fds[fd] == 0 { return 0; }
      return fds[fd];
    }

    ghost function With(kernel: seq<bool>): State
      reads this, fds
    {
      State(fds[..], kernel, limit)
    }

    /** The kernel opens a descriptor and the library installs it, boxed as open() does or bare as
        __plat_sigevent_create does; a descriptor the table has no slot for is closed again. */
    method Make(kernel: seq<bool>, boxed: bool) returns (fd: int, after: seq<bool>)
      requires Valid()
      modifies fds
      ensures With(after) == Next(old(With(kernel)), if boxed then Opened else Event)
      ensures var s := old(With(kernel)); fd == if Raw(s) == |kernel| || Slot(s) == limit then -1 else Slot(s)
    {
      assert fds[..limit] == fds[..][..limit];
      var raw := LowestClosed(kernel);
      if raw == |kernel| { return -1, kernel; }
      after := kernel[raw := true];
      fd := Install(if boxed then raw + 1 else raw);
      if fd < 0 {
        after := Shut(after, raw);
        assert after == kernel;
      }
    }

    static method LowestClosed(kernel: seq<bool>) returns (raw: nat)
      ensures raw == FirstClosed(kernel, 0)
    {
      raw := 0;
      while raw < |kernel| && kernel[raw]
        invariant raw <= |kernel| && FirstClosed(kernel, 0) == FirstClosed(kernel, raw)
      {
        raw := raw + 1;
      }
    }

    /** close(): the kernel closes the number one below the slot's handle. */
    method Close(fd: int, kernel: seq<bool>) returns (ok: bool, after: seq<bool>)
      requires Valid()
      modifies fds
      ensures With(after) == Next(old(With(kernel)), Step.Close(fd)) &&
              ok == (0 <= fd < FD_MAX && old(fds[..])[fd] != 0)
    {
      var h := Get(fd);
      if h == 0 { return false, kernel; }
      after := Shut(kernel, h - 1);
      fds[fd] := 0;
      ok := true;
    }

    /** __fd_init, as far as it decides which slots are taken. */
    method Init(kernel: seq<bool>)
      requires Valid() && limit == FD_MAX && forall i :: 0 <= i < FD_MAX ==> fds[i] == 0
      modifies fds
      ensures With(kernel) == Initial(kernel)
    {
      for fd := 0 to FD_MAX
        invariant forall i :: 0 <= i < FD_MAX ==> fds[i] == if i < fd && i < |kernel| && kernel[i] then i + 1 else 0
      {
        if fd < |kernel| && kernel[fd] { fds[fd] := fd + 1; }
      }
    }
  }
}
