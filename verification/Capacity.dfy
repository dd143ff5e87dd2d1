// src/internal/libc.h: growing an array.

/** src/internal/libc.h: choosing a grown array capacity without letting any size wrap. */
module Capacity {
  /** The request is representable: neither the element count nor its byte size wraps. */
  predicate Representable(current: nat, used: nat, additional: nat, initial: nat, element: nat, sizeMax: nat) {
    0 < initial && 0 < element && used + additional <= sizeMax
    && used + additional <= sizeMax / element && current <= sizeMax / element
  }

  method NextCapacity(current: nat, used: nat, additional: nat, initial: nat, element: nat, sizeMax: nat)
    returns (ok: bool, capacity: nat)
    ensures ok <==> Representable(current, used, additional, initial, element, sizeMax)
    ensures ok ==> used + additional <= capacity <= sizeMax / element
    // it shrinks only where the initial capacity itself is too large
    ensures ok && (initial <= current || initial <= sizeMax / element) ==> current <= capacity
    // growth is geometric while there is room for it
    ensures ok && initial <= current < used + additional && current <= sizeMax / element / 2
            ==> 2 * current <= capacity
  {
    ok, capacity := false, 0;
    if initial == 0 || element == 0 || used + additional > sizeMax { return; }
    var minimum, maximum := used + additional, sizeMax / element;
    if minimum > maximum || current > maximum { return; }
    capacity := if current < initial then initial else current;
    if capacity > maximum { capacity := minimum; }
    while capacity < minimum
      invariant 0 < capacity <= maximum || capacity == minimum
      invariant capacity <= maximum && (initial <= current || initial <= maximum ==> current <= capacity)
      invariant initial <= current < minimum && current <= maximum / 2
                ==> capacity == current || 2 * current <= capacity
      decreases minimum - capacity
    {
      if capacity > maximum / 2 { capacity := minimum; break; }
      capacity := capacity * 2;
    }
    ok := true;
  }
}
