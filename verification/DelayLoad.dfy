// crt/delayload2.c: lazy binding of imports through the loader's module list.

/** The delay-load helper over any number of descriptors. */
module DelayLoad {
  import opened Utf16
  import opened PeImages

  /** What the linker wrote for one DLL: its name, its imports and the thunk each slot starts with. */
  datatype Descriptor = Descriptor(dllName: seq<Wchar>, names: seq<string>, thunks: seq<nat>)

  /** A descriptor's mutable part; handle 0 is unset.  `lookups` counts export lookups per slot. */
  datatype Binding = Binding(handle: nat, iat: seq<nat>, lookups: seq<nat>)

  /** What the search for one unmapped DLL does: the ntdll imports it calls, the base it loads (0
      when it fails) and what the loader lists as a result. */
  datatype Loading = Loading(calls: seq<nat>, base: nat, modules: seq<Mapped>)

  /** A call through slot k of descriptor d. */
  datatype Call = Call(d: nat, k: nat, load: Loading)

  /** Slot k of a bound descriptor holds its thunk or the export. */
  ghost predicate SlotGood(images: map<Base, Pe>, d: Descriptor, b: Binding, k: nat)
    requires k < |d.names| == |d.thunks| == |b.iat| == |b.lookups|
  {
    if b.handle == 0 then b.iat[k] == d.thunks[k] && b.lookups[k] == 0
    else
      var proc := Address(images, b.handle, d.names[k]);
      && !InRange(images, b.handle, d.thunks[k])
      && (b.iat[k] == d.thunks[k] || (b.iat[k] == proc && proc != 0))
      && (InRange(images, b.handle, proc) ==> b.lookups[k] == if b.iat[k] == proc then 1 else 0)
  }

  ghost predicate BindingGood(images: map<Base, Pe>, d: Descriptor, b: Binding) {
    && |d.names| == |d.thunks| == |b.iat| == |b.lookups|
    && forall k :: 0 <= k < |d.names| ==> SlotGood(images, d, b, k)
  }

  ghost predicate Outside(images: map<Base, Pe>, d: Descriptor, base: nat) {
    forall k :: 0 <= k < |d.thunks| ==> !InRange(images, base, d.thunks[k])
  }

  /** The module handle is written. */
  lemma {:induction false} BindGood(images: map<Base, Pe>, d: Descriptor, b: Binding, base: Base)
    requires BindingGood(images, d, b) && b.handle == 0 && Outside(images, d, base)
    ensures BindingGood(images, d, b.(handle := base))
  {
    var b' := b.(handle := base);
    forall k | 0 <= k < |d.names| ensures SlotGood(images, d, b', k) {
      assert SlotGood(images, d, b, k);
    }
  }

  /** A slot is written, after one more lookup. */
  lemma {:induction false} ResolveGood(images: map<Base, Pe>, d: Descriptor, b: Binding, k: nat,
                                       proc: nat, iat: seq<nat>, lookups: seq<nat>)
    requires BindingGood(images, d, b) && b.handle != 0 && k < |d.names| && !InRange(images, b.handle, b.iat[k])
    requires proc == Address(images, b.handle, d.names[k])
    requires iat == (if proc == 0 then b.iat else b.iat[k := proc]) && lookups == b.lookups[k := b.lookups[k] + 1]
    ensures BindingGood(images, d, Binding(b.handle, iat, lookups))
  {
    hide Address;
    forall j | 0 <= j < |d.names| ensures SlotGood(images, d, Binding(b.handle, iat, lookups), j) {
      assert SlotGood(images, d, b, j);
    }
  }

  class Image {
    const images: map<Base, Pe>
    const descr: seq<Descriptor>
    const ntdll: nat
    var mapped: seq<Mapped>
    var dlls: seq<Binding>

    ghost predicate Valid()
      reads this
    {
      && |descr| == |dlls| && ntdll < |descr|
      && (forall d :: 0 <= d < |descr| ==> BindingGood(images, descr[d], dlls[d]))
      && FirstMapped(mapped, descr[ntdll].dllName) < |mapped|
      && (dlls[ntdll].handle == 0 ==>
            Outside(images, descr[ntdll], mapped[FirstMapped(mapped, descr[ntdll].dllName)].base))
    }

    /** A fresh process: nothing bound, every slot its thunk, ntdll already mapped. */
    constructor (images: map<Base, Pe>, descr: seq<Descriptor>, ntdll: nat, mapped: seq<Mapped>)
      requires ntdll < |descr| && FirstMapped(mapped, descr[ntdll].dllName) < |mapped|
      requires forall d :: 0 <= d < |descr| ==> |descr[d].names| == |descr[d].thunks|
      requires Outside(images, descr[ntdll], mapped[FirstMapped(mapped, descr[ntdll].dllName)].base)
      ensures Valid() && this.images == images && this.descr == descr && this.ntdll == ntdll && this.mapped == mapped
    {
      this.images, this.descr, this.ntdll, this.mapped := images, descr, ntdll, mapped;
      dlls := seq(|descr|, d requires 0 <= d < |descr| => Binding(0, descr[d].thunks, seq(|descr[d].thunks|, _ => 0)));
    }

    /** Descriptor d needs no search: it is bound, or its DLL is in the loader's list. */
    ghost predicate AtHand(d: nat)
      reads this
      requires d < |descr| == |dlls|
    {
      dlls[d].handle != 0 || FirstMapped(mapped, descr[d].dllName) < |mapped|
    }

    /** The base a call through descriptor d ends up with: the handle, the first entry of that name
        in the loader's list, or what the search loads; 0 for none. */
    ghost function Owner(d: nat, load: Loading): nat
      reads this
      requires d < |descr| == |dlls|
    {
      var i := FirstMapped(mapped, descr[d].dllName);
      if dlls[d].handle != 0 then dlls[d].handle
      else if i < |mapped| then mapped[i].base
      else load.base
    }

    /** __delayLoadHelper2 on slot k of descriptor d.  `proc` 0 is the fatal exit; `depth` counts the
        helper activations on the stack at the deepest point. */
    method Help(d: nat, k: nat, load: Loading) returns (proc: nat, depth: nat)
      requires Valid() && d < |descr| && k < |descr[d].names|
      requires dlls[d].handle == 0 ==> Outside(images, descr[d], Owner(d, load))
      requires forall j :: 0 <= j < |load.calls| ==> load.calls[j] < |descr[ntdll].names|
      modifies this`mapped, this`dlls
      ensures Valid()
      ensures proc != 0 ==> dlls[d].handle == old(Owner(d, load))
      ensures proc != 0 ==> proc == Address(images, dlls[d].handle, descr[d].names[k])
      ensures proc != 0 ==> dlls[d].iat == old(dlls[d].iat)[k := proc]
      ensures forall e :: 0 <= e < |dlls| && old(dlls[e].handle) != 0 ==> dlls[e].handle == old(dlls[e].handle)
      ensures forall e :: 0 <= e < |dlls| && e != d && e != ntdll ==> dlls[e] == old(dlls[e])
      ensures InRange(images, old(dlls[d].handle), old(dlls[d].iat[k])) ==>
              dlls == old(dlls) && proc == old(dlls[d].iat[k])
      ensures old(AtHand(d)) ==> depth == 1 && mapped == old(mapped)
      ensures old(AtHand(d)) ==>
              (proc == 0 <==> Address(images, old(Owner(d, load)), descr[d].names[k]) == 0)
      ensures old(AtHand(d)) ==> forall e :: 0 <= e < |dlls| && e != d ==> dlls[e] == old(dlls[e])
      ensures 1 <= depth <= 2 && (mapped == old(mapped) || mapped == old(mapped) + load.modules)
      decreases if AtHand(d) then 0 else 1, 1
    {
      depth := 1;
      assert BindingGood(images, descr[d], dlls[d]);
      assert SlotGood(images, descr[d], dlls[d], k);
      if InRange(images, dlls[d].handle, dlls[d].iat[k]) { return dlls[d].iat[k], 1; }
      if dlls[d].handle == 0 {
        var dll := FindMappedModule(mapped, descr[d].dllName);
        if dll == 0 {
          dll, depth := Search(load);
        }
        if dll == 0 { return 0, depth; }
        BindGood(images, descr[d], dlls[d], dll);
        dlls := dlls[d := dlls[d].(handle := dll)];
      }
      proc := Resolve(d, k);
    }

    /** The export lookup and the write to the slot. */
    method Resolve(d: nat, k: nat) returns (proc: nat)
      requires Valid() && d < |descr| && k < |descr[d].names| && dlls[d].handle != 0
      requires !InRange(images, dlls[d].handle, dlls[d].iat[k])
      modifies this`dlls
      ensures Valid() && proc == Address(images, dlls[d].handle, descr[d].names[k])
      ensures |dlls| == |old(dlls)| && forall e :: 0 <= e < |dlls| && e != d ==> dlls[e] == old(dlls[e])
      ensures dlls[d].handle == old(dlls[d].handle)
      ensures proc != 0 ==> dlls[d].iat == old(dlls[d].iat)[k := proc]
    {
      var b := dlls[d];
      proc := FindExport(images, b.handle, descr[d].names[k]);
      var iat := if proc == 0 then b.iat else b.iat[k := proc];
      var lookups := b.lookups[k := b.lookups[k] + 1];
      ResolveGood(images, descr[d], b, k, proc, iat, lookups);
      dlls := dlls[d := Binding(b.handle, iat, lookups)];
    }

    /** spicule_rpath_load: calls imports of ntdll, each through its own slot, then maps what it found. */
    method Search(load: Loading) returns (dll: nat, depth: nat)
      requires Valid()
      requires forall j :: 0 <= j < |load.calls| ==> load.calls[j] < |descr[ntdll].names|
      modifies this`mapped, this`dlls
      ensures Valid() && 1 <= depth <= 2 && (dll != 0 ==> dll == load.base)
      ensures mapped == old(mapped) || mapped == old(mapped) + load.modules
      ensures forall e :: 0 <= e < |dlls| && old(dlls[e].handle) != 0 ==> dlls[e].handle == old(dlls[e].handle)
      ensures forall e :: 0 <= e < |dlls| && e != ntdll ==> dlls[e] == old(dlls[e])
      decreases 1, 0
    {
      depth := 1;
      for j := 0 to |load.calls|
        invariant Valid() && 1 <= depth <= 2 && mapped == old(mapped)
        invariant forall e :: 0 <= e < |dlls| && old(dlls[e].handle) != 0 ==> dlls[e].handle == old(dlls[e].handle)
        invariant forall e :: 0 <= e < |dlls| && e != ntdll ==> dlls[e] == old(dlls[e])
      {
        var proc, inner := Help(ntdll, load.calls[j], Loading([], 0, []));
        if proc == 0 { return 0, depth; }
        depth := if 1 + inner > depth then 1 + inner else depth;
      }
      if load.base == 0 { return 0, depth; }
      FirstMappedStable(mapped, load.modules, descr[ntdll].dllName);
      mapped := mapped + load.modules;
      return load.base, depth;
    }

    /** Every listed module that a descriptor names is one of the bases that may own it. */
    ghost predicate Listed(modules: seq<Mapped>, owners: seq<set<nat>>)
      requires |owners| == |descr|
    {
      forall i, d :: 0 <= i < |modules| && 0 <= d < |descr| && SameName(descr[d].dllName, modules[i].name) ==>
        modules[i].base in owners[d]
    }

    ghost predicate CallGood(c: Call, owners: seq<set<nat>>)
      requires |owners| == |descr|
    {
      && c.d < |descr| && c.k < |descr[c.d].names| && ntdll < |descr|
      && (forall j :: 0 <= j < |c.load.calls| ==> c.load.calls[j] < |descr[ntdll].names|)
      && c.load.base in owners[c.d] && Listed(c.load.modules, owners)
    }

    /** Calls through any slots in any order, up to a fatal one: every answer is what direct lookup in
        the DLL finally bound gives. */
    method Run(calls: seq<Call>, ghost owners: seq<set<nat>>) returns (answers: seq<nat>)
      requires Valid() && |owners| == |descr| && Listed(mapped, owners)
      requires forall i :: 0 <= i < |calls| ==> CallGood(calls[i], owners)
      requires forall d, base :: 0 <= d < |descr| && base in owners[d] ==> Outside(images, descr[d], base)
      modifies this`mapped, this`dlls
      ensures Valid() && |answers| <= |calls|
      ensures forall i :: 0 <= i < |answers| ==> Answered(calls[i], dlls, answers[i])
    {
      answers := [];
      for i := 0 to |calls|
        invariant Valid() && |answers| == i && Listed(mapped, owners)
        invariant forall j :: 0 <= j < i ==> Answered(calls[j], dlls, answers[j])
      {
        var c := calls[i];
        ghost var before := dlls;
        assert CallGood(c, owners);
        var proc, _ := Help(c.d, c.k, c.load);
        if proc == 0 { break; }
        hide Address, BindingGood, FirstMapped, Outside;
        forall j | 0 <= j < i ensures Answered(calls[j], dlls, answers[j]) {
          StaysAnswered(calls[j], before, dlls, answers[j]);
        }
        answers := answers + [proc];
      }
    }

    /** The answer is what direct lookup in the bound DLL gives. */
    ghost predicate Answered(c: Call, bindings: seq<Binding>, proc: nat) {
      && c.d < |descr| == |bindings| && c.k < |descr[c.d].names|
      && proc != 0 && proc == Address(images, bindings[c.d].handle, descr[c.d].names[c.k])
    }

    lemma {:induction false} StaysAnswered(c: Call, before: seq<Binding>, after: seq<Binding>, proc: nat)
      requires Answered(c, before, proc) && |after| == |before|
      requires before[c.d].handle != 0 ==> after[c.d].handle == before[c.d].handle
      ensures Answered(c, after, proc)
    {
    }
  }

  /** No slot whose export lies inside its DLL is ever looked up a second time. */
  lemma {:induction false} LookedUpOnce(images: map<Base, Pe>, d: Descriptor, b: Binding, k: nat)
    requires BindingGood(images, d, b) && k < |d.names|
    requires InRange(images, b.handle, Address(images, b.handle, d.names[k]))
    ensures b.lookups[k] <= 1
  {
    assert SlotGood(images, d, b, k);
  }
}
