// crt/delayload2.c and src/internal/pe.c: finding modules and exports.

/** Mapped images and what direct lookup finds in them. */
module PeImages {
  import opened Utf16

  /** A nonzero address. */
  type Base = b: int | 0 < b witness 1

  /** One entry of the loader's list. */
  datatype Mapped = Mapped(name: seq<Wchar>, base: Base)

  datatype Export = Export(name: string, ordinal: nat)

  /** A mapped PE image; `directory` is whether it has an export directory at all. */
  datatype Pe = Pe(size: nat, directory: bool, exports: seq<Export>, functions: seq<nat>)

  /** The capital of a small ASCII letter; any other unit itself. */
  function Fold(c: Wchar): (u: Wchar)
    ensures !(0x61 <= u <= 0x7a) && (u == c || (0x41 <= u <= 0x5a && u + 0x20 == c))
  {
    if 0x61 <= c <= 0x7a then c - 0x20 else c
  }

  ghost predicate SameName(a: seq<Wchar>, b: seq<Wchar>) {
    |a| == |b| && forall i :: 0 <= i < |a| ==> Fold(a[i]) == Fold(b[i])
  }

  /** The index of the first entry with that name, or the list's length. */
  ghost function FirstMapped(mapped: seq<Mapped>, name: seq<Wchar>): (i: nat)
    ensures i <= |mapped| && (i < |mapped| ==> SameName(name, mapped[i].name))
    ensures forall k :: 0 <= k < i ==> !SameName(name, mapped[k].name)
  {
    if mapped == [] || SameName(name, mapped[0].name) then 0 else 1 + FirstMapped(mapped[1..], name)
  }

  ghost function FirstExport(exports: seq<Export>, name: string): (i: nat)
    ensures i <= |exports| && (i < |exports| ==> exports[i].name == name)
    ensures forall k :: 0 <= k < i ==> exports[k].name != name
  {
    if exports == [] || exports[0].name == name then 0 else 1 + FirstExport(exports[1..], name)
  }

  /** The address direct lookup gives, 0 for none. */
  ghost function Address(images: map<Base, Pe>, base: nat, name: string): nat {
    if base == 0 || base !in images || !images[base].directory then 0
    else
      var pe := images[base];
      var i := FirstExport(pe.exports, name);
      if i == |pe.exports| || pe.exports[i].ordinal >= |pe.functions| then 0
      else base + pe.functions[pe.exports[i].ordinal]
  }

  predicate InRange(images: map<Base, Pe>, base: nat, p: nat) {
    base != 0 && base in images && base <= p < base + images[base].size
  }

  lemma {:induction false} FirstMappedIs(mapped: seq<Mapped>, name: seq<Wchar>, i: nat)
    requires i <= |mapped| && (i < |mapped| ==> SameName(name, mapped[i].name))
    requires forall k :: 0 <= k < i ==> !SameName(name, mapped[k].name)
    ensures FirstMapped(mapped, name) == i
  {
    if 0 < i { FirstMappedIs(mapped[1..], name, i - 1); }
  }

  lemma {:induction false} FirstExportIs(exports: seq<Export>, name: string, i: nat)
    requires i <= |exports| && (i < |exports| ==> exports[i].name == name)
    requires forall k :: 0 <= k < i ==> exports[k].name != name
    ensures FirstExport(exports, name) == i
  {
    if 0 < i { FirstExportIs(exports[1..], name, i - 1); }
  }

  /** An export's address is its image's base and what the functions table has under the ordinal of the first export
      of that name; there is none without such an export, or with an ordinal past the table. */
  lemma {:induction false} AddressIs(images: map<Base, Pe>, base: Base, name: string, i: nat)
    requires base in images && images[base].directory && i < |images[base].exports|
    requires images[base].exports[i].name == name
    requires forall k :: 0 <= k < i ==> images[base].exports[k].name != name
    ensures var pe := images[base];
            var o := pe.exports[i].ordinal;
            Address(images, base, name) == if o < |pe.functions| then base + pe.functions[o] else 0
  {
    FirstExportIs(images[base].exports, name, i);
  }

  /** Later loads do not change what a name already in the list finds. */
  lemma {:induction false} FirstMappedStable(mapped: seq<Mapped>, more: seq<Mapped>, name: seq<Wchar>)
    requires FirstMapped(mapped, name) < |mapped|
    ensures FirstMapped(mapped + more, name) == FirstMapped(mapped, name)
  {
    if !SameName(name, mapped[0].name) {
      FirstMappedStable(mapped[1..], more, name);
      assert (mapped + more)[1..] == mapped[1..] + more;
    }
  }

  method NameEqCi(ascii: seq<Wchar>, w: seq<Wchar>) returns (same: bool)
    ensures same == SameName(ascii, w)
  {
    for i := 0 to |w|
      invariant i <= |ascii| && forall k :: 0 <= k < i ==> Fold(ascii[k]) == Fold(w[k])
    {
      if i == |ascii| || Fold(ascii[i]) != Fold(w[i]) { return false; }
    }
    return |ascii| == |w|;
  }

  method FindMappedModule(mapped: seq<Mapped>, name: seq<Wchar>) returns (dll: nat)
    ensures var i := FirstMapped(mapped, name); dll == if i < |mapped| then mapped[i].base else 0
  {
    for i := 0 to |mapped|
      invariant forall k :: 0 <= k < i ==> !SameName(name, mapped[k].name)
    {
      var same := NameEqCi(name, mapped[i].name);
      if same {
        FirstMappedIs(mapped, name, i);
        return mapped[i].base;
      }
    }
    FirstMappedIs(mapped, name, |mapped|);
    return 0;
  }

  method FindExport(images: map<Base, Pe>, base: Base, name: string) returns (proc: nat)
    ensures proc == Address(images, base, name)
  {
    if base !in images || !images[base].directory { return 0; }
    var pe := images[base];
    for i := 0 to |pe.exports|
      invariant forall k :: 0 <= k < i ==> pe.exports[k].name != name
    {
      if pe.exports[i].name == name {
        FirstExportIs(pe.exports, name, i);
        if pe.exports[i].ordinal >= |pe.functions| { return 0; }
        return base + pe.functions[pe.exports[i].ordinal];
      }
    }
    FirstExportIs(pe.exports, name, |pe.exports|);
    return 0;
  }
}
