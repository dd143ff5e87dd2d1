// src/env/getenv.c and src/env/setenv.c: the environment as text.

/** The environment as a list of NAME=VALUE texts. */
module EnvSpec {
  import opened Options

  /** The capital of a small letter; any other character itself. */
  function Upper(c: char): (u: char)
    ensures !('a' <= u <= 'z') && (u == c || ('A' <= u <= 'Z' && u as int + 32 == c as int))
  {
    if 'a' <= c <= 'z' then c - 32 as char else c
  }

  /** The length of the name part: everything before the first '='. */
  function NameLen(s: string): (n: nat)
    ensures n <= |s| && (n < |s| ==> s[n] == '=')
  {
    if s == "" || s[0] == '=' then 0 else 1 + NameLen(s[1..])
  }

  /** `entry` is for `name`, letters compared without case. */
  predicate NameEq(entry: string, name: string) {
    |name| < |entry| && entry[|name|] == '=' && forall i :: 0 <= i < |name| ==> Upper(entry[i]) == Upper(name[i])
  }

  predicate ValidName(name: string) { name != "" && NameLen(name) == |name| }

  /** NAME=VALUE with a name. */
  predicate WellNamed(s: string) { 0 < NameLen(s) < |s| }

  function Find(es: seq<string>, name: string): (i: nat)
    ensures i <= |es| && (i < |es| ==> NameEq(es[i], name))
  {
    if es == [] || NameEq(es[0], name) then 0 else 1 + Find(es[1..], name)
  }

  function Lookup(es: seq<string>, name: string): Option<string> {
    var i := Find(es, name);
    if i < |es| then Some(es[i][|name| + 1..]) else None
  }

  function Without(es: seq<string>, name: string): (r: seq<string>)
    ensures |r| <= |es|
  {
    if es == [] then [] else (if NameEq(es[0], name) then [] else [es[0]]) + Without(es[1..], name)
  }

  /** `s` in place of the first entry for `name`, or behind all entries. */
  function Put(es: seq<string>, s: string, name: string): seq<string> {
    var i := Find(es, name);
    if i < |es| then es[i := s] else es + [s]
  }

  // ---- laws

  lemma {:induction false} FindFirst(es: seq<string>, name: string, k: nat)
    requires k < Find(es, name)
    ensures !NameEq(es[k], name)
  {
    if 0 < k { FindFirst(es[1..], name, k - 1); }
  }

  lemma {:induction false} FindIs(es: seq<string>, name: string, i: nat)
    requires i <= |es| && (forall k :: 0 <= k < i ==> !NameEq(es[k], name)) && (i < |es| ==> NameEq(es[i], name))
    ensures Find(es, name) == i
  {
    if 0 < i { FindIs(es[1..], name, i - 1); }
  }

  lemma {:induction false} WithoutNone(es: seq<string>, name: string)
    ensures forall k :: 0 <= k < |Without(es, name)| ==> !NameEq(Without(es, name)[k], name)
  {
    if es != [] { WithoutNone(es[1..], name); }
  }

  /** Case-insensitive sameness is transitive through a common name. */
  predicate SameName(a: string, b: string) {
    |a| == |b| && forall i :: 0 <= i < |a| ==> Upper(a[i]) == Upper(b[i])
  }

  /** After unsetenv nothing is found under that name, and other names find what they found. */
  lemma {:induction false} UnsetThenGet(es: seq<string>, name: string, other: string)
    ensures Lookup(Without(es, name), name) == None
    ensures !SameName(name, other) && '=' !in name && '=' !in other
            ==> Lookup(Without(es, name), other) == Lookup(es, other)
  {
    WithoutNone(es, name);
    var r := Without(es, name);
    FindIs(r, name, |r|);
    if !SameName(name, other) && '=' !in name && '=' !in other { UnsetOther(es, name, other); }
  }

  lemma {:induction false} Apart(e: string, name: string, other: string)
    requires NameEq(e, name) && !SameName(name, other) && '=' !in name && '=' !in other
    ensures !NameEq(e, other)
  {
    var least := if |name| < |other| then |name| else |other|;
    if |name| != |other| {
      assert e[least] == '=' ==> forall c :: Upper(c) == '=' ==> c == '=';
    }
  }

  lemma {:induction false} LookupCons(es: seq<string>, name: string)
    requires es != []
    ensures Lookup(es, name) == if NameEq(es[0], name) then Some(es[0][|name| + 1..]) else Lookup(es[1..], name)
  {
    assert Find(es, name) == if NameEq(es[0], name) then 0 else 1 + Find(es[1..], name);
  }

  lemma {:induction false} UnsetOther(es: seq<string>, name: string, other: string)
    requires !SameName(name, other) && '=' !in name && '=' !in other
    ensures Lookup(Without(es, name), other) == Lookup(es, other)
  {
    if es != [] {
      UnsetOther(es[1..], name, other);
      LookupCons(es, other);
      if NameEq(es[0], name) {
        Apart(es[0], name, other);
        assert Without(es, name) == Without(es[1..], name);
      } else {
        var r := Without(es, name);
        assert r[1..] == Without(es[1..], name);
        LookupCons(r, other);
      }
    }
  }

  /** After setenv with overwriting, the value is found; other names find what they found. */
  lemma {:induction false} PutThenGet(es: seq<string>, name: string, value: string, other: string)
    requires ValidName(name) && '=' !in name
    ensures Lookup(Put(es, name + "=" + value, name), name) == Some(value)
    ensures !SameName(name, other) && '=' !in other
            ==> Lookup(Put(es, name + "=" + value, name), other) == Lookup(es, other)
  {
    var s, i := name + "=" + value, Find(es, name);
    var r := Put(es, s, name);
    assert NameEq(s, name);
    forall k | 0 <= k < i ensures !NameEq(r[k], name) { FindFirst(es, name, k); }
    FindIs(r, name, i);
    assert s[|name| + 1..] == value;
    if !SameName(name, other) && '=' !in other {
      Apart(s, name, other);
      if i < |es| { Apart(es[i], name, other); }
      PutOther(es, r, i, other);
    }
  }

  /** Two lists that differ at one place, where neither is for `other`. */
  lemma {:induction false} PutOther(es: seq<string>, r: seq<string>, i: nat, other: string)
    requires i <= |es| && (|r| == |es| || (|r| == |es| + 1 && i == |es|)) && i < |r|
    requires forall k :: 0 <= k < |es| && k != i ==> r[k] == es[k]
    requires !NameEq(r[i], other) && (i < |es| ==> !NameEq(es[i], other))
    ensures Lookup(r, other) == Lookup(es, other)
  {
    var j := Find(es, other);
    forall k | 0 <= k < j ensures !NameEq(es[k], other) { FindFirst(es, other, k); }
    FindIs(r, other, if j < |es| then j else |r|);
  }
}
