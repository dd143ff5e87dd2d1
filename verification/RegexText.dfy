// fuzz/fuzz_regex.c and src/regex/regex.c: patterns.

/** Patterns, and how far the pieces both sides skip over extend. */
module RegexText {
  /** A C string: the characters before its NUL. */
  function At(p: string, i: nat): char { if i < |p| then p[i] else '\0' }

  /** The index of the next `kind` that a ']' follows, or the end. */
  function FindClose(p: string, i: nat, kind: char): (q: nat)
    requires i <= |p|
    ensures i <= q <= |p| && (q < |p| ==> q + 2 <= |p|)
    decreases |p| - i
  {
    if i == |p| || (p[i] == kind && At(p, i + 1) == ']') then i else FindClose(p, i + 1, kind)
  }

  predicate Opens(p: string, i: nat) {
    At(p, i) == '[' && (At(p, i + 1) == ':' || At(p, i + 1) == '.' || At(p, i + 1) == '=')
  }
}
