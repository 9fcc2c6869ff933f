/** Searching byte strings. */
module Scanning {
  import opened Prelude

  predicate StartsWith(s: Bytes, prefix: Bytes) {
    |prefix| <= |s| && s[..|prefix|] == prefix
  }

  lemma NotAtStart(s: Bytes, prefix: Bytes, i: nat)
    requires i < |s| && i < |prefix| && s[i] != prefix[i]
    ensures !StartsWith(s, prefix)
  {
    assert |prefix| <= |s| ==> s[..|prefix|][i] == s[i];
  }

  predicate Has(s: Bytes, b: byte) {
    exists i :: 0 <= i < |s| && s[i] == b
  }

  /** The first position of `b`. */
  function Find(s: Bytes, b: byte): (r: Option<nat>)
    ensures r.Some? ==> r.value < |s| && s[r.value] == b && forall i :: 0 <= i < r.value ==> s[i] != b
    ensures r.None? ==> !Has(s, b)
  {
    if s == [] then None
    else if s[0] == b then Some(0)
    else
      var r := Find(s[1..], b);
      if r.None? then None else Some(r.value + 1)
  }

  /** The last position of `b`. */
  function FindLast(s: Bytes, b: byte): (r: Option<nat>)
    ensures r.Some? ==> r.value < |s| && s[r.value] == b && forall i :: r.value < i < |s| ==> s[i] != b
    ensures r.None? ==> !Has(s, b)
  {
    if s == [] then None
    else if s[|s| - 1] == b then Some(|s| - 1)
    else FindLast(s[..|s| - 1], b)
  }

  /** The first position of a pattern, as `windows(n).position(..)` finds it. */
  function FindPattern(s: Bytes, pattern: Bytes): (r: Option<nat>)
    requires pattern != []
    ensures r.Some? ==> r.value + |pattern| <= |s| && StartsWith(s[r.value..], pattern)
                        && forall i :: 0 <= i < r.value ==> !StartsWith(s[i..], pattern)
    ensures r.None? ==> forall i :: 0 <= i < |s| ==> !StartsWith(s[i..], pattern)
  {
    if s == [] then None
    else if StartsWith(s, pattern) then assert s[0..] == s; Some(0)
    else
      var r := FindPattern(s[1..], pattern);
      assert forall i :: 0 < i < |s| ==> s[i..] == s[1..][i - 1..];
      assert s[0..] == s;
      if r.None? then None else Some(r.value + 1)
  }

  /** ASCII lower case, byte by byte. */
  function Lower(s: Bytes): (r: Bytes)
    ensures |r| == |s|
  {
    seq(|s|, i requires 0 <= i < |s| => ToLower(s[i]))
  }

  predicate EqualsIgnoringCase(a: Bytes, b: Bytes) {
    Lower(a) == Lower(b)
  }

  lemma FindIs(s: Bytes, b: byte, at: nat)
    requires at < |s| && s[at] == b && !Has(s[..at], b)
    ensures Find(s, b) == Some(at)
  {
    forall i | 0 <= i < at
      ensures s[i] != b
    {
      assert s[..at][i] == s[i];
    }
  }

  lemma FindLastIs(s: Bytes, b: byte, at: nat)
    requires at < |s| && s[at] == b && !Has(s[at + 1..], b)
    ensures FindLast(s, b) == Some(at)
  {
    forall i | at < i < |s|
      ensures s[i] != b
    {
      assert s[at + 1..][i - at - 1] == s[i];
    }
  }
}
