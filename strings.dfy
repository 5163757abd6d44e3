/**
 * The `java.lang.String` operations the class stripper relies on, over
 * `string` (a `seq<char>`).
 */
module Strings {

  /** Java's `s.startsWith(prefix)`. */
  predicate StartsWith(s: string, prefix: string) {
    |prefix| <= |s| && s[..|prefix|] == prefix
  }

  /** Java's `s.endsWith(suffix)`. */
  predicate EndsWith(s: string, suffix: string) {
    |suffix| <= |s| && s[|s| - |suffix|..] == suffix
  }

  /** `part` occurs in `s` starting at index `k`. */
  predicate OccursAt(s: string, part: string, k: int) {
    0 <= k && k + |part| <= |s| && s[k..k + |part|] == part
  }

  /**
   * Java's `s.indexOf(part, from)` for a start index inside the string or
   * at its end: the first occurrence at or after `from`, or -1.
   */
  function IndexOfFrom(s: string, part: string, from: nat): (r: int)
    requires from <= |s|
    ensures r == -1 || (from <= r && OccursAt(s, part, r))
    ensures forall k :: from <= k && (r == -1 || k < r) ==> !OccursAt(s, part, k)
    decreases |s| - from
  {
    if from + |part| > |s| then -1
    else if s[from..from + |part|] == part then from
    else IndexOfFrom(s, part, from + 1)
  }

  /** Java's `s.contains(part)`, which the JDK implements as `indexOf(part) >= 0`. */
  predicate Contains(s: string, part: string) {
    IndexOfFrom(s, part, 0) != -1
  }

  /** Java's `s.indexOf(c, from)` for a single character. */
  function IndexOfChar(s: string, c: char, from: nat): (r: int)
    requires from <= |s|
    ensures r == -1 || (from <= r < |s| && s[r] == c)
    ensures forall k :: from <= k < |s| && (r == -1 || k < r) ==> s[k] != c
    decreases |s| - from
  {
    if from == |s| then -1
    else if s[from] == c then from
    else IndexOfChar(s, c, from + 1)
  }

  /** The first `c` at or after `from` is at `k`. */
  lemma IndexOfCharIs(s: string, c: char, from: nat, k: nat)
    requires from <= k < |s| && s[k] == c
    requires forall j :: from <= j < k ==> s[j] != c
    ensures IndexOfChar(s, c, from) == k
  {
  }

  /** No `c` at or after `from`. */
  lemma IndexOfCharAbsent(s: string, c: char, from: nat)
    requires from <= |s|
    requires forall j :: from <= j < |s| ==> s[j] != c
    ensures IndexOfChar(s, c, from) == -1
  {
  }

  /** Glues `parts` back together with `sep` between neighbours. */
  function Join(parts: seq<string>, sep: char): string
    requires |parts| >= 1
  {
    if |parts| == 1 then parts[0] else parts[0] + [sep] + Join(parts[1..], sep)
  }

  /**
   * Splits `s` at every `sep`. Java's `String.split` additionally drops
   * trailing empty parts; when `s` does not end in `sep` there are none, and
   * that is the only way the pattern matchers call it.
   */
  function Split(s: string, sep: char): (parts: seq<string>)
    ensures |parts| >= 1
    ensures forall i :: 0 <= i < |parts| ==> sep !in parts[i]
    ensures Join(parts, sep) == s
    ensures |s| > 0 && s[|s| - 1] != sep ==> parts[|parts| - 1] != ""
    decreases |s|
  {
    if |s| == 0 then [""]
    else
      var rest := Split(s[1..], sep);
      if s[0] == sep then
        assert ([""] + rest)[1..] == rest;
        assert s == [sep] + s[1..];
        [""] + rest
      else
        var parts := [[s[0]] + rest[0]] + rest[1..];
        assert |rest| > 1 ==> parts[1..] == rest[1..];
        assert s == [s[0]] + s[1..];
        parts
  }
}
