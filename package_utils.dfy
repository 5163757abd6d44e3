/**
 * `life.savag3.lazy.PackageUtils`: the exempt/excluded checks of the entry
 * dispatch loop, over a list of package patterns.
 */
module PackageUtils {
  import opened Strings
  import opened Configuration

  /**
   * When `matchPatterns` returns true for one pattern: on equality, or when
   * a pattern ending in `*` is a prefix of the input once the `*` is
   * dropped. A pattern with an interior `*` only reaches a split search
   * whose outcome is thrown away.
   */
  predicate PatternMatches(pattern: string, package0: string) {
    pattern == package0 ||
    ('*' in pattern && EndsWith(pattern, "*") && StartsWith(package0, pattern[..|pattern| - 1]))
  }

  /** Some pattern of the list matches. */
  predicate AnyPatternMatches(patterns: seq<string>, package0: string) {
    exists i :: 0 <= i < |patterns| && PatternMatches(patterns[i], package0)
  }

  /**
   * The split search: each part is looked for from the end of the previous
   * part's match, so the parts must occur in order and without overlap.
   */
  predicate FoundInOrder(parts: seq<string>, s: string, cursor: nat)
    requires cursor <= |s|
    decreases |parts|
  {
    parts == [] ||
    (var idx := IndexOfFrom(s, parts[0], cursor);
     idx != -1 && FoundInOrder(parts[1..], s, idx + |parts[0]|))
  }

  // The glob reading that the comments of Config.java describe
  // (`package0/*/package2` matches anything rooted at `package0` with a
  // sub-package `package2`): an interior `*` stands for any text between
  // the literal parts.
  predicate IntendedMatch(pattern: string, package0: string) {
    pattern == package0 ||
    ('*' in pattern &&
     if EndsWith(pattern, "*") then StartsWith(package0, pattern[..|pattern| - 1])
     else FoundInOrder(Split(pattern, '*'), package0, 0))
  }

  /** The inner loop of `matchPatterns` over the `*`-separated parts, with its cursor `currentIdx`. */
  method SearchParts(parts: seq<string>, package0: string) returns (found: bool, currentIdx: nat)
    ensures found == FoundInOrder(parts, package0, 0)
    ensures currentIdx <= |package0|
  {
    currentIdx := 0;
    var k := 0;
    while k < |parts|
      invariant k <= |parts|
      invariant currentIdx <= |package0|
      invariant FoundInOrder(parts, package0, 0) == FoundInOrder(parts[k..], package0, currentIdx)
    {
      var idx := IndexOfFrom(package0, parts[k], currentIdx);
      assert parts[k..][0] == parts[k] && parts[k..][1..] == parts[k + 1..];
      if idx == -1 {
        return false, currentIdx;
      }
      // The next search starts where this match ends, never before the previous cursor.
      assert currentIdx <= idx + |parts[k]| <= |package0|;
      currentIdx := idx + |parts[k]|;
      k := k + 1;
    }
    found := true;
  }

  /** `matchPatterns`: the labelled loop over the patterns with its early returns. */
  method MatchPatterns(targets: seq<string>, package0: string) returns (r: bool)
    ensures r == AnyPatternMatches(targets, package0)
  {
    var i := 0;
    while i < |targets|
      invariant i <= |targets|
      invariant forall j :: 0 <= j < i ==> !PatternMatches(targets[j], package0)
    {
      var excluded := targets[i];
      if excluded == package0 {
        return true;
      }
      if '*' in excluded {
        if EndsWith(excluded, "*") {
          if StartsWith(package0, excluded[..|excluded| - 1]) {
            return true;
          }
        } else {
          var parts := Split(excluded, '*');
          // Whether every part is found decides only between `continue top`
          // and falling out of the inner loop: both go on to the next pattern.
          var _, _ := SearchParts(parts, package0);
        }
      }
      i := i + 1;
    }
    return false;
  }

  /** `isExempt`: the exempt patterns of the configuration. */
  method IsExempt(cfg: Config, package0: string) returns (r: bool)
    ensures r == AnyPatternMatches(cfg.exempt, package0)
    ensures |cfg.exempt| == 0 ==> !r
  {
    if |cfg.exempt| == 0 {
      return false;
    }
    r := MatchPatterns(cfg.exempt, package0);
  }

  /** `isExcluded`: the excluded patterns of the configuration. */
  method IsExcluded(cfg: Config, package0: string) returns (r: bool)
    ensures r == AnyPatternMatches(cfg.exclude, package0)
    ensures |cfg.exclude| == 0 ==> !r
  {
    if |cfg.exclude| == 0 {
      return false;
    }
    r := MatchPatterns(cfg.exclude, package0);
  }

  lemma EqualPatternMatches(pattern: string, package0: string)
    requires pattern == package0
    ensures PatternMatches(pattern, package0)
  {
  }

  lemma NoStarMatchesOnlyEqual(pattern: string, package0: string)
    requires '*' !in pattern
    ensures PatternMatches(pattern, package0) <==> pattern == package0
  {
  }

  lemma TrailingStarIsPrefix(pattern: string, package0: string)
    requires EndsWith(pattern, "*")
    ensures PatternMatches(pattern, package0) <==>
            pattern == package0 || StartsWith(package0, pattern[..|pattern| - 1])
  {
    assert pattern[|pattern| - 1] == '*';
  }

  /** An interior `*` without a trailing one matches by equality only. */
  lemma InteriorStarOnlyEquality(pattern: string, package0: string)
    requires '*' in pattern && !EndsWith(pattern, "*")
    ensures PatternMatches(pattern, package0) <==> pattern == package0
  {
  }

  /** Whatever the patterns match, the documented glob reading matches too. */
  lemma MatchesAreIntended(pattern: string, package0: string)
    ensures PatternMatches(pattern, package0) ==> IntendedMatch(pattern, package0)
  {
  }

  // `a/*/c` against `a/x/c`: every part is found in order, which the
  // comments of Config.java call a match, yet `matchPatterns` rejects it.
  lemma InteriorStarRejected()
    ensures IntendedMatch("a/*/c", "a/x/c")
    ensures !PatternMatches("a/*/c", "a/x/c")
  {
    SplitInteriorExample();
    FoundInteriorExample();
  }

  lemma SplitInteriorExample()
    ensures Split("a/*/c", '*') == ["a/", "/c"]
  {
    assert "a/*/c"[1..] == "/*/c" && "/*/c"[1..] == "*/c" && "*/c"[1..] == "/c" && "/c"[1..] == "c";
    assert "c"[1..] == "";
    assert Split("", '*') == [""];
    assert Split("c", '*') == ["c"];
    assert Split("/c", '*') == ["/c"];
    assert Split("*/c", '*') == ["", "/c"];
    assert "/*/c"[0] == '/' && "a/*/c"[0] == 'a';
    assert ["", "/c"][0] == "" && ["", "/c"][1..] == ["/c"];
    assert ['/'] + "" == "/";
    assert Split("/*/c", '*') == ["/", "/c"];
    assert ["/", "/c"][0] == "/" && ["/", "/c"][1..] == ["/c"];
    assert ['a'] + "/" == "a/";
  }

  lemma FoundInteriorExample()
    ensures FoundInOrder(["a/", "/c"], "a/x/c", 0)
  {
    var s := "a/x/c";
    assert OccursAt(s, "a/", 0);
    assert IndexOfFrom(s, "a/", 0) == 0;
    assert OccursAt(s, "/c", 3);
    assert s[2..4][0] == 'x';
    assert !OccursAt(s, "/c", 2);
    assert IndexOfFrom(s, "/c", 2) == 3;
    assert FoundInOrder([], s, 5);
    assert FoundInOrder(["/c"], s, 2);
  }

  // A trailing `*` reaches across sub-packages, and `a/*/c` never matches `a/c`.
  lemma PatternExamples()
    ensures PatternMatches("a/b/*", "a/b/c/d")
    ensures !PatternMatches("a/b/*", "a/c")
    ensures !PatternMatches("a/*/c", "a/c")
  {
    assert "a/b/*"[..4] == "a/b/";
    assert "a/b/c/d"[..4] == "a/b/";
  }

  /** The list result does not depend on the order of the patterns. */
  lemma {:induction false} OrderIrrelevant(a: seq<string>, b: seq<string>, package0: string)
    requires multiset(a) == multiset(b)
    ensures AnyPatternMatches(a, package0) == AnyPatternMatches(b, package0)
  {
    if AnyPatternMatches(a, package0) {
      var i :| 0 <= i < |a| && PatternMatches(a[i], package0);
      assert a[i] in multiset(b);
      var j :| 0 <= j < |b| && b[j] == a[i];
    }
    if AnyPatternMatches(b, package0) {
      var j :| 0 <= j < |b| && PatternMatches(b[j], package0);
      assert b[j] in multiset(a);
      var i :| 0 <= i < |a| && a[i] == b[j];
    }
  }
}
