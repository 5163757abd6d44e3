/**
 * `life.savag3.lazy.utils.PackageUtils`: the blacklist check of the
 * cleaner's explorer. Unlike the exempt/excluded matcher it ignores
 * patterns without `*`, and for an interior `*` it only asks that each part
 * occur somewhere in the package, in any order.
 */
module BlacklistUtils {
  import opened Strings
  import PackageUtils

  /** When `isBlacklistedPackage` accepts one pattern. */
  predicate BlacklistPatternMatches(pattern: string, package0: string) {
    '*' in pattern &&
    if EndsWith(pattern, "*") then StartsWith(package0, pattern[..|pattern| - 1])
    else forall part :: part in Split(pattern, '*') ==> Contains(package0, part)
  }

  /** Some pattern of the list is accepted. */
  predicate AnyBlacklisted(patterns: seq<string>, package0: string) {
    exists i :: 0 <= i < |patterns| && BlacklistPatternMatches(patterns[i], package0)
  }

  /** `isBlacklistedPackage`, over the configured blacklist. */
  method IsBlacklistedPackage(patterns: seq<string>, package0: string) returns (r: bool)
    ensures r == AnyBlacklisted(patterns, package0)
  {
    var i := 0;
    while i < |patterns|
      invariant i <= |patterns|
      invariant forall j :: 0 <= j < i ==> !BlacklistPatternMatches(patterns[j], package0)
    {
      var blackPack := patterns[i];
      if '*' in blackPack {
        if EndsWith(blackPack, "*") {
          if StartsWith(package0, blackPack[..|blackPack| - 1]) {
            return true;
          }
        } else {
          var parts := Split(blackPack, '*');
          var all := true;
          var k := 0;
          while k < |parts|
            invariant k <= |parts|
            invariant all
            invariant forall j :: 0 <= j < k ==> Contains(package0, parts[j])
          {
            all := Contains(package0, parts[k]);
            if !all {
              break;
            }
            k := k + 1;
          }
          if all {
            return true;
          }
        }
      }
      i := i + 1;
    }
    return false;
  }

  lemma NoStarNeverMatches(pattern: string, package0: string)
    requires '*' !in pattern
    ensures !BlacklistPatternMatches(pattern, package0)
  {
  }

  /** The lone `*` blacklists every package. */
  lemma StarMatchesEverything(package0: string)
    ensures BlacklistPatternMatches("*", package0)
  {
    assert "*"[..0] == "";
    assert package0[..0] == "";
  }

  /** Parts found in order are each found somewhere: the blacklist check accepts whatever the ordered search does. */
  lemma {:induction false} InOrderImpliesContained(parts: seq<string>, s: string, cursor: nat)
    requires cursor <= |s|
    requires PackageUtils.FoundInOrder(parts, s, cursor)
    ensures forall part :: part in parts ==> Contains(s, part)
    decreases |parts|
  {
    if parts != [] {
      var idx := IndexOfFrom(s, parts[0], cursor);
      assert OccursAt(s, parts[0], idx);
      assert Contains(s, parts[0]);
      InOrderImpliesContained(parts[1..], s, idx + |parts[0]|);
      assert forall part :: part in parts ==> part == parts[0] || part in parts[1..];
    }
  }

  /** An interior-`*` pattern that the ordered glob reading accepts is accepted here as well. */
  lemma IntendedInteriorMatchIsBlacklisted(pattern: string, package0: string)
    requires '*' in pattern && !EndsWith(pattern, "*")
    requires PackageUtils.IntendedMatch(pattern, package0) && pattern != package0
    ensures BlacklistPatternMatches(pattern, package0)
  {
    InOrderImpliesContained(Split(pattern, '*'), package0, 0);
  }

  // `b*a` against `a/b`: both parts occur, but in the wrong order. The
  // blacklist check accepts it; the ordered search of the exempt/excluded
  // matcher would not.
  lemma OutOfOrderAccepted()
    ensures BlacklistPatternMatches("b*a", "a/b")
    ensures !PackageUtils.IntendedMatch("b*a", "a/b")
  {
    SplitOutOfOrderExample();
    var parts := Split("b*a", '*');
    var s := "a/b";
    assert OccursAt(s, "b", 2) && OccursAt(s, "a", 0);
    assert Contains(s, "b") && Contains(s, "a");
    assert forall part :: part in parts ==> part == "b" || part == "a";
    NotFoundOutOfOrderExample();
  }

  lemma SplitOutOfOrderExample()
    ensures Split("b*a", '*') == ["b", "a"]
  {
    assert "b*a"[1..] == "*a" && "*a"[1..] == "a" && "a"[1..] == "";
    assert "b*a"[0] == 'b' && "*a"[0] == '*';
    assert Split("", '*') == [""];
    assert Split("a", '*') == ["a"];
    assert Split("*a", '*') == ["", "a"];
    assert ["", "a"][0] == "" && ["", "a"][1..] == ["a"];
    assert ['b'] + "" == "b";
  }

  lemma NotFoundOutOfOrderExample()
    ensures !PackageUtils.FoundInOrder(["b", "a"], "a/b", 0)
  {
    var s := "a/b";
    assert s[0..1][0] == 'a' && s[1..2][0] == '/';
    assert !OccursAt(s, "b", 0) && !OccursAt(s, "b", 1) && OccursAt(s, "b", 2);
    assert IndexOfFrom(s, "b", 0) == 2;
    assert !OccursAt(s, "a", 3);
    assert IndexOfFrom(s, "a", 3) == -1;
    assert !PackageUtils.FoundInOrder(["a"], s, 3);
    assert ["b", "a"][1..] == ["a"];
  }
}
