/**
 * What the two `ClassExplorer` visitors share in `visit`: splitting the
 * internal class name into package and simple name, and the gate that
 * cancels a class by comparing its access flags with `ACC_ABSTRACT`.
 */
module ExplorerRules {
  import opened Strings
  import opened Jvm
  import opened Configuration

  /** `s` without its trailing `/` characters. */
  function TrimTrailingSlashes(s: string): (t: string)
    ensures |t| <= |s| && t == s[..|t|]
    ensures t == [] || t[|t| - 1] != '/'
    ensures forall k :: |t| <= k < |s| ==> s[k] == '/'
  {
    if s == [] || s[|s| - 1] != '/' then s else TrimTrailingSlashes(s[..|s| - 1])
  }

  /** The text after the last `/` of `t`. */
  function LastSegment(t: string): (seg: string)
    ensures |seg| <= |t| && seg == t[|t| - |seg|..]
    ensures '/' !in seg
    ensures |seg| < |t| ==> t[|t| - |seg| - 1] == '/'
  {
    if t == [] || t[|t| - 1] == '/' then []
    else LastSegment(t[..|t| - 1]) + [t[|t| - 1]]
  }

  /** `split("/")` has a last element: the name is empty, or not made of slashes only. */
  predicate Splittable(s: string) {
    s == [] || exists k :: 0 <= k < |s| && s[k] != '/'
  }

  /**
   * `visit`'s `name` (the last element of `s.split("/")`, where trailing
   * empty elements are dropped) and `pack` (what precedes that many
   * characters at the end of `s`).
   */
  function SplitInternalName(s: string): (r: (string, string))
    requires Splittable(s)
    ensures '/' !in r.0
    ensures s != [] ==> r.0 != []
    ensures s == [] || s[|s| - 1] != '/' ==> r.1 + r.0 == s && (r.1 == [] || r.1[|r.1| - 1] == '/')
  {
    var t := TrimTrailingSlashes(s);
    var name := LastSegment(t);
    assert s != [] ==> name != [] by {
      if s != [] {
        var k :| 0 <= k < |s| && s[k] != '/';
        assert k < |t|;
        assert t != [] && t[|t| - 1] != '/';
        assert LastSegment(t)[|LastSegment(t)| - 1] == t[|t| - 1];
      }
    }
    (name, s[..|s| - |name|])
  }

  /** The output entry a visited class is stored under is the class's own entry name. */
  lemma EntryNameOfClass(s: string)
    requires s != [] && s[|s| - 1] != '/'
    ensures Splittable(s)
    ensures SplitInternalName(s).1 + SplitInternalName(s).0 + ".class" == s + ".class"
  {
  }

  /** `i1 > ACC_ABSTRACT && !INCLUDE_ABSTRACT_CLASSES`: a numeric comparison, not a bit test. */
  predicate AbstractGate(access: nat, cfg: Config) {
    access > ACC_ABSTRACT && !cfg.includeAbstractClasses
  }

  /** Below `ACC_SYNTHETIC` the comparison agrees with the abstract bit, except for a bare `ACC_ABSTRACT`. */
  lemma AbstractGateBelowSynthetic(access: nat, cfg: Config)
    requires access < 0x0800 && access != ACC_ABSTRACT && !cfg.includeAbstractClasses
    ensures AbstractGate(access, cfg) <==> HasFlag(access, ACC_ABSTRACT)
  {
    if access >= ACC_ABSTRACT {
      assert access / ACC_ABSTRACT == 1;
    } else {
      assert access / ACC_ABSTRACT == 0;
    }
  }

  /**
   * A public final enum class (`ACC_PUBLIC | ACC_FINAL | ACC_SUPER |
   * ACC_ENUM`) is cancelled although it is not abstract, and a class whose
   * only flag is `ACC_ABSTRACT` is not although it is.
   */
  lemma AbstractGateExamples(cfg: Config)
    requires !cfg.includeAbstractClasses
    ensures AbstractGate(0x4031, cfg) && !HasFlag(0x4031, ACC_ABSTRACT)
    ensures !AbstractGate(ACC_ABSTRACT, cfg) && HasFlag(ACC_ABSTRACT, ACC_ABSTRACT)
    ensures !AbstractGate(0x0021, cfg)
  {
  }
}
