/**
 * `life.savag3.lazy.Lazy`: the run over the input jar. Every class-file
 * entry that is not excluded is stored in the result map, verbatim when its
 * package is exempt and transformed otherwise; an entry whose processing
 * fails is skipped. The jar itself, the file system and the final packing
 * are outside the model: entries arrive as values and the transformer is
 * a parameter.
 */
module LazyRun {
  import opened Wrappers
  import opened Strings
  import opened Jvm
  import opened Configuration
  import PackageUtils

  /** One jar entry; `contents` is `None` when reading it throws. */
  datatype JarEntry = JarEntry(name: string, isDirectory: bool, contents: Option<Bytes>)

  /** The two filters in front of the try block: directories and non-class files are passed over. */
  predicate IsClassEntry(e: JarEntry) {
    !e.isDirectory && EndsWith(e.name, ".class")
  }

  /**
   * What one iteration of the entry loop stores for `e`, if anything:
   * nothing for a skipped, excluded or failing entry, the bytes read for an
   * exempt one, the transformer's output for the rest. `transform` answers
   * `None` when it throws.
   */
  function EntryOutcome(e: JarEntry, cfg: Config, transform: Bytes -> Option<Bytes>): Option<Bytes> {
    if !IsClassEntry(e) then None
    else if PackageUtils.AnyPatternMatches(cfg.exclude, e.name) then None
    else if PackageUtils.AnyPatternMatches(cfg.exempt, e.name) then e.contents
    else if e.contents.None? then None
    else transform(e.contents.value)
  }

  /** The result map after one entry. */
  function Step(m: map<string, Bytes>, e: JarEntry, cfg: Config, transform: Bytes -> Option<Bytes>): map<string, Bytes> {
    match EntryOutcome(e, cfg, transform)
    case Some(bytes) => m[e.name := bytes]
    case None => m
  }

  /** The result map after the entries in jar order. */
  function Dispatch(m: map<string, Bytes>, entries: seq<JarEntry>, cfg: Config,
                    transform: Bytes -> Option<Bytes>): map<string, Bytes>
    decreases |entries|
  {
    if entries == [] then m
    else Step(Dispatch(m, entries[..|entries| - 1], cfg, transform), entries[|entries| - 1], cfg, transform)
  }

  /** No two entries share a name, as in a jar file. */
  predicate DistinctNames(entries: seq<JarEntry>) {
    forall i, j :: 0 <= i < j < |entries| ==> entries[i].name != entries[j].name
  }

  class Lazy {
    var resultClassMap: map<string, Bytes>
    var classCount: nat
    var methodCount: nat
    var fieldCount: nat

    constructor ()
      ensures resultClassMap == map[] && classCount == 0 && methodCount == 0 && fieldCount == 0
    {
      resultClassMap := map[];
      classCount := 0;
      methodCount := 0;
      fieldCount := 0;
    }

    /** `add`: store (or replace) the bytes of one output entry. */
    method Add(pack: string, bytes: Bytes)
      modifies this
      ensures resultClassMap == old(resultClassMap)[pack := bytes]
      ensures classCount == old(classCount) && methodCount == old(methodCount) && fieldCount == old(fieldCount)
    {
      resultClassMap := resultClassMap[pack := bytes];
    }

    /** The entry loop of the constructor. */
    method ProcessEntries(entries: seq<JarEntry>, cfg: Config, transform: Bytes -> Option<Bytes>)
      modifies this
      ensures resultClassMap == Dispatch(old(resultClassMap), entries, cfg, transform)
      ensures classCount == old(classCount) && methodCount == old(methodCount) && fieldCount == old(fieldCount)
    {
      var i := 0;
      while i < |entries|
        invariant i <= |entries|
        invariant resultClassMap == Dispatch(old(resultClassMap), entries[..i], cfg, transform)
        invariant classCount == old(classCount) && methodCount == old(methodCount) && fieldCount == old(fieldCount)
      {
        var clazz := entries[i];
        assert entries[..i + 1][..i] == entries[..i];
        i := i + 1;
        if clazz.isDirectory {
          continue;
        }
        if !EndsWith(clazz.name, ".class") {
          continue;
        }
        // The try block: a failure in reading or transforming skips the entry.
        var excluded := PackageUtils.IsExcluded(cfg, clazz.name);
        if excluded {
          continue;
        }
        var exempt := PackageUtils.IsExempt(cfg, clazz.name);
        if exempt {
          if clazz.contents.Some? {
            Add(clazz.name, clazz.contents.value);
          }
        } else if clazz.contents.Some? {
          var transformed := transform(clazz.contents.value);
          if transformed.Some? {
            Add(clazz.name, transformed.value);
          }
        }
      }
      assert entries[..|entries|] == entries;
    }
  }

  /** Every key the run adds is the name of a class entry that is not excluded and whose processing succeeded. */
  lemma {:induction false} DispatchOnlyAddsOutcomes(m: map<string, Bytes>, entries: seq<JarEntry>, cfg: Config,
                                                    transform: Bytes -> Option<Bytes>, k: string)
    requires k in Dispatch(m, entries, cfg, transform) && k !in m
    ensures exists i :: 0 <= i < |entries| && entries[i].name == k && EntryOutcome(entries[i], cfg, transform).Some?
    decreases |entries|
  {
    var n := |entries| - 1;
    var prefix := entries[..n];
    if k in Dispatch(m, prefix, cfg, transform) {
      DispatchOnlyAddsOutcomes(m, prefix, cfg, transform, k);
      var i :| 0 <= i < |prefix| && prefix[i].name == k && EntryOutcome(prefix[i], cfg, transform).Some?;
      assert entries[i] == prefix[i];
    } else {
      assert entries[n].name == k && EntryOutcome(entries[n], cfg, transform).Some?;
    }
  }

  /** So nothing stored from an empty map is a directory, a non-class file, or in an excluded package. */
  lemma StoredNamesAreIncludedClasses(entries: seq<JarEntry>, cfg: Config, transform: Bytes -> Option<Bytes>, k: string)
    requires k in Dispatch(map[], entries, cfg, transform)
    ensures EndsWith(k, ".class") && !PackageUtils.AnyPatternMatches(cfg.exclude, k)
  {
    DispatchOnlyAddsOutcomes(map[], entries, cfg, transform, k);
  }

  /** Entries that store nothing leave the map as it was. */
  lemma {:induction false} DispatchIgnoresSkipped(m: map<string, Bytes>, entries: seq<JarEntry>, cfg: Config,
                                                  transform: Bytes -> Option<Bytes>)
    requires forall i :: 0 <= i < |entries| ==> EntryOutcome(entries[i], cfg, transform).None?
    ensures Dispatch(m, entries, cfg, transform) == m
    decreases |entries|
  {
    if entries != [] {
      DispatchIgnoresSkipped(m, entries[..|entries| - 1], cfg, transform);
    }
  }

  /** With distinct entry names, each entry's outcome is what the map ends up holding under its name. */
  lemma {:induction false} DispatchStoresOutcome(m: map<string, Bytes>, entries: seq<JarEntry>, cfg: Config,
                                                 transform: Bytes -> Option<Bytes>, i: nat)
    requires DistinctNames(entries) && i < |entries|
    requires EntryOutcome(entries[i], cfg, transform).Some?
    ensures entries[i].name in Dispatch(m, entries, cfg, transform)
    ensures Dispatch(m, entries, cfg, transform)[entries[i].name] == EntryOutcome(entries[i], cfg, transform).value
    decreases |entries|
  {
    var n := |entries| - 1;
    if i < n {
      var prefix := entries[..n];
      assert prefix[i] == entries[i];
      DispatchStoresOutcome(m, prefix, cfg, transform, i);
      assert entries[n].name != entries[i].name;
    }
  }

  /** A class in a package both excluded and exempt is left out: exclusion is checked first. */
  lemma ExclusionWins(e: JarEntry, cfg: Config, transform: Bytes -> Option<Bytes>)
    requires PackageUtils.AnyPatternMatches(cfg.exclude, e.name)
    ensures EntryOutcome(e, cfg, transform) == None
  {
  }

  /** A readable exempt class is copied byte for byte, whatever the transformer would do. */
  lemma ExemptCopiedVerbatim(entries: seq<JarEntry>, cfg: Config, transform: Bytes -> Option<Bytes>, i: nat)
    requires DistinctNames(entries) && i < |entries|
    requires IsClassEntry(entries[i]) && entries[i].contents.Some?
    requires PackageUtils.AnyPatternMatches(cfg.exempt, entries[i].name)
    requires !PackageUtils.AnyPatternMatches(cfg.exclude, entries[i].name)
    ensures entries[i].name in Dispatch(map[], entries, cfg, transform)
    ensures Dispatch(map[], entries, cfg, transform)[entries[i].name] == entries[i].contents.value
  {
    DispatchStoresOutcome(map[], entries, cfg, transform, i);
  }

  /** Under the default policy a class of `org/reflections` is never stored. */
  lemma DefaultsExcludeReflections(name: string, contents: Option<Bytes>, transform: Bytes -> Option<Bytes>,
                                   abs: bool, enums: bool, contracts: bool,
                                   blacklist: seq<string>, stringPatterns: seq<string>)
    requires StartsWith(name, "org/reflections/")
    ensures EntryOutcome(JarEntry(name, false, contents), Defaults(abs, enums, contracts, blacklist, stringPatterns),
                         transform) == None
  {
    var cfg := Defaults(abs, enums, contracts, blacklist, stringPatterns);
    var pattern := "org/reflections/*";
    assert pattern == cfg.exclude[0];
    assert pattern[|pattern| - 1] == '*';
    assert pattern[..|pattern| - 1] == "org/reflections/";
    assert PackageUtils.PatternMatches(pattern, name);
  }
}
