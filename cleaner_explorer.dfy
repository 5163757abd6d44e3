/**
 * `life.savag3.cleaner.asm.ClassExplorer`: the cleaner's class visitor. Like
 * the lazy explorer it rebuilds the class on its own writer, but it also
 * cancels classes in blacklisted packages, drops every method whose name
 * starts with `lambda`, knows fewer field access values, and drops a field
 * whose string constant fully matches one of the exempt string patterns.
 * Regular-expression matching is a parameter of the explorer.
 */
module CleanerExplorer {
  import opened Wrappers
  import opened Strings
  import opened Jvm
  import opened Configuration
  import opened ExplorerRules
  import BlacklistUtils
  import LazyExplorer
  import LazyRun

  /** `visitMethod` writes a method: its name does not start with `lambda`, and it is not private (or private methods are included). */
  predicate MethodEmitted(name: string, access: nat, cfg: Config) {
    !StartsWith(name, "lambda") &&
    !((access == ACC_PRIVATE || access == ACC_PRIVATE + ACC_STATIC) && !cfg.includePrivateMethods)
  }

  /** A base access value with or without `transient`. */
  function WithTransient(base: nat): set<nat> {
    {base, base + ACC_TRANSIENT}
  }

  /** The category the `visitField` chain files an access value under, if any. */
  function FieldCategoryOf(access: nat): Option<FieldCategory> {
    if access in WithTransient(ACC_STATIC + ACC_PUBLIC) then Some(PublicStatic)
    else if access in WithTransient(ACC_STATIC + ACC_PRIVATE) then Some(PrivateStatic)
    else if access in WithTransient(ACC_PRIVATE) then Some(PrivateInstance)
    else if access in WithTransient(ACC_PUBLIC) then Some(PublicInstance)
    else None
  }

  /** `visitField` passes the field on: to `addField` for an included category, or straight to the writer for an enum constant. */
  predicate FieldSelected(access: nat, cfg: Config) {
    match FieldCategoryOf(access)
    case Some(c) => Included(cfg, c)
    case None => access == LazyExplorer.ENUM_FIELD_ACCESS && cfg.includeEnumData
  }

  /** `addField`'s exemption: a string constant that some pattern matches in full. */
  predicate StringExempt(value: ConstValue, patterns: seq<string>, fullMatch: (string, string) -> bool) {
    value.StringValue? && exists i :: 0 <= i < |patterns| && fullMatch(patterns[i], value.s)
  }

  /** A method whose name starts with `lambda` is never written, whatever its access. */
  lemma LambdaMethodsDropped(name: string, access: nat, cfg: Config)
    requires StartsWith(name, "lambda")
    ensures !MethodEmitted(name, access, cfg)
  {
  }

  /** The cleaner only files a field where the lazy explorer files it the same way. */
  lemma CategoriesWithinLazy(access: nat)
    requires FieldCategoryOf(access).Some?
    ensures LazyExplorer.FieldCategoryOf(access) == FieldCategoryOf(access)
  {
    var c := FieldCategoryOf(access).value;
    if c == PublicStatic {
      assert access in {0x09, 0x89};
    } else if c == PrivateStatic {
      assert access in {0x0A, 0x8A};
    } else if c == PrivateInstance {
      assert access in {0x02, 0x82};
    } else {
      assert access in {0x01, 0x81};
    }
  }

  /** A final field other than an enum constant is never written: no case of the chain has the final bit. */
  lemma FinalFieldsDropped(access: nat, cfg: Config)
    requires HasFlag(access, ACC_FINAL) && access != LazyExplorer.ENUM_FIELD_ACCESS
    ensures !FieldSelected(access, cfg)
  {
    assert access !in {0x09, 0x89, 0x0A, 0x8A, 0x02, 0x82, 0x01, 0x81};
  }

  /** An enum constant is written whenever enum data is on: it does not go through `addField`, so no string pattern can drop it. */
  lemma EnumConstantsBypassExemption(cfg: Config)
    requires cfg.includeEnumData
    ensures FieldSelected(LazyExplorer.ENUM_FIELD_ACCESS, cfg)
    ensures FieldCategoryOf(LazyExplorer.ENUM_FIELD_ACCESS).None?
  {
  }

  class ClassExplorer {
    var cw: seq<WriterEvent>
    var name: string
    var pack: string
    var cancelled: bool
    const config: Config
    /** `Matcher.matches` of a compiled pattern against a string. */
    const fullMatch: (string, string) -> bool
    const run: LazyRun.Lazy

    constructor (config: Config, fullMatch: (string, string) -> bool, run: LazyRun.Lazy)
      ensures cw == [] && !cancelled && name == "" && pack == ""
      ensures this.config == config && this.fullMatch == fullMatch && this.run == run
    {
      cw := [];
      name := "";
      pack := "";
      cancelled := false;
      this.config := config;
      this.fullMatch := fullMatch;
      this.run := run;
    }

    /**
     * `visit`: record the names; cancel the class at the abstract gate, or
     * else cancel it exactly when its package is blacklisted; otherwise write
     * its header.
     */
    method Visit(version: int, access: nat, s: string, signature: Option<string>,
                 superName: Option<string>, interfaces: seq<string>)
      requires Splittable(s)
      modifies this, run
      ensures (name, pack) == SplitInternalName(s)
      ensures AbstractGate(access, config) ==> cancelled && cw == old(cw) && run.classCount == old(run.classCount)
      ensures !AbstractGate(access, config) ==>
                cancelled == BlacklistUtils.AnyBlacklisted(config.blacklistedPackages, pack)
      ensures !AbstractGate(access, config) && !cancelled ==>
                cw == old(cw) + [ClassHeader(version, access, s, signature, superName, interfaces)] &&
                run.classCount == old(run.classCount) + 1
      ensures !AbstractGate(access, config) && cancelled ==>
                cw == old(cw) && run.classCount == old(run.classCount)
      ensures run.resultClassMap == old(run.resultClassMap)
      ensures run.methodCount == old(run.methodCount) && run.fieldCount == old(run.fieldCount)
    {
      var split := SplitInternalName(s);
      name := split.0;
      pack := s[..|s| - |name|];
      if access > ACC_ABSTRACT && !config.includeAbstractClasses {
        cancelled := true;
        return;
      }
      cancelled := BlacklistUtils.IsBlacklistedPackage(config.blacklistedPackages, pack);
      if cancelled {
        return;
      }
      cw := cw + [ClassHeader(version, access, s, signature, superName, interfaces)];
      run.classCount := run.classCount + 1;
    }

    /** `visitMethod`: write the method with a `return` body unless it is a lambda or an excluded private method. */
    method VisitMethod(access: nat, name: string, descriptor: string, signature: Option<string>,
                       exceptions: Option<seq<string>>)
      modifies this, run
      ensures !old(cancelled) && MethodEmitted(name, access, config) ==>
                cw == old(cw) + [Method(access, name, descriptor, signature, exceptions, [Insn(RETURN)])] &&
                run.methodCount == old(run.methodCount) + 1
      ensures old(cancelled) || !MethodEmitted(name, access, config) ==>
                cw == old(cw) && run.methodCount == old(run.methodCount)
      ensures cancelled == old(cancelled) && this.name == old(this.name) && pack == old(pack)
      ensures run.resultClassMap == old(run.resultClassMap)
      ensures run.classCount == old(run.classCount) && run.fieldCount == old(run.fieldCount)
    {
      if cancelled {
        return;
      }
      if !StartsWith(name, "lambda") {
        if access == ACC_PRIVATE || access == ACC_PRIVATE + ACC_STATIC {
          if !config.includePrivateMethods {
            return;
          }
        }
        cw := cw + [Method(access, name, descriptor, signature, exceptions, [Insn(RETURN)])];
        run.methodCount := run.methodCount + 1;
      }
    }

    /**
     * `visitField`: an enum constant with enum data on is written directly;
     * a field of an included category goes through `addField`, which may
     * still drop it.
     */
    method VisitField(access: nat, name: string, descriptor: string, signature: Option<string>, value: ConstValue)
      modifies this, run
      ensures !old(cancelled) && FieldSelected(access, config) &&
              (FieldCategoryOf(access).None? || !StringExempt(value, config.exemptStringPatterns, fullMatch)) ==>
                cw == old(cw) + [Field(access, name, descriptor, signature, value)] &&
                run.fieldCount == old(run.fieldCount) + 1
      ensures old(cancelled) || !FieldSelected(access, config) ||
              (FieldCategoryOf(access).Some? && StringExempt(value, config.exemptStringPatterns, fullMatch)) ==>
                cw == old(cw) && run.fieldCount == old(run.fieldCount)
      ensures cancelled == old(cancelled) && this.name == old(this.name) && pack == old(pack)
      ensures run.resultClassMap == old(run.resultClassMap)
      ensures run.classCount == old(run.classCount) && run.methodCount == old(run.methodCount)
    {
      if cancelled {
        return;
      }
      if access in WithTransient(ACC_STATIC + ACC_PUBLIC) {
        if config.includePubStaticFields {
          AddField(access, name, descriptor, signature, value);
        }
      } else if access in WithTransient(ACC_STATIC + ACC_PRIVATE) {
        if config.includePriStaticFields {
          AddField(access, name, descriptor, signature, value);
        }
      } else if access in WithTransient(ACC_PRIVATE) {
        if config.includePriNonStaticFields {
          AddField(access, name, descriptor, signature, value);
        }
      } else if access in WithTransient(ACC_PUBLIC) {
        if config.includePubNonStaticFields {
          AddField(access, name, descriptor, signature, value);
        }
      } else if access == LazyExplorer.ENUM_FIELD_ACCESS {
        if config.includeEnumData {
          cw := cw + [Field(access, name, descriptor, signature, value)];
          run.fieldCount := run.fieldCount + 1;
        }
      }
    }

    /** `addField`: drop a string constant that an exempt pattern matches in full, otherwise write the field. */
    method AddField(access: nat, name: string, descriptor: string, signature: Option<string>, value: ConstValue)
      modifies this, run
      ensures StringExempt(value, config.exemptStringPatterns, fullMatch) ==>
                cw == old(cw) && run.fieldCount == old(run.fieldCount)
      ensures !StringExempt(value, config.exemptStringPatterns, fullMatch) ==>
                cw == old(cw) + [Field(access, name, descriptor, signature, value)] &&
                run.fieldCount == old(run.fieldCount) + 1
      ensures cancelled == old(cancelled) && this.name == old(this.name) && pack == old(pack)
      ensures run.resultClassMap == old(run.resultClassMap)
      ensures run.classCount == old(run.classCount) && run.methodCount == old(run.methodCount)
    {
      if value.StringValue? {
        var patterns := config.exemptStringPatterns;
        var i := 0;
        while i < |patterns|
          invariant i <= |patterns|
          invariant forall j :: 0 <= j < i ==> !fullMatch(patterns[j], value.s)
        {
          if fullMatch(patterns[i], value.s) {
            return;
          }
          i := i + 1;
        }
      }
      cw := cw + [Field(access, name, descriptor, signature, value)];
      run.fieldCount := run.fieldCount + 1;
    }

    /** `visitEnd`: hand the written class to the run under `pack + name + ".class"` unless it was cancelled. */
    method VisitEnd(encode: seq<WriterEvent> -> Bytes)
      modifies run
      ensures !cancelled ==> run.resultClassMap == old(run.resultClassMap)[pack + name + ".class" := encode(cw)]
      ensures cancelled ==> run.resultClassMap == old(run.resultClassMap)
      ensures run.classCount == old(run.classCount) && run.methodCount == old(run.methodCount)
      ensures run.fieldCount == old(run.fieldCount)
    {
      if cancelled {
        return;
      }
      var bytes := encode(cw);
      run.Add(pack + name + ".class", bytes);
    }
  }
}
