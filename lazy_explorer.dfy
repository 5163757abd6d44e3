/**
 * `life.savag3.lazy.asm.ClassExplorer`: a class visitor that rebuilds a
 * class on its own writer as it is read, keeping members by their exact
 * access value, giving every kept method a bare `return` body, and hands
 * the result to the run when the class ends. The writer's state is the list
 * of calls forwarded to it; turning that list into bytes is a parameter.
 */
module LazyExplorer {
  import opened Wrappers
  import opened Jvm
  import opened Configuration
  import opened ExplorerRules
  import PackageUtils
  import LazyTransformer = LazyClassTransformer
  import LazyRun

  /** The six native access values `visitMethod` singles out (lazy/asm/ClassExplorer.java, lines 128-133). */
  const NATIVE_ACCESSES: set<nat> := {
    ACC_PUBLIC + ACC_NATIVE,
    ACC_PUBLIC + ACC_STATIC + ACC_NATIVE,
    ACC_PUBLIC + ACC_STATIC + ACC_NATIVE + ACC_FINAL,
    ACC_PRIVATE + ACC_NATIVE,
    ACC_PRIVATE + ACC_STATIC + ACC_NATIVE,
    ACC_PRIVATE + ACC_STATIC + ACC_NATIVE + ACC_FINAL
  }

  /** The two private access values `visitMethod` singles out (lazy/asm/ClassExplorer.java, lines 138-139). */
  const PRIVATE_ACCESSES: set<nat> := {ACC_PRIVATE, ACC_PRIVATE + ACC_STATIC}

  /**
   * `visitMethod` writes a method exactly when its access value is none of
   * those: for the singled-out values both arms of the inclusion test
   * return without writing.
   */
  predicate MethodEmitted(access: nat) {
    access !in NATIVE_ACCESSES && access !in PRIVATE_ACCESSES
  }

  /** A base access value with any of `final` and `transient` added. */
  function WithModifiers(base: nat): set<nat> {
    {base, base + ACC_FINAL, base + ACC_TRANSIENT, base + ACC_TRANSIENT + ACC_FINAL}
  }

  /** `public static final enum`, the access of an enum constant. */
  const ENUM_FIELD_ACCESS: nat := 16409

  /** The category the `visitField` switch files an access value under, if any. */
  function FieldCategoryOf(access: nat): Option<FieldCategory> {
    if access in WithModifiers(ACC_STATIC + ACC_PUBLIC) then Some(PublicStatic)
    else if access in WithModifiers(ACC_STATIC + ACC_PRIVATE) then Some(PrivateStatic)
    else if access in WithModifiers(ACC_PRIVATE) then Some(PrivateInstance)
    else if access in WithModifiers(ACC_PUBLIC) then Some(PublicInstance)
    else None
  }

  /** `visitField` writes a field: its category is included, or it is an enum constant and enum data is on. */
  predicate FieldEmitted(access: nat, cfg: Config) {
    match FieldCategoryOf(access)
    case Some(c) => Included(cfg, c)
    case None => access == ENUM_FIELD_ACCESS && cfg.includeEnumData
  }

  /** The singled-out native values all carry the native bit, and the private values the private bit. */
  lemma SingledOutValuesCarryTheirFlag(access: nat)
    ensures access in NATIVE_ACCESSES ==> HasFlag(access, ACC_NATIVE)
    ensures access in PRIVATE_ACCESSES ==> HasFlag(access, ACC_PRIVATE) && !HasFlag(access, ACC_NATIVE)
  {
  }

  /**
   * Native and private methods are dropped whatever the inclusion flags say,
   * while a protected native method or a private final one gets a
   * `return` body.
   */
  lemma MethodEmissionExamples()
    ensures !MethodEmitted(ACC_PUBLIC + ACC_NATIVE) && !MethodEmitted(ACC_PRIVATE)
    ensures MethodEmitted(ACC_PROTECTED + ACC_NATIVE) && HasFlag(ACC_PROTECTED + ACC_NATIVE, ACC_NATIVE)
    ensures MethodEmitted(ACC_PRIVATE + ACC_FINAL) && HasFlag(ACC_PRIVATE + ACC_FINAL, ACC_PRIVATE)
  {
  }

  /** Where the switch files a field, the transformer's bit tests put it in the same category. */
  lemma FieldCategoryAgreesWithFlags(access: nat)
    requires FieldCategoryOf(access).Some?
    ensures LazyTransformer.InCategory(access, FieldCategoryOf(access).value)
    ensures access != ENUM_FIELD_ACCESS
  {
    var c := FieldCategoryOf(access).value;
    if c == PublicStatic {
      assert access in {0x09, 0x19, 0x89, 0x99};
    } else if c == PrivateStatic {
      assert access in {0x0A, 0x1A, 0x8A, 0x9A};
    } else if c == PrivateInstance {
      assert access in {0x02, 0x12, 0x82, 0x92};
    } else {
      assert access in {0x01, 0x11, 0x81, 0x91};
    }
  }

  /** A protected field is never written: no case of the switch has the protected bit. */
  lemma ProtectedFieldsDropped(access: nat, cfg: Config)
    requires HasFlag(access, ACC_PROTECTED)
    ensures !FieldEmitted(access, cfg)
  {
    assert access !in {0x09, 0x19, 0x89, 0x99, 0x0A, 0x1A, 0x8A, 0x9A, 0x02, 0x12, 0x82, 0x92, 0x01, 0x11, 0x81, 0x91};
    assert access != ENUM_FIELD_ACCESS;
  }

  class ClassExplorer {
    /** The calls forwarded to the `ClassWriter`. */
    var cw: seq<WriterEvent>
    var name: string
    var pack: string
    var cancelled: bool
    const config: Config
    /** The run that receives the finished class and keeps the counters. */
    const run: LazyRun.Lazy

    constructor (config: Config, run: LazyRun.Lazy)
      ensures cw == [] && !cancelled && name == "" && pack == ""
      ensures this.config == config && this.run == run
    {
      cw := [];
      name := "";
      pack := "";
      cancelled := false;
      this.config := config;
      this.run := run;
    }

    /** `visit`: record the names, then cancel the class at the abstract gate or write its header. */
    method Visit(version: int, access: nat, s: string, signature: Option<string>,
                 superName: Option<string>, interfaces: seq<string>)
      requires Splittable(s)
      modifies this, run
      ensures (name, pack) == SplitInternalName(s)
      ensures AbstractGate(access, config) ==> cancelled && cw == old(cw) && run.classCount == old(run.classCount)
      ensures !AbstractGate(access, config) ==>
                cancelled == old(cancelled) && run.classCount == old(run.classCount) + 1 &&
                cw == old(cw) + [ClassHeader(version, access, s, signature, superName, interfaces)]
      ensures run.resultClassMap == old(run.resultClassMap)
      ensures run.methodCount == old(run.methodCount) && run.fieldCount == old(run.fieldCount)
    {
      var split := SplitInternalName(s);
      name := split.0;
      pack := s[..|s| - |name|];
      if access > ACC_ABSTRACT && !config.includeAbstractClasses {
        cancelled := true;
        return;
      }
      cw := cw + [ClassHeader(version, access, s, signature, superName, interfaces)];
      run.classCount := run.classCount + 1;
    }

    /** The guard every other `visit…` call starts with: forward the call unless the class was cancelled. */
    method Forward(e: WriterEvent)
      modifies this
      ensures cw == if old(cancelled) then old(cw) else old(cw) + [e]
      ensures cancelled == old(cancelled) && name == old(name) && pack == old(pack)
    {
      if cancelled {
        return;
      }
      cw := cw + [e];
    }

    method VisitOuterClass(owner: string, methodName: Option<string>, descriptor: Option<string>)
      modifies this
      ensures cw == if old(cancelled) then old(cw) else old(cw) + [OuterClass(owner, methodName, descriptor)]
      ensures cancelled == old(cancelled) && name == old(name) && pack == old(pack)
    {
      Forward(OuterClass(owner, methodName, descriptor));
    }

    method VisitInnerClass(innerClass: string, outerName: Option<string>, innerName: Option<string>, access: nat)
      modifies this
      ensures cw == if old(cancelled) then old(cw) else old(cw) + [InnerClass(innerClass, outerName, innerName, access)]
      ensures cancelled == old(cancelled) && name == old(name) && pack == old(pack)
    {
      Forward(InnerClass(innerClass, outerName, innerName, access));
    }

    method VisitPermittedSubclass(permittedSubclass: string)
      modifies this
      ensures cw == if old(cancelled) then old(cw) else old(cw) + [PermittedSubclass(permittedSubclass)]
      ensures cancelled == old(cancelled) && name == old(name) && pack == old(pack)
    {
      Forward(PermittedSubclass(permittedSubclass));
    }

    method VisitNestMember(nestMember: string)
      modifies this
      ensures cw == if old(cancelled) then old(cw) else old(cw) + [NestMember(nestMember)]
      ensures cancelled == old(cancelled) && name == old(name) && pack == old(pack)
    {
      Forward(NestMember(nestMember));
    }

    method VisitAnnotation(descriptor: string, visible: bool)
      modifies this
      ensures cw == if old(cancelled) then old(cw) else old(cw) + [ClassAnnotation(descriptor, visible)]
      ensures cancelled == old(cancelled) && name == old(name) && pack == old(pack)
    {
      Forward(ClassAnnotation(descriptor, visible));
    }

    method VisitTypeAnnotation(typeRef: int, typePath: Option<string>, descriptor: string, visible: bool)
      modifies this
      ensures cw == if old(cancelled) then old(cw) else old(cw) + [TypeAnnotation(typeRef, typePath, descriptor, visible)]
      ensures cancelled == old(cancelled) && name == old(name) && pack == old(pack)
    {
      Forward(TypeAnnotation(typeRef, typePath, descriptor, visible));
    }

    method VisitAttribute(attributeType: string, content: Bytes)
      modifies this
      ensures cw == if old(cancelled) then old(cw) else old(cw) + [ClassAttribute(attributeType, content)]
      ensures cancelled == old(cancelled) && name == old(name) && pack == old(pack)
    {
      Forward(ClassAttribute(attributeType, content));
    }

    /** `visitMethod`: a method whose access value is not singled out is written with a `return` body. */
    method VisitMethod(access: nat, name: string, descriptor: string, signature: Option<string>,
                       exceptions: Option<seq<string>>)
      modifies this, run
      ensures !old(cancelled) && MethodEmitted(access) ==>
                cw == old(cw) + [Method(access, name, descriptor, signature, exceptions, [Insn(RETURN)])] &&
                run.methodCount == old(run.methodCount) + 1
      ensures old(cancelled) || !MethodEmitted(access) ==>
                cw == old(cw) && run.methodCount == old(run.methodCount)
      ensures cancelled == old(cancelled) && this.name == old(this.name) && pack == old(pack)
      ensures run.resultClassMap == old(run.resultClassMap)
      ensures run.classCount == old(run.classCount) && run.fieldCount == old(run.fieldCount)
    {
      if cancelled {
        return;
      }
      if access in NATIVE_ACCESSES {
        if !config.includeNativeMethods {
          return;
        }
      } else if access in PRIVATE_ACCESSES {
        if !config.includePrivateMethods {
          return;
        }
      } else {
        cw := cw + [Method(access, name, descriptor, signature, exceptions, [Insn(RETURN)])];
        run.methodCount := run.methodCount + 1;
      }
    }

    /** `visitField`: write the field when its category is included, or when it is an enum constant and enum data is on. */
    method VisitField(access: nat, name: string, descriptor: string, signature: Option<string>, value: ConstValue)
      modifies this, run
      ensures !old(cancelled) && FieldEmitted(access, config) ==>
                cw == old(cw) + [Field(access, name, descriptor, signature, value)] &&
                run.fieldCount == old(run.fieldCount) + 1
      ensures old(cancelled) || !FieldEmitted(access, config) ==>
                cw == old(cw) && run.fieldCount == old(run.fieldCount)
      ensures cancelled == old(cancelled) && this.name == old(this.name) && pack == old(pack)
      ensures run.resultClassMap == old(run.resultClassMap)
      ensures run.classCount == old(run.classCount) && run.methodCount == old(run.methodCount)
    {
      if cancelled {
        return;
      }
      if access in WithModifiers(ACC_STATIC + ACC_PUBLIC) {
        if config.includePubStaticFields {
          AddField(access, name, descriptor, signature, value);
        }
      } else if access in WithModifiers(ACC_STATIC + ACC_PRIVATE) {
        if config.includePriStaticFields {
          AddField(access, name, descriptor, signature, value);
        }
      } else if access in WithModifiers(ACC_PRIVATE) {
        if config.includePriNonStaticFields {
          AddField(access, name, descriptor, signature, value);
        }
      } else if access in WithModifiers(ACC_PUBLIC) {
        if config.includePubNonStaticFields {
          AddField(access, name, descriptor, signature, value);
        }
      } else if access == ENUM_FIELD_ACCESS {
        if config.includeEnumData {
          cw := cw + [Field(access, name, descriptor, signature, value)];
          run.fieldCount := run.fieldCount + 1;
        }
      }
    }

    /** `addField`: write the field and count it. */
    method AddField(access: nat, name: string, descriptor: string, signature: Option<string>, value: ConstValue)
      modifies this, run
      ensures cw == old(cw) + [Field(access, name, descriptor, signature, value)]
      ensures run.fieldCount == old(run.fieldCount) + 1
      ensures cancelled == old(cancelled) && this.name == old(this.name) && pack == old(pack)
      ensures run.resultClassMap == old(run.resultClassMap)
      ensures run.classCount == old(run.classCount) && run.methodCount == old(run.methodCount)
    {
      cw := cw + [Field(access, name, descriptor, signature, value)];
      run.fieldCount := run.fieldCount + 1;
    }

    /**
     * `visitEnd`: unless the class was cancelled or its package is exempt,
     * hand the written class to the run under `pack + name + ".class"`.
     * `encode` stands for `toByteArray`.
     */
    method VisitEnd(encode: seq<WriterEvent> -> Bytes)
      modifies run
      ensures !cancelled && !PackageUtils.AnyPatternMatches(config.exempt, pack) ==>
                run.resultClassMap == old(run.resultClassMap)[pack + name + ".class" := encode(cw)]
      ensures cancelled || PackageUtils.AnyPatternMatches(config.exempt, pack) ==>
                run.resultClassMap == old(run.resultClassMap)
      ensures run.classCount == old(run.classCount) && run.methodCount == old(run.methodCount)
      ensures run.fieldCount == old(run.fieldCount)
    {
      if cancelled {
        return;
      }
      var bytes := encode(cw);
      var exempt := PackageUtils.IsExempt(config, pack);
      if exempt {
        return;
      }
      run.Add(pack + name + ".class", bytes);
    }
  }
}
