/**
 * `life.savag3.lazy.LazyClassTransformer`: strips one parsed class. It drops
 * private and native methods and the four field categories the policy turns
 * off (subject to the annotation gate), and replaces every remaining method
 * body by a default return, optionally tagging the method with a JetBrains
 * `@Contract`.
 */
module LazyClassTransformer {
  import opened Wrappers
  import opened Strings
  import opened Seqs
  import opened Jvm
  import opened Configuration

  // ---------------------------------------------------------------------
  // The annotation gate (LazyClassTransformer.java, lines 125-150)
  // ---------------------------------------------------------------------

  /**
   * `checkAnnotations`: true only for a present, non-empty list in which no
   * annotation is a retention annotation. A missing or empty list answers
   * false, so members without annotations are never removed.
   */
  predicate CheckAnnotations(nodes: Option<seq<Annotation>>, retention: seq<string>) {
    nodes.Some? && |nodes.value| > 0 &&
    forall a :: a in nodes.value ==> a.desc !in retention
  }

  predicate CheckMethodAnnotations(m: MethodNode, retention: seq<string>) {
    CheckAnnotations(m.visibleAnnotations, retention) && CheckAnnotations(m.invisibleAnnotations, retention)
  }

  predicate CheckFieldAnnotations(f: FieldNode, retention: seq<string>) {
    CheckAnnotations(f.visibleAnnotations, retention) && CheckAnnotations(f.invisibleAnnotations, retention)
  }

  /** The annotations of an optional list, none when it is absent. */
  function AnnotationList(nodes: Option<seq<Annotation>>): seq<Annotation> {
    if nodes.Some? then nodes.value else []
  }

  /** A member carrying a retention annotation in either list is never gated. */
  lemma RetentionAnnotationBlocksGate(nodes: Option<seq<Annotation>>, retention: seq<string>, a: Annotation)
    requires a in AnnotationList(nodes) && a.desc in retention
    ensures !CheckAnnotations(nodes, retention)
  {
  }

  // ---------------------------------------------------------------------
  // Method removal (LazyClassTransformer.java, lines 39-51)
  // ---------------------------------------------------------------------

  /** The private-method pass: private and through the gate. */
  function PrivatePass(retention: seq<string>): MethodNode -> bool {
    (m: MethodNode) => HasFlag(m.access, ACC_PRIVATE) && CheckMethodAnnotations(m, retention)
  }

  /** The native-method pass: native and through the gate. */
  function NativePass(retention: seq<string>): MethodNode -> bool {
    (m: MethodNode) => HasFlag(m.access, ACC_NATIVE) && CheckMethodAnnotations(m, retention)
  }

  /** A method the transformer drops: a pass that is switched on selects it. */
  predicate MethodRemoved(m: MethodNode, cfg: Config) {
    ((!cfg.includePrivateMethods && HasFlag(m.access, ACC_PRIVATE)) ||
     (!cfg.includeNativeMethods && HasFlag(m.access, ACC_NATIVE))) &&
    CheckMethodAnnotations(m, cfg.retentionAnnotations)
  }

  function MethodDrop(cfg: Config): MethodNode -> bool {
    (m: MethodNode) => MethodRemoved(m, cfg)
  }

  /** The methods that survive both passes, in their original order. */
  function RetainedMethods(methods: seq<MethodNode>, cfg: Config): seq<MethodNode> {
    Remove(methods, MethodDrop(cfg))
  }

  /** One `if (!flag) removeIf(pass)` step. */
  function PassIf<T(==,!new)>(s: seq<T>, included: bool, pass: T -> bool): seq<T> {
    if included then s else Remove(s, pass)
  }

  /** The two method passes in source order remove exactly the methods `MethodRemoved` selects. */
  lemma {:induction false} MethodPassesRetain(methods: seq<MethodNode>, cfg: Config)
    ensures PassIf(PassIf(methods, cfg.includePrivateMethods, PrivatePass(cfg.retentionAnnotations)),
                   cfg.includeNativeMethods, NativePass(cfg.retentionAnnotations))
            == RetainedMethods(methods, cfg)
  {
    var ret := cfg.retentionAnnotations;
    var p := (m: MethodNode) => !cfg.includePrivateMethods && PrivatePass(ret)(m);
    var q := (m: MethodNode) => !cfg.includeNativeMethods && NativePass(ret)(m);
    GatedPass(methods, cfg.includePrivateMethods, PrivatePass(ret), p);
    var once := PassIf(methods, cfg.includePrivateMethods, PrivatePass(ret));
    GatedPass(once, cfg.includeNativeMethods, NativePass(ret), q);
    RemoveThenRemove(methods, p, q, MethodDrop(cfg));
  }

  /** A pass that may be switched off is a removal with the switch folded into its predicate. */
  lemma GatedPass<T(!new)>(s: seq<T>, included: bool, pass: T -> bool, gated: T -> bool)
    requires forall x :: gated(x) == (!included && pass(x))
    ensures PassIf(s, included, pass) == Remove(s, gated)
  {
    if included {
      RemoveNothing(s, gated);
    } else {
      RemoveCongruent(s, pass, gated);
    }
  }

  // ---------------------------------------------------------------------
  // Field removal (LazyClassTransformer.java, lines 79-112)
  // ---------------------------------------------------------------------

  /** The access-flag test of each field pass. A field that is neither public nor private is in none. */
  predicate InCategory(access: nat, c: FieldCategory) {
    match c
    case PublicStatic => HasFlag(access, ACC_STATIC) && HasFlag(access, ACC_PUBLIC)
    case PublicInstance => !HasFlag(access, ACC_STATIC) && HasFlag(access, ACC_PUBLIC)
    case PrivateInstance => !HasFlag(access, ACC_STATIC) && HasFlag(access, ACC_PRIVATE)
    case PrivateStatic => HasFlag(access, ACC_STATIC) && HasFlag(access, ACC_PRIVATE)
  }

  function FieldPass(c: FieldCategory, retention: seq<string>): FieldNode -> bool {
    (f: FieldNode) => InCategory(f.access, c) && CheckFieldAnnotations(f, retention)
  }

  /** A field the transformer drops: its category is switched off and it passes the gate. */
  predicate FieldRemoved(f: FieldNode, cfg: Config) {
    ((!Included(cfg, PublicStatic) && InCategory(f.access, PublicStatic)) ||
     (!Included(cfg, PublicInstance) && InCategory(f.access, PublicInstance)) ||
     (!Included(cfg, PrivateInstance) && InCategory(f.access, PrivateInstance)) ||
     (!Included(cfg, PrivateStatic) && InCategory(f.access, PrivateStatic))) &&
    CheckFieldAnnotations(f, cfg.retentionAnnotations)
  }

  function FieldDrop(cfg: Config): FieldNode -> bool {
    (f: FieldNode) => FieldRemoved(f, cfg)
  }

  function RetainedFields(fields: seq<FieldNode>, cfg: Config): seq<FieldNode> {
    Remove(fields, FieldDrop(cfg))
  }

  /** The four passes in source order. */
  function FieldPasses(fields: seq<FieldNode>, cfg: Config): seq<FieldNode> {
    var ret := cfg.retentionAnnotations;
    var a := PassIf(fields, Included(cfg, PublicStatic), FieldPass(PublicStatic, ret));
    var b := PassIf(a, Included(cfg, PublicInstance), FieldPass(PublicInstance, ret));
    var c := PassIf(b, Included(cfg, PrivateInstance), FieldPass(PrivateInstance, ret));
    PassIf(c, Included(cfg, PrivateStatic), FieldPass(PrivateStatic, ret))
  }

  /** A pass after earlier removals adds its own (switchable) predicate to theirs. */
  lemma PassStep<T(!new)>(s: seq<T>, prev: T -> bool, included: bool, pass: T -> bool, next: T -> bool)
    requires forall x :: next(x) == (prev(x) || (!included && pass(x)))
    ensures PassIf(Remove(s, prev), included, pass) == Remove(s, next)
  {
    var gated := x => !included && pass(x);
    GatedPass(Remove(s, prev), included, pass, gated);
    RemoveThenRemove(s, prev, gated, next);
  }

  /** The category of field pass `n`, in source order. */
  function PassCategory(n: nat): FieldCategory {
    if n == 0 then PublicStatic
    else if n == 1 then PublicInstance
    else if n == 2 then PrivateInstance
    else PrivateStatic
  }

  /** A field that one of the first `n` passes drops. */
  predicate DroppedWithin(f: FieldNode, cfg: Config, n: nat)
    requires n <= 4
  {
    n > 0 &&
    (DroppedWithin(f, cfg, n - 1) ||
     (!Included(cfg, PassCategory(n - 1)) && FieldPass(PassCategory(n - 1), cfg.retentionAnnotations)(f)))
  }

  /** The first `n` passes, as one removal. */
  function DropWithin(cfg: Config, n: nat): FieldNode -> bool
    requires n <= 4
  {
    (f: FieldNode) => DroppedWithin(f, cfg, n)
  }

  /** All four passes drop exactly what `FieldRemoved` says. */
  lemma DroppedWithinAll(cfg: Config)
    ensures forall f :: DropWithin(cfg, 4)(f) == FieldDrop(cfg)(f)
  {
    forall f
      ensures DroppedWithin(f, cfg, 4) == FieldRemoved(f, cfg)
    {
      var ret := cfg.retentionAnnotations;
      assert DroppedWithin(f, cfg, 1) == (!Included(cfg, PublicStatic) && FieldPass(PublicStatic, ret)(f));
      assert DroppedWithin(f, cfg, 2) ==
             (DroppedWithin(f, cfg, 1) || (!Included(cfg, PublicInstance) && FieldPass(PublicInstance, ret)(f)));
      assert DroppedWithin(f, cfg, 3) ==
             (DroppedWithin(f, cfg, 2) || (!Included(cfg, PrivateInstance) && FieldPass(PrivateInstance, ret)(f)));
      assert DroppedWithin(f, cfg, 4) ==
             (DroppedWithin(f, cfg, 3) || (!Included(cfg, PrivateStatic) && FieldPass(PrivateStatic, ret)(f)));
    }
  }

  /** Pass `n + 1` on what the first `n` passes keep. */
  lemma FieldPassStep(fields: seq<FieldNode>, cfg: Config, n: nat)
    requires n < 4
    ensures PassIf(Remove(fields, DropWithin(cfg, n)), Included(cfg, PassCategory(n)),
                   FieldPass(PassCategory(n), cfg.retentionAnnotations)) ==
            Remove(fields, DropWithin(cfg, n + 1))
  {
    PassStep(fields, DropWithin(cfg, n), Included(cfg, PassCategory(n)),
             FieldPass(PassCategory(n), cfg.retentionAnnotations), DropWithin(cfg, n + 1));
  }

  /** The first `n` field passes of `fields`, in source order. */
  function FirstPasses(fields: seq<FieldNode>, cfg: Config, n: nat): seq<FieldNode>
    requires n <= 4
  {
    if n == 0 then fields
    else PassIf(FirstPasses(fields, cfg, n - 1), Included(cfg, PassCategory(n - 1)),
                FieldPass(PassCategory(n - 1), cfg.retentionAnnotations))
  }

  /** The first `n` passes together are the removal of what any of them drops. */
  lemma {:induction false} FirstPassesDropWithin(fields: seq<FieldNode>, cfg: Config, n: nat)
    requires n <= 4
    ensures FirstPasses(fields, cfg, n) == Remove(fields, DropWithin(cfg, n))
  {
    if n == 0 {
      RemoveNothing(fields, DropWithin(cfg, 0));
    } else {
      FirstPassesDropWithin(fields, cfg, n - 1);
      FieldPassStep(fields, cfg, n - 1);
    }
  }

  /** The four passes written out are the first four passes. */
  lemma FieldPassesUnrolled(fields: seq<FieldNode>, cfg: Config)
    ensures FieldPasses(fields, cfg) == FirstPasses(fields, cfg, 4)
  {
    assert FirstPasses(fields, cfg, 2) == PassIf(FirstPasses(fields, cfg, 1), Included(cfg, PublicInstance),
                                                 FieldPass(PublicInstance, cfg.retentionAnnotations));
  }

  /** The four field passes together are the removal of what any of them drops. */
  lemma FieldPassesDropWithin(fields: seq<FieldNode>, cfg: Config)
    ensures FieldPasses(fields, cfg) == Remove(fields, DropWithin(cfg, 4))
  {
    FieldPassesUnrolled(fields, cfg);
    FirstPassesDropWithin(fields, cfg, 4);
  }

  /** The four field passes together remove exactly the fields `FieldRemoved` selects. */
  lemma FieldPassesRetain(fields: seq<FieldNode>, cfg: Config)
    ensures FieldPasses(fields, cfg) == RetainedFields(fields, cfg)
  {
    FieldPassesDropWithin(fields, cfg);
    DroppedWithinAll(cfg);
    RemoveCongruent(fields, DropWithin(cfg, 4), FieldDrop(cfg));
  }

  // ---------------------------------------------------------------------
  // Default returns and contracts (LazyClassTransformer.java, lines 159-186 and 194-271)
  // ---------------------------------------------------------------------

  /** The narrow integral return types, which the stub answers with `aconst_null; areturn`. */
  predicate IsNarrowIntegral(ret: string) {
    ret in ["Z", "B", "C", "S"]
  }

  /**
   * `resolveReturnType`: the default body for the method's return
   * descriptor, selected by the exact descriptor text; everything other than
   * `I`, `J`, `F`, `D` and `V` gets a null reference.
   */
  function ResolveReturnType(desc: string): (list: seq<Insn>)
    requires IsMethodDescriptor(desc)
    ensures 1 <= |list| <= 2 && IsReturnOpcode(list[|list| - 1].opcode)
    ensures |list| == 2 ==> Pushes(list[0].opcode).Some?
    ensures ReturnDescriptor(desc) !in ["I", "J", "F", "D", "V"] ==> list == [Insn(ACONST_NULL), Insn(ARETURN)]
  {
    match ReturnDescriptor(desc)
    case "I" => [Insn(ICONST_0), Insn(IRETURN)]
    case "J" => [Insn(LCONST_0), Insn(LRETURN)]
    case "F" => [Insn(FCONST_0), Insn(FRETURN)]
    case "D" => [Insn(DCONST_0), Insn(DRETURN)]
    case "V" => [Insn(RETURN)]
    case _ => [Insn(ACONST_NULL), Insn(ARETURN)]
  }

  /** The stub type-checks against the method's return type exactly when that type is not boolean, byte, char or short. */
  lemma StubVerifiesUnlessNarrow(desc: string)
    requires IsMethodDescriptor(desc)
    ensures StubVerifies(ResolveReturnType(desc), ReturnKindOf(ReturnDescriptor(desc)))
            <==> !IsNarrowIntegral(ReturnDescriptor(desc))
  {
    var ret := ReturnDescriptor(desc);
    if ret != "V" {
      assert FieldTypeEnd(ret, 0) == Some(|ret|);
      if ret[0] in "IJFD" {
        assert |ret| == 1;
        assert ret == [ret[0]];
      } else if ret[0] in "ZBCS" {
        assert |ret| == 1;
        assert ret == [ret[0]];
      } else {
        assert ret[0] == 'L' || ret[0] == '[';
        assert ret !in ["I", "J", "F", "D", "V", "Z", "B", "C", "S"];
      }
    }
  }

  /**
   * A boolean, byte, char or short method gets the reference stub
   * `aconst_null; areturn`, which its integral return kind rejects.
   */
  lemma NarrowIntegralGetsNullStub(desc: string)
    requires IsMethodDescriptor(desc) && IsNarrowIntegral(ReturnDescriptor(desc))
    ensures ResolveReturnType(desc) == [Insn(ACONST_NULL), Insn(ARETURN)]
    ensures ReturnKindOf(ReturnDescriptor(desc)) == ValueReturn(IntType)
    ensures !StubVerifies(ResolveReturnType(desc), ReturnKindOf(ReturnDescriptor(desc)))
  {
  }

  /** An initializer's single `return` type-checks against its void descriptor. */
  lemma InitializerStubVerifies()
    ensures StubVerifies([Insn(RETURN)], ReturnKindOf("V"))
  {
  }

  /**
   * `methodRequiresContract`: neither private nor protected, and the return
   * descriptor is none of `I`, `J`, `F`, `D`, `V`.
   */
  predicate MethodRequiresContract(m: MethodNode)
    requires IsMethodDescriptor(m.desc)
  {
    !HasFlag(m.access, ACC_PRIVATE) && !HasFlag(m.access, ACC_PROTECTED) &&
    ReturnDescriptor(m.desc) !in ["I", "J", "F", "D", "V"]
  }

  /** Among the methods callers can see, the contract goes exactly on those whose stub returns null. */
  lemma ContractExactlyOnNullStubs(m: MethodNode)
    requires IsMethodDescriptor(m.desc)
    requires !HasFlag(m.access, ACC_PRIVATE) && !HasFlag(m.access, ACC_PROTECTED)
    ensures MethodRequiresContract(m) <==> ResolveReturnType(m.desc)[0] == Insn(ACONST_NULL)
  {
  }

  const CONTRACT_DESC: string := "Lorg/jetbrains/annotations/Contract;"

  /** `_` once per counted parameter, separated by commas. */
  function Placeholders(n: nat): string {
    if n == 0 then "" else if n == 1 then "_" else Placeholders(n - 1) + ",_"
  }

  /** The contract text: placeholders, then `->!null`. */
  function ContractValue(n: nat): string {
    Placeholders(n) + "->!null"
  }

  /** The number of occurrences of `c` in `s`. */
  function Occurrences(s: string, c: char): nat {
    if s == [] then 0 else (if s[0] == c then 1 else 0) + Occurrences(s[1..], c)
  }

  lemma {:induction false} OccurrencesAppend(a: string, b: string, c: char)
    ensures Occurrences(a + b, c) == Occurrences(a, c) + Occurrences(b, c)
  {
    if a != [] {
      assert (a + b)[1..] == a[1..] + b;
      OccurrencesAppend(a[1..], b, c);
    } else {
      assert a + b == b;
    }
  }

  /** The placeholders are `n` underscores separated by `n - 1` commas. */
  lemma {:induction false} PlaceholderCounts(n: nat)
    ensures Occurrences(Placeholders(n), '_') == n
    ensures Occurrences(Placeholders(n), ',') == (if n == 0 then 0 else n - 1)
    ensures |Placeholders(n)| == (if n == 0 then 0 else 2 * n - 1)
  {
    if n > 1 {
      PlaceholderCounts(n - 1);
      OccurrencesAppend(Placeholders(n - 1), ",_", '_');
      OccurrencesAppend(Placeholders(n - 1), ",_", ',');
      assert ",_"[1..] == "_" && "_"[1..] == "";
    } else if n == 1 {
      assert "_"[1..] == "";
    }
  }

  /** The contract value holds one `_` per counted parameter and ends in `->!null`. */
  lemma ContractValueCounts(n: nat)
    ensures Occurrences(ContractValue(n), '_') == n
    ensures EndsWith(ContractValue(n), "->!null")
  {
    PlaceholderCounts(n);
    OccurrencesAppend(Placeholders(n), "->!null", '_');
    assert Occurrences("->!null", '_') == 0 by {
      var t := "->!null";
      assert t[1..] == ">!null" && t[2..] == "!null" && t[3..] == "null";
      assert t[4..] == "ull" && t[5..] == "ll" && t[6..] == "l" && t[7..] == "";
    }
  }

  /** The annotation `handleJetbrainsAnnotation` appends. */
  function ContractAnnotation(n: nat): Annotation {
    Annotation(CONTRACT_DESC, ["value", ContractValue(n)])
  }

  /** The string builder loop of `handleJetbrainsAnnotation`: `_,` per parameter, last comma dropped. */
  method BuildContractValue(paramCount: nat) returns (value: string)
    ensures value == ContractValue(paramCount)
  {
    var contractValue := "";
    if paramCount > 0 {
      var x := 0;
      while x < paramCount
        invariant x <= paramCount
        invariant x == 0 ==> contractValue == ""
        invariant x > 0 ==> contractValue == Placeholders(x) + ","
      {
        contractValue := contractValue + "_,";
        x := x + 1;
      }
    }
    value := (if paramCount > 0 then contractValue[..|contractValue| - 1] else "") + "->!null";
  }

  // ---------------------------------------------------------------------
  // Parameter counting (LazyClassTransformer.java, lines 218-254)
  // ---------------------------------------------------------------------

  /** The first index at or after `x` holding `;` or `)`; the trailing `)` bounds it. */
  function NextStop(desc: string, x: nat): (r: nat)
    requires x < |desc| && desc[|desc| - 1] == ')'
    ensures x <= r < |desc| && (desc[r] == ';' || desc[r] == ')')
    ensures forall k :: x <= k < r ==> desc[k] != ';' && desc[k] != ')'
    decreases |desc| - x
  {
    if desc[x] == ';' || desc[x] == ')' then x else NextStop(desc, x + 1)
  }

  /**
   * The loop of `resolveParamCount` from index `x` with `count` so far, over
   * the text between `(` and `)` inclusive. A class type counts once and
   * ends at its `;`; an array counts once and ends at the next `;`, or at the
   * `)` when there is none; any other character counts every step up to the
   * next `;` or `)`. `None` where the loop never ends (an `L` with no `;`
   * after it).
   */
  function Scan(desc: string, x: nat, count: nat): Option<nat>
    requires |desc| > 0 && desc[|desc| - 1] == ')'
    decreases |desc| - x
  {
    if x >= |desc| - 1 then Some(count)
    else if desc[x] == 'L' then
      var k := IndexOfChar(desc, ';', x);
      if k == -1 then None else Scan(desc, k + 1, count + 1)
    else if desc[x] == '[' then
      var k := IndexOfChar(desc, ';', x);
      var z := if k == -1 then IndexOfChar(desc, ')', x) else k;
      assert z != -1 by {
        if k == -1 { assert desc[|desc| - 1] == ')'; }
      }
      Scan(desc, z + 1, count + 1)
    else if desc[x] == ')' then Some(count)
    else
      var stop := NextStop(desc, x);
      Scan(desc, stop + 1, count + (stop - x))
  }

  /**
   * `resolveParamCount(raw)`. A descriptor starting with `()` counts zero;
   * otherwise the text from after the first `(` to the first `)` inclusive
   * is scanned, and an empty text counts zero. `None` where the source
   * throws (the first `)` comes before the first `(`) or never returns.
   */
  function ParamCount(raw: string): Option<nat> {
    if StartsWith(raw, "()") then Some(0)
    else
      var open := IndexOfChar(raw, '(', 0);
      var close := IndexOfChar(raw, ')', 0);
      if open > close then None
      else
        var desc := raw[open + 1..close + 1];
        if desc == [] then Some(0) else Scan(desc, 0, 0)
  }

  /** `resolveParamCount`, step by step. */
  method ResolveParamCount(raw: string) returns (r: Option<nat>)
    ensures r == ParamCount(raw)
  {
    if StartsWith(raw, "()") {
      return Some(0);
    }
    var open := IndexOfChar(raw, '(', 0);
    var close := IndexOfChar(raw, ')', 0);
    if open > close {
      // `substring` throws when its start passes its end.
      return None;
    }
    var desc := raw[open + 1..close + 1];
    // `isBlank`: the text ends in `)` unless it is empty.
    if desc == [] {
      return Some(0);
    }
    assert desc[|desc| - 1] == raw[close] == ')';
    r := CountParams(desc);
  }

  /** The counting loop of `resolveParamCount` over the text between the parentheses. */
  method CountParams(desc: string) returns (r: Option<nat>)
    requires |desc| > 0 && desc[|desc| - 1] == ')'
    ensures r == Scan(desc, 0, 0)
  {
    var count := 0;
    var x := 0;
    while x < |desc| - 1
      invariant x <= |desc|
      invariant Scan(desc, x, count) == Scan(desc, 0, 0)
      decreases |desc| - x
    {
      var index := desc[x];
      if index == 'L' {
        count := count + 1;
        var z := IndexOfChar(desc, ';', x);
        if z == -1 {
          // `x` steps back by one and forward by one: the loop never ends.
          return None;
        }
        x := z + 1;
        continue;
      }
      if index == '[' {
        count := count + 1;
        var z := IndexOfChar(desc, ';', x);
        if z == -1 {
          z := IndexOfChar(desc, ')', x);
          assert z != -1 by { assert desc[|desc| - 1] == ')'; }
        }
        x := z + 1;
        continue;
      }
      if index == ')' {
        break;
      }
      ghost var start := x;
      ghost var count0 := count;
      while index != ';' && index != ')'
        invariant start <= x < |desc| && index == desc[x]
        invariant count == count0 + (x - start)
        invariant forall k :: start <= k < x ==> desc[k] != ';' && desc[k] != ')'
        decreases |desc| - x
      {
        x := x + 1;
        index := desc[x];
        count := count + 1;
      }
      assert x == NextStop(desc, start);
      x := x + 1;
    }
    return Some(count);
  }

  /** The scan finds the `;` that ends a well-formed class type where the type itself ends. */
  lemma ClassTypeSemicolon(p: string, x: nat)
    requires x < |p| && p[x] == 'L' && FieldTypeEnd(p, x).Some?
    ensures IndexOfChar(p + ")", ';', x) == FieldTypeEnd(p, x).value - 1
  {
    var desc := p + ")";
    var k := IndexOfChar(p, ';', x + 1);
    assert desc[k] == p[k] == ';';
    forall j | x <= j < k
      ensures desc[j] != ';'
    {
      assert desc[j] == p[j];
    }
    IndexOfCharIs(desc, ';', x, k);
  }

  /** The scan stops with its count once it reaches the closing `)`. */
  lemma ScanEnd(desc: string, x: nat, count: nat)
    requires |desc| > 0 && desc[|desc| - 1] == ')' && x >= |desc| - 1
    ensures Scan(desc, x, count) == Some(count)
  {
  }

  /** One step of the scan over an array type. */
  lemma ScanArrayStep(desc: string, x: nat, count: nat, z: nat)
    requires |desc| > 0 && desc[|desc| - 1] == ')'
    requires x < |desc| - 1 && desc[x] == '['
    requires z == (if IndexOfChar(desc, ';', x) == -1 then IndexOfChar(desc, ')', x) else IndexOfChar(desc, ';', x))
    ensures Scan(desc, x, count) == Scan(desc, z + 1, count + 1)
  {
  }

  /** One step of the scan over any other character: it counts every character up to the next `;` or `)`. */
  lemma ScanOtherStep(desc: string, x: nat, count: nat)
    requires |desc| > 0 && desc[|desc| - 1] == ')'
    requires x < |desc| - 1 && desc[x] != 'L' && desc[x] != '[' && desc[x] != ')'
    ensures Scan(desc, x, count) == Scan(desc, NextStop(desc, x) + 1, count + (NextStop(desc, x) - x))
  {
  }

  /** The scan ends on every well-formed parameter list started at a parameter boundary. */
  lemma {:induction false} ScanTerminates(p: string, x: nat, count: nat)
    requires ')' !in p
    requires ParamsWellFormed(p, x)
    ensures Scan(p + ")", x, count).Some?
    decreases |p| - x, 1
  {
    if x >= |p| {
      ScanEnd(p + ")", x, count);
    } else if p[x] == 'L' {
      ScanTerminatesClass(p, x, count);
    } else if p[x] == '[' {
      ScanTerminatesArray(p, x, count);
    } else {
      ScanTerminatesBase(p, x, count);
    }
  }

  lemma {:induction false} ScanTerminatesClass(p: string, x: nat, count: nat)
    requires ')' !in p
    requires ParamsWellFormed(p, x) && x < |p| && p[x] == 'L'
    ensures Scan(p + ")", x, count).Some?
    decreases |p| - x, 0
  {
    var desc := p + ")";
    var e := FieldTypeEnd(p, x).value;
    assert desc[x] == p[x];
    ClassTypeSemicolon(p, x);
    ScanClassStep(desc, x, count);
    ScanTerminates(p, e, count + 1);
  }

  lemma {:induction false} ScanTerminatesArray(p: string, x: nat, count: nat)
    requires ')' !in p
    requires ParamsWellFormed(p, x) && x < |p| && p[x] == '['
    ensures Scan(p + ")", x, count).Some?
    decreases |p| - x, 0
  {
    var desc := p + ")";
    assert desc[x] == p[x];
    var k := IndexOfChar(desc, ';', x);
    if k != -1 {
      assert desc[k] == p[k];
      SemicolonEndsType(p, x, k);
      ScanArrayStep(desc, x, count, k);
      ScanTerminates(p, k + 1, count + 1);
    } else {
      forall j | x <= j < |p|
        ensures desc[j] != ')'
      {
        assert desc[j] == p[j] && p[j] in p;
      }
      IndexOfCharIs(desc, ')', x, |p|);
      ScanArrayStep(desc, x, count, |p|);
      ScanEnd(desc, |p| + 1, count + 1);
    }
  }

  lemma {:induction false} ScanTerminatesBase(p: string, x: nat, count: nat)
    requires ')' !in p
    requires ParamsWellFormed(p, x) && x < |p| && p[x] != 'L' && p[x] != '['
    ensures Scan(p + ")", x, count).Some?
    decreases |p| - x, 0
  {
    var stop := BaseStop(p, x, count);
    if stop < |p| {
      ScanTerminates(p, stop + 1, count + (stop - x));
    } else {
      ScanEnd(p + ")", stop + 1, count + (stop - x));
    }
  }

  /** Where the scan goes from a base type: to the next `;`, which ends a parameter, or to the closing `)`. */
  lemma BaseStop(p: string, x: nat, count: nat) returns (stop: nat)
    requires ')' !in p
    requires ParamsWellFormed(p, x) && x < |p| && p[x] != 'L' && p[x] != '['
    ensures x <= stop <= |p|
    ensures Scan(p + ")", x, count) == Scan(p + ")", stop + 1, count + (stop - x))
    ensures stop < |p| ==> ParamsWellFormed(p, stop + 1)
  {
    var desc := p + ")";
    assert desc[x] == p[x] && p[x] in p;
    stop := NextStop(desc, x);
    ScanOtherStep(desc, x, count);
    if stop < |p| {
      assert desc[stop] == p[stop] && p[stop] in p;
      SemicolonEndsType(p, x, stop);
    }
  }

  /** On every well-formed method descriptor `resolveParamCount` returns. */
  lemma WellFormedTerminates(d: string)
    requires IsMethodDescriptor(d)
    ensures ParamCount(d).Some?
  {
    if !StartsWith(d, "()") {
      var j := IndexOfChar(d, ')', 0);
      assert IndexOfChar(d, '(', 0) == 0;
      var p := d[1..j];
      assert d[1..j + 1] == p + ")";
      assert forall k :: 0 <= k < |p| ==> p[k] == d[k + 1];
      ScanTerminates(p, 0, 0);
    }
  }

  /** Where `resolveParamCount` finds its parentheses in `(` body `)` ret. */
  lemma ParenthesesOf(body: string, ret: string)
    requires |body| > 0 && ')' !in body
    ensures !StartsWith("(" + body + ")" + ret, "()")
    ensures IndexOfChar("(" + body + ")" + ret, '(', 0) == 0
    ensures IndexOfChar("(" + body + ")" + ret, ')', 0) == |body| + 1
  {
    var raw := "(" + body + ")" + ret;
    assert raw[0] == '(' && raw[|body| + 1] == ')';
    forall k | 1 <= k <= |body|
      ensures raw[k] != ')'
    {
      assert raw[k] == body[k - 1];
      assert body[k - 1] in body;
    }
    assert raw[..2][1] == raw[1];
    IndexOfCharIs(raw, '(', 0, 0);
    IndexOfCharIs(raw, ')', 0, |body| + 1);
  }

  /** A descriptor with a non-empty parameter text and no other `)` is counted by scanning that text and its `)`. */
  lemma ScannedText(body: string, ret: string)
    requires |body| > 0 && ')' !in body
    ensures ParamCount("(" + body + ")" + ret) == Scan(body + ")", 0, 0)
  {
    var raw := "(" + body + ")" + ret;
    ParenthesesOf(body, ret);
    assert raw[1..|body| + 2] == body + ")";
  }

  /** A run of base-type parameters counts one per letter. */
  lemma BaseParamsCount(bs: string, ret: string)
    requires |bs| > 0 && forall i :: 0 <= i < |bs| ==> IsBaseType(bs[i])
    ensures ParamCount("(" + bs + ")" + ret) == Some(|bs|)
  {
    var desc := bs + ")";
    forall k | 0 <= k < |bs|
      ensures desc[k] != ';' && desc[k] != ')'
    {
      assert desc[k] == bs[k];
    }
    assert ')' !in bs;
    ScannedText(bs, ret);
    assert NextStop(desc, 0) == |bs|;
  }

  /** The text of a list of class-type parameters. */
  function ClassParams(names: seq<string>): string {
    if names == [] then "" else "L" + names[0] + ";" + ClassParams(names[1..])
  }

  /** One class-type parameter `L` name `;` starting at `x`: the `;` that ends it and what follows. */
  lemma ClassParamAt(desc: string, x: nat, n: string, tail: string)
    requires x <= |desc| && desc[x..] == "L" + n + ";" + tail && ';' !in n
    ensures x + |n| + 2 <= |desc| && desc[x] == 'L'
    ensures IndexOfChar(desc, ';', x) == x + |n| + 1
    ensures desc[x + |n| + 2..] == tail
  {
    var rest := desc[x..];
    assert desc[x] == rest[0];
    forall j | x <= j < x + |n| + 1
      ensures desc[j] != ';'
    {
      if j > x {
        assert desc[j] == rest[j - x] == n[j - x - 1];
        assert n[j - x - 1] in n;
      }
    }
    assert desc[x + |n| + 1] == rest[|n| + 1] == ';';
    IndexOfCharIs(desc, ';', x, x + |n| + 1);
    assert desc[x + |n| + 2..] == rest[|n| + 2..];
  }

  lemma {:induction false} ScanClassParams(desc: string, x: nat, names: seq<string>, count: nat)
    requires |desc| > 0 && desc[|desc| - 1] == ')'
    requires x <= |desc| && desc[x..] == ClassParams(names) + ")"
    requires forall i :: 0 <= i < |names| ==> ';' !in names[i]
    ensures Scan(desc, x, count) == Some(count + |names|)
    decreases |names|
  {
    if names == [] {
      assert x == |desc| - 1;
    } else {
      var n := names[0];
      var tail := ClassParams(names[1..]) + ")";
      assert desc[x..] == "L" + n + ";" + tail;
      ClassParamAt(desc, x, n, tail);
      ScanClassStep(desc, x, count);
      ScanClassParams(desc, x + |n| + 2, names[1..], count + 1);
    }
  }

  /** One step of the scan over a class type whose `;` is present. */
  lemma ScanClassStep(desc: string, x: nat, count: nat)
    requires |desc| > 0 && desc[|desc| - 1] == ')'
    requires x < |desc| - 1 && desc[x] == 'L' && IndexOfChar(desc, ';', x) != -1
    ensures Scan(desc, x, count) == Scan(desc, IndexOfChar(desc, ';', x) + 1, count + 1)
  {
  }

  lemma {:induction false} ClassParamsNoClose(names: seq<string>)
    requires forall n :: n in names ==> ')' !in n
    ensures ')' !in ClassParams(names)
    decreases names
  {
    if names != [] {
      assert forall n :: n in names[1..] ==> n in names;
      ClassParamsNoClose(names[1..]);
    }
  }

  /** A list of class-type parameters counts one per class. */
  lemma ClassParamsCount(names: seq<string>, ret: string)
    requires forall n :: n in names ==> ';' !in n && ')' !in n
    ensures ParamCount("(" + ClassParams(names) + ")" + ret) == Some(|names|)
  {
    var ps := ClassParams(names);
    if names == [] {
      assert ("(" + ps + ")" + ret)[..2] == "()";
    } else {
      ClassParamsNoClose(names);
      ScannedText(ps, ret);
      var desc := ps + ")";
      assert desc[0..] == desc;
      assert forall i :: 0 <= i < |names| ==> names[i] in names;
      ScanClassParams(desc, 0, names, 0);
    }
  }

  /** A base-type parameter followed by a class type counts every character up to the `;`. */
  lemma BaseThenClassOvercounts(b: char, n: string, ret: string)
    requires IsBaseType(b) && ';' !in n && ')' !in n
    ensures ParamCount("(" + [b] + "L" + n + ";)" + ret) == Some(|n| + 2)
  {
    var body := [b] + "L" + n + ";";
    assert "(" + [b] + "L" + n + ";)" + ret == "(" + body + ")" + ret;
    forall k | 0 <= k < |n|
      ensures body[k + 2] == n[k] && n[k] != ';' && n[k] != ')'
    {
      assert n[k] in n;
    }
    assert ')' !in body by {
      forall k | 0 <= k < |body|
        ensures body[k] != ')'
      {
        if 2 <= k < |n| + 2 {
          assert body[k] == n[k - 2];
        }
      }
    }
    ScannedText(body, ret);
    var desc := body + ")";
    assert desc[|n| + 2] == ';';
    assert NextStop(desc, 0) == |n| + 2;
  }

  /** An array parameter with no `;` after it swallows the parameters that follow. */
  lemma ArrayAbsorbsBaseParams(b: char, bs: string, ret: string)
    requires IsBaseType(b) && forall i :: 0 <= i < |bs| ==> IsBaseType(bs[i])
    ensures ParamCount("([" + [b] + bs + ")" + ret) == Some(1)
  {
    var body := "[" + [b] + bs;
    assert "([" + [b] + bs + ")" + ret == "(" + body + ")" + ret;
    var desc := body + ")";
    forall k | 0 <= k < |body|
      ensures desc[k] != ';' && desc[k] != ')'
    {
      if k >= 2 {
        assert desc[k] == bs[k - 2];
      }
    }
    assert ')' !in body;
    ScannedText(body, ret);
    IndexOfCharAbsent(desc, ';', 0);
    IndexOfCharIs(desc, ')', 0, |body|);
  }

  // ---------------------------------------------------------------------
  // Rewriting one method (LazyClassTransformer.java, lines 53-77, 194-211)
  // ---------------------------------------------------------------------

  /** The method with the contract for its parameter count appended to its invisible annotations. */
  function WithContract(m: MethodNode): (r: MethodNode)
    requires IsMethodDescriptor(m.desc)
    ensures ParamCount(m.desc).Some?
    ensures r.invisibleAnnotations.Some?
    ensures r == m.(invisibleAnnotations := r.invisibleAnnotations)
    ensures AnnotationList(r.invisibleAnnotations)
            == AnnotationList(m.invisibleAnnotations) + [ContractAnnotation(ParamCount(m.desc).value)]
  {
    WellFormedTerminates(m.desc);
    var contract := ContractAnnotation(ParamCount(m.desc).value);
    m.(invisibleAnnotations := Some(AnnotationList(m.invisibleAnnotations) + [contract]))
  }

  /** `handleJetbrainsAnnotation`. */
  method HandleJetbrainsAnnotation(m: MethodNode) returns (r: MethodNode)
    requires IsMethodDescriptor(m.desc)
    ensures r == WithContract(m)
  {
    var paramCount := ResolveParamCount(m.desc);
    WellFormedTerminates(m.desc);
    var value := BuildContractValue(paramCount.value);
    var contract := Annotation(CONTRACT_DESC, ["value", value]);
    var annotations := if m.invisibleAnnotations == None then [] else m.invisibleAnnotations.value;
    r := m.(invisibleAnnotations := Some(annotations + [contract]));
  }

  predicate IsInitializer(m: MethodNode) {
    m.name == "<init>" || m.name == "<clinit>"
  }

  /**
   * One iteration of the rewrite loop: a method with code loses its code,
   * try/catch table and local-variable table and gets a default return;
   * a non-initializer that needs one also gets a contract.
   */
  function Rewritten(m: MethodNode, cfg: Config): (r: MethodNode)
    requires IsMethodDescriptor(m.desc)
    ensures r.access == m.access && r.name == m.name && r.desc == m.desc
    ensures r.visibleAnnotations == m.visibleAnnotations
    ensures m.instructions == [] ==> r == m
    ensures m.instructions != [] ==>
              r.tryCatchBlocks == [] && r.localVariables == [] &&
              1 <= |r.instructions| <= 2 && IsReturnOpcode(r.instructions[|r.instructions| - 1].opcode)
    ensures m.instructions != [] && IsInitializer(m) ==> r.instructions == [Insn(RETURN)]
    ensures m.instructions != [] && !IsInitializer(m) && !IsNarrowIntegral(ReturnDescriptor(m.desc)) ==>
              StubVerifies(r.instructions, ReturnKindOf(ReturnDescriptor(m.desc)))
    ensures r.invisibleAnnotations != m.invisibleAnnotations <==>
              m.instructions != [] && !IsInitializer(m) && cfg.doJetbrainsContracts && MethodRequiresContract(m)
    ensures r.invisibleAnnotations != m.invisibleAnnotations ==>
              ParamCount(m.desc).Some? &&
              AnnotationList(r.invisibleAnnotations)
                == AnnotationList(m.invisibleAnnotations) + [ContractAnnotation(ParamCount(m.desc).value)]
  {
    if |m.instructions| == 0 then m
    else
      var cleared := m.(instructions := [], tryCatchBlocks := [], localVariables := []);
      if IsInitializer(m) then cleared.(instructions := [Insn(RETURN)])
      else
        StubVerifiesUnlessNarrow(m.desc);
        var stubbed := cleared.(instructions := ResolveReturnType(m.desc));
        if MethodRequiresContract(stubbed) && cfg.doJetbrainsContracts then
          var r := WithContract(stubbed);
          assert AnnotationList(r.invisibleAnnotations) != AnnotationList(m.invisibleAnnotations);
          r
        else stubbed
  }

  /** The method list after `transform`: the retained methods, each rewritten. */
  function TransformedMethods(methods: seq<MethodNode>, cfg: Config): (r: seq<MethodNode>)
    requires forall m :: m in methods ==> IsMethodDescriptor(m.desc)
    ensures |r| == |RetainedMethods(methods, cfg)| <= |methods|
    ensures forall k :: 0 <= k < |r| ==>
              r[k].name == RetainedMethods(methods, cfg)[k].name &&
              r[k].desc == RetainedMethods(methods, cfg)[k].desc &&
              r[k].access == RetainedMethods(methods, cfg)[k].access &&
              (r[k].instructions == [] <==> RetainedMethods(methods, cfg)[k].instructions == [])
  {
    var kept := RetainedMethods(methods, cfg);
    seq(|kept|, k requires 0 <= k < |kept| => Rewritten(kept[k], cfg))
  }

  // ---------------------------------------------------------------------
  // What the passes keep
  // ---------------------------------------------------------------------

  /** The survivors keep their relative order. */
  lemma RetainedInOrder(methods: seq<MethodNode>, fields: seq<FieldNode>, cfg: Config)
    ensures IsSubsequence(RetainedMethods(methods, cfg), methods)
    ensures IsSubsequence(RetainedFields(fields, cfg), fields)
  {
    RemoveIsSubsequence(methods, MethodDrop(cfg));
    RemoveIsSubsequence(fields, FieldDrop(cfg));
  }

  /**
   * The gate is inverted: a method is only ever removed when it carries
   * annotations in both lists and none of them is a retention annotation, so
   * an unannotated private or native method survives.
   */
  lemma MethodKeptUnlessAnnotated(methods: seq<MethodNode>, cfg: Config, m: MethodNode)
    requires m in methods
    requires AnnotationList(m.visibleAnnotations) == [] || AnnotationList(m.invisibleAnnotations) == []
    ensures m in RetainedMethods(methods, cfg)
  {
  }

  /** A method with a retention annotation in either list survives. */
  lemma RetentionAnnotatedMethodKept(methods: seq<MethodNode>, cfg: Config, m: MethodNode, a: Annotation)
    requires m in methods
    requires a in AnnotationList(m.visibleAnnotations) + AnnotationList(m.invisibleAnnotations)
    requires a.desc in cfg.retentionAnnotations
    ensures m in RetainedMethods(methods, cfg)
  {
    if a in AnnotationList(m.visibleAnnotations) {
      RetentionAnnotationBlocksGate(m.visibleAnnotations, cfg.retentionAnnotations, a);
    } else {
      RetentionAnnotationBlocksGate(m.invisibleAnnotations, cfg.retentionAnnotations, a);
    }
  }

  /** Only private or native methods are candidates, and only when their pass is on. */
  lemma RemovedMethodIsGated(methods: seq<MethodNode>, cfg: Config, m: MethodNode)
    requires m in methods && m !in RetainedMethods(methods, cfg)
    ensures (!cfg.includePrivateMethods && HasFlag(m.access, ACC_PRIVATE)) ||
            (!cfg.includeNativeMethods && HasFlag(m.access, ACC_NATIVE))
    ensures CheckMethodAnnotations(m, cfg.retentionAnnotations)
  {
  }

  /** With both method passes off the list is untouched. */
  lemma AllMethodsIncluded(methods: seq<MethodNode>, cfg: Config)
    requires cfg.includePrivateMethods && cfg.includeNativeMethods
    ensures RetainedMethods(methods, cfg) == methods
  {
    RemoveNothing(methods, MethodDrop(cfg));
  }

  /**
   * The gate never lets a field through unless it has annotations in both
   * lists and none of them is a retention annotation, so an unannotated
   * field survives whatever its category.
   */
  lemma FieldKeptUnlessAnnotated(fields: seq<FieldNode>, cfg: Config, f: FieldNode)
    requires f in fields
    requires AnnotationList(f.visibleAnnotations) == [] || AnnotationList(f.invisibleAnnotations) == []
    ensures f in RetainedFields(fields, cfg)
  {
  }

  /** A field that is neither public nor private is in no category and survives. */
  lemma PackagePrivateFieldKept(fields: seq<FieldNode>, cfg: Config, f: FieldNode)
    requires f in fields
    requires !HasFlag(f.access, ACC_PUBLIC) && !HasFlag(f.access, ACC_PRIVATE)
    ensures f in RetainedFields(fields, cfg)
  {
  }

  /** A field with a retention annotation in either list survives. */
  lemma RetentionAnnotatedFieldKept(fields: seq<FieldNode>, cfg: Config, f: FieldNode, a: Annotation)
    requires f in fields
    requires a in AnnotationList(f.visibleAnnotations) + AnnotationList(f.invisibleAnnotations)
    requires a.desc in cfg.retentionAnnotations
    ensures f in RetainedFields(fields, cfg)
  {
    if a in AnnotationList(f.visibleAnnotations) {
      RetentionAnnotationBlocksGate(f.visibleAnnotations, cfg.retentionAnnotations, a);
    } else {
      RetentionAnnotationBlocksGate(f.invisibleAnnotations, cfg.retentionAnnotations, a);
    }
  }

  /** With every category included the field list is untouched. */
  lemma AllFieldsIncluded(fields: seq<FieldNode>, cfg: Config)
    requires cfg.includePubStaticFields && cfg.includePriStaticFields
    requires cfg.includePubNonStaticFields && cfg.includePriNonStaticFields
    ensures RetainedFields(fields, cfg) == fields
  {
    RemoveNothing(fields, FieldDrop(cfg));
  }

  // ---------------------------------------------------------------------
  // The transformer (LazyClassTransformer.java, lines 19-116)
  // ---------------------------------------------------------------------

  /** ASM's `ClassNode` as far as the transformer changes it. */
  class ClassNode {
    var methods: seq<MethodNode>
    var fields: seq<FieldNode>

    constructor (methods: seq<MethodNode>, fields: seq<FieldNode>)
      ensures this.methods == methods && this.fields == fields
    {
      this.methods := methods;
      this.fields := fields;
    }
  }

  class LazyClassTransformer {
    const node: ClassNode
    const config: Config

    /** The parsed class and the policy; reading and writing bytes belong to the codec. */
    constructor (node: ClassNode, config: Config)
      ensures this.node == node && this.config == config
    {
      this.node := node;
      this.config := config;
    }

    /** `transform`, up to re-encoding the class. */
    method Transform()
      requires forall m :: m in node.methods ==> IsMethodDescriptor(m.desc)
      modifies node
      ensures node.methods == TransformedMethods(old(node.methods), config)
      ensures node.fields == RetainedFields(old(node.fields), config)
    {
      PruneMethods();
      RewriteMethods();
      PruneFields();
    }

    /** The two method passes (LazyClassTransformer.java, lines 39-51). */
    method PruneMethods()
      modifies node
      ensures node.methods == RetainedMethods(old(node.methods), config)
      ensures node.fields == old(node.fields)
    {
      ghost var methods0 := node.methods;
      var retention := config.retentionAnnotations;
      if !config.includePrivateMethods {
        node.methods := Remove(node.methods, PrivatePass(retention));
      }
      if !config.includeNativeMethods {
        node.methods := Remove(node.methods, NativePass(retention));
      }
      MethodPassesRetain(methods0, config);
    }

    /** The rewrite loop (LazyClassTransformer.java, lines 53-77). */
    method RewriteMethods()
      requires forall m :: m in node.methods ==> IsMethodDescriptor(m.desc)
      modifies node
      ensures |node.methods| == |old(node.methods)|
      ensures forall k :: 0 <= k < |node.methods| ==> node.methods[k] == Rewritten(old(node.methods)[k], config)
      ensures node.fields == old(node.fields)
    {
      ghost var kept := node.methods;
      var i := 0;
      while i < |node.methods|
        invariant |node.methods| == |kept| && i <= |kept|
        invariant forall k :: 0 <= k < i ==> node.methods[k] == Rewritten(kept[k], config)
        invariant forall k :: i <= k < |kept| ==> node.methods[k] == kept[k]
        invariant node.fields == old(node.fields)
      {
        var mn := node.methods[i];
        assert mn in kept;
        if |mn.instructions| > 0 {
          mn := mn.(instructions := [], tryCatchBlocks := [], localVariables := []);
          if mn.name == "<init>" || mn.name == "<clinit>" {
            mn := mn.(instructions := [Insn(RETURN)]);
          } else {
            var list := ResolveReturnType(mn.desc);
            mn := mn.(instructions := list);
            if MethodRequiresContract(mn) && config.doJetbrainsContracts {
              mn := HandleJetbrainsAnnotation(mn);
            }
          }
          node.methods := node.methods[i := mn];
        }
        i := i + 1;
      }
    }

    /** The four field passes (LazyClassTransformer.java, lines 79-112). */
    method PruneFields()
      modifies node
      ensures node.fields == RetainedFields(old(node.fields), config)
      ensures node.methods == old(node.methods)
    {
      ghost var fields0 := node.fields;
      var retention := config.retentionAnnotations;
      if !config.includePubStaticFields {
        node.fields := Remove(node.fields, FieldPass(PublicStatic, retention));
      }
      if !config.includePubNonStaticFields {
        node.fields := Remove(node.fields, FieldPass(PublicInstance, retention));
      }
      if !config.includePriNonStaticFields {
        node.fields := Remove(node.fields, FieldPass(PrivateInstance, retention));
      }
      if !config.includePriStaticFields {
        node.fields := Remove(node.fields, FieldPass(PrivateStatic, retention));
      }
      FieldPassesRetain(fields0, config);
    }
  }
}
