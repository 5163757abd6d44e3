/**
 * The parts of the class-file format that the stripper inspects, as plain
 * values: access flags (tables 4.1-B, 4.5-A and 4.6-A of the Java Virtual
 * Machine Specification), the opcodes of the stub bodies (section 6.5),
 * descriptors (section 4.3) and the member records the ASM tree API hands
 * over. Decoding and encoding the bytes is the codec's business.
 */
module Jvm {
  import opened Wrappers
  import opened Strings

  newtype byte = x: int | 0 <= x < 256
  type Bytes = seq<byte>

  // Access flags.
  const ACC_PUBLIC: nat := 0x0001
  const ACC_PRIVATE: nat := 0x0002
  const ACC_PROTECTED: nat := 0x0004
  const ACC_STATIC: nat := 0x0008
  const ACC_FINAL: nat := 0x0010
  const ACC_TRANSIENT: nat := 0x0080
  const ACC_NATIVE: nat := 0x0100
  const ACC_ABSTRACT: nat := 0x0400
  const ACC_ENUM: nat := 0x4000

  /** The bit `flag` (a power of two) is set in `access`: Java's `(access & flag) != 0`. */
  predicate HasFlag(access: nat, flag: nat)
    requires flag > 0
  {
    (access / flag) % 2 == 1
  }

  // Opcodes of the instructions a stub body is made of.
  const ACONST_NULL: nat := 1
  const ICONST_0: nat := 3
  const LCONST_0: nat := 9
  const FCONST_0: nat := 11
  const DCONST_0: nat := 14
  const IRETURN: nat := 172
  const LRETURN: nat := 173
  const FRETURN: nat := 174
  const DRETURN: nat := 175
  const ARETURN: nat := 176
  const RETURN: nat := 177

  /** One instruction of a method body; only its opcode matters here. */
  datatype Insn = Insn(opcode: nat)

  /** An annotation: its type descriptor and its element name/value list. */
  datatype Annotation = Annotation(desc: string, values: seq<string>)

  datatype TryCatchBlock = TryCatchBlock(start: nat, end: nat, handler: nat, exceptionType: Option<string>)

  datatype LocalVariable = LocalVariable(name: string, desc: string, index: nat)

  /** A field's `ConstantValue`: absent, a string, or a numeric constant. */
  datatype ConstValue = NoValue | StringValue(s: string) | NumericValue(n: int)

  /** ASM's `MethodNode`, restricted to what the transformer reads or writes. */
  datatype MethodNode = MethodNode(
    access: nat,
    name: string,
    desc: string,
    instructions: seq<Insn>,
    tryCatchBlocks: seq<TryCatchBlock>,
    localVariables: seq<LocalVariable>,
    visibleAnnotations: Option<seq<Annotation>>,
    invisibleAnnotations: Option<seq<Annotation>>)

  /** ASM's `FieldNode`, restricted to what the transformer reads. */
  datatype FieldNode = FieldNode(
    access: nat,
    name: string,
    desc: string,
    value: ConstValue,
    visibleAnnotations: Option<seq<Annotation>>,
    invisibleAnnotations: Option<seq<Annotation>>)

  /** One call a class visitor forwards to its `ClassWriter`; the writer's state is the list of these. */
  datatype WriterEvent =
    | ClassHeader(version: int, access: nat, name: string, signature: Option<string>,
                  superName: Option<string>, interfaces: seq<string>)
    | OuterClass(owner: string, methodName: Option<string>, methodDescriptor: Option<string>)
    | InnerClass(innerClass: string, outerName: Option<string>, innerName: Option<string>, access: nat)
    | PermittedSubclass(subclass: string)
    | NestMember(member: string)
    | ClassAnnotation(descriptor: string, visible: bool)
    | TypeAnnotation(typeRef: int, typePath: Option<string>, descriptor: string, visible: bool)
    | ClassAttribute(attributeType: string, content: Bytes)
    | Method(access: nat, name: string, descriptor: string, signature: Option<string>,
             exceptions: Option<seq<string>>, code: seq<Insn>)
    | Field(access: nat, name: string, descriptor: string, signature: Option<string>, value: ConstValue)

  // Descriptors (section 4.3 of the JVM Specification).

  predicate IsBaseType(c: char) {
    c == 'B' || c == 'C' || c == 'D' || c == 'F' || c == 'I' || c == 'J' || c == 'S' || c == 'Z'
  }

  /**
   * The end (exclusive) of the field type that starts at index `i` of `p`,
   * if one starts there: a base type letter, `L` ClassName `;`, or `[`
   * followed by a field type. A class name is taken to run to the first `;`.
   */
  function FieldTypeEnd(p: string, i: nat): (r: Option<nat>)
    ensures r.Some? ==> i < r.value <= |p|
    ensures r.Some? ==> forall j :: i <= j < r.value - 1 ==> p[j] != ';'
    decreases |p| - i
  {
    if i >= |p| then None
    else if IsBaseType(p[i]) then Some(i + 1)
    else if p[i] == 'L' then
      var k := IndexOfChar(p, ';', i + 1);
      if k <= i + 1 then None else Some(k + 1)
    else if p[i] == '[' then FieldTypeEnd(p, i + 1)
    else None
  }

  /** From index `i` on, `p` is a sequence of field types. */
  predicate ParamsWellFormed(p: string, i: nat)
    decreases |p| - i
  {
    i == |p| || (FieldTypeEnd(p, i).Some? && ParamsWellFormed(p, FieldTypeEnd(p, i).value))
  }

  predicate IsReturnDescriptor(r: string) {
    r == "V" || FieldTypeEnd(r, 0) == Some(|r|)
  }

  /**
   * A method descriptor `(` parameters `)` return type. The parameters are
   * read up to the first `)`, so a class name containing `)` in a parameter
   * is not covered.
   */
  predicate IsMethodDescriptor(d: string) {
    |d| >= 2 && d[0] == '(' &&
    var j := IndexOfChar(d, ')', 0);
    j > 0 && ParamsWellFormed(d[1..j], 0) && IsReturnDescriptor(d[j + 1..])
  }

  /** What ASM's `Type.getType(desc).getReturnType().getDescriptor()` yields: the text after the parameters. */
  function ReturnDescriptor(d: string): string
    requires IsMethodDescriptor(d)
  {
    d[IndexOfChar(d, ')', 0) + 1..]
  }

  /** A return instruction of section 6.5: `ireturn` to `areturn`, or `return`. */
  predicate IsReturnOpcode(op: nat) {
    IRETURN <= op <= RETURN
  }

  // The part of the type checker of section 4.10.1 of the JVM Specification that a stub body meets:
  // what a constant instruction pushes and what a return instruction expects.

  /** The verification type of one operand-stack value. */
  datatype VType = IntType | LongType | FloatType | DoubleType | Reference

  /** What a method with a given return descriptor must return. */
  datatype ReturnKind = VoidReturn | ValueReturn(t: VType)

  function ReturnKindOf(ret: string): ReturnKind {
    if ret == "V" || ret == [] then VoidReturn
    else if ret[0] == 'Z' || ret[0] == 'B' || ret[0] == 'C' || ret[0] == 'S' || ret[0] == 'I' then ValueReturn(IntType)
    else if ret[0] == 'J' then ValueReturn(LongType)
    else if ret[0] == 'F' then ValueReturn(FloatType)
    else if ret[0] == 'D' then ValueReturn(DoubleType)
    else ValueReturn(Reference)
  }

  /** The value a constant-pushing opcode leaves on the stack. */
  function Pushes(op: nat): Option<VType> {
    if op == ACONST_NULL then Some(Reference)
    else if op == ICONST_0 then Some(IntType)
    else if op == LCONST_0 then Some(LongType)
    else if op == FCONST_0 then Some(FloatType)
    else if op == DCONST_0 then Some(DoubleType)
    else None
  }

  /** The kind of method a return opcode may end. */
  function Returns(op: nat): Option<ReturnKind> {
    if op == IRETURN then Some(ValueReturn(IntType))
    else if op == LRETURN then Some(ValueReturn(LongType))
    else if op == FRETURN then Some(ValueReturn(FloatType))
    else if op == DRETURN then Some(ValueReturn(DoubleType))
    else if op == ARETURN then Some(ValueReturn(Reference))
    else if op == RETURN then Some(VoidReturn)
    else None
  }

  /**
   * A straight-line body with an empty starting stack type-checks against
   * the method's return kind: a lone `return` in a void method, or one
   * pushed constant returned by the matching instruction.
   */
  predicate StubVerifies(code: seq<Insn>, kind: ReturnKind) {
    (code == [Insn(RETURN)] && kind == VoidReturn) ||
    (|code| == 2 && Pushes(code[0].opcode).Some? &&
     Returns(code[1].opcode) == Some(ValueReturn(Pushes(code[0].opcode).value)) &&
     kind == ValueReturn(Pushes(code[0].opcode).value))
  }

  /** After any `;` of a well-formed parameter list a new parameter starts (or the list ends). */
  lemma {:induction false} SemicolonEndsType(p: string, i: nat, k: nat)
    requires ParamsWellFormed(p, i)
    requires i <= k < |p| && p[k] == ';'
    ensures ParamsWellFormed(p, k + 1)
    decreases |p| - i
  {
    var e := FieldTypeEnd(p, i).value;
    if k >= e {
      SemicolonEndsType(p, e, k);
    }
  }
}
