# Lazy, modelled in Dafny

Lazy turns a Java jar into a "stub" jar. The stub jar keeps the API surface of each class but drops method bodies and selected members, so other projects can compile against it. This project models the decision logic of Lazy and proves properties about it:

- **`LazyClassTransformer`** strips one parsed class:
  - It runs two `removeIf` passes over the methods: private methods, then native ones.
  - It runs four passes over the fields, one per access category.
  - Each removal is subject to the *annotation gate* (`checkAnnotations`).
  - It replaces every remaining method body with a default return chosen from the return descriptor.
  - It can append a JetBrains `@Contract` whose value has one `_` per parameter. The parameter count comes from `resolveParamCount`'s own scan of the descriptor.
- **Package patterns**:
  - `lazy/PackageUtils` (`isExempt`, `isExcluded`, `matchPatterns`) decides which packages are copied verbatim and which are left out.
  - `lazy/utils/PackageUtils.isBlacklistedPackage` is the cleaner's blacklist test.
- **The two `ClassExplorer` visitors** (lazy and cleaner) rebuild a class on their own `ClassWriter` as it is read:
  - They keep members by their exact access value.
  - They cancel classes at an abstract-class gate and, in the cleaner, at the blacklist.
  - They hand the finished class to the run.
- **`Lazy`**'s entry loop sends each class entry of the jar to one of three places:
  - the output verbatim (exempt);
  - nowhere (excluded, or failing);
  - the transformer.

How things are represented:

- The class-file codec (ASM's `ClassReader`/`ClassWriter`) sits outside the model:
  - Classes are values (`MethodNode`, `FieldNode`).
  - A writer's state is the list of calls forwarded to it (`WriterEvent`).
  - Encoding is a function parameter.
- Policy values are one immutable `Config` record.
- Counters are fields of `LazyRun.Lazy`.
- The stateful parts are classes whose methods are proved against recursive specification functions:
  - `LazyClassTransformer.LazyClassTransformer.Transform` against `RetainedMethods`, `RetainedFields` and `Rewritten`;
  - `Lazy.ProcessEntries` against `Dispatch`;
  - the pattern loops against `AnyPatternMatches` and `AnyBlacklisted`.

## Model

Source paths are relative to the repository root.

| member | source | states |
|---|---|---|
| LazyClassTransformer.RetentionAnnotationBlocksGate | src/main/java/life/savag3/lazy/LazyClassTransformer.java:147-150 | a member that carries a retention annotation in either annotation list never passes the removal gate |
| LazyClassTransformer.MethodPassesRetain | src/main/java/life/savag3/lazy/LazyClassTransformer.java:39-51 | the private pass followed by the native pass removes exactly the methods that are (private with private methods excluded, or native with native methods excluded) and pass the gate, keeping the rest in order |
| LazyClassTransformer.FieldPassesRetain | src/main/java/life/savag3/lazy/LazyClassTransformer.java:79-112 | the four field passes in source order remove exactly the fields whose category is switched off and that pass the gate |
| LazyClassTransformer.ResolveReturnType | src/main/java/life/savag3/lazy/LazyClassTransformer.java:159-186 | the stub body is one or two instructions ending in a return opcode, a two-instruction stub starts with a constant push, and every return descriptor other than `I`, `J`, `F`, `D` and `V` (so also `Z`, `B`, `C`, `S`) gets exactly `aconst_null; areturn` |
| LazyClassTransformer.StubVerifiesUnlessNarrow | src/main/java/life/savag3/lazy/LazyClassTransformer.java:159-186 | the stub type-checks against the method's return kind (a matching constant push and return instruction, or a lone `return` for void) exactly when the return type is not boolean, byte, char or short |
| LazyClassTransformer.NarrowIntegralGetsNullStub | src/main/java/life/savag3/lazy/LazyClassTransformer.java:181-184 | a boolean, byte, char or short method gets `aconst_null; areturn`, its return kind is integral, and the stub does not type-check |
| LazyClassTransformer.InitializerStubVerifies | src/main/java/life/savag3/lazy/LazyClassTransformer.java:62-63 | the bare `return` given to constructors and static initializers fits a void method |
| LazyClassTransformer.ContractExactlyOnNullStubs | src/main/java/life/savag3/lazy/LazyClassTransformer.java:256-271 | for a method that is neither private nor protected, a contract is required exactly when its stub pushes `null` |
| LazyClassTransformer.PlaceholderCounts | src/main/java/life/savag3/lazy/LazyClassTransformer.java:200-205 | the placeholder text for n parameters has n underscores, n-1 commas (none for n = 0) and length 2n-1 |
| LazyClassTransformer.ContractValueCounts | src/main/java/life/savag3/lazy/LazyClassTransformer.java:200-205 | the contract value has one underscore per parameter and ends in `->!null` |
| LazyClassTransformer.BuildContractValue | src/main/java/life/savag3/lazy/LazyClassTransformer.java:199-205 | the string-builder loop with its last comma cut yields the contract value for the parameter count |
| LazyClassTransformer.ResolveParamCount | src/main/java/life/savag3/lazy/LazyClassTransformer.java:218-254 | the method answers the parameter count of the specification scan: 0 for `()`, none where the source throws or never returns |
| LazyClassTransformer.CountParams | src/main/java/life/savag3/lazy/LazyClassTransformer.java:223-253 | the cursor loop over the parameter text computes the scan's result, or none where the source loops for ever |
| LazyClassTransformer.WellFormedTerminates | src/main/java/life/savag3/lazy/LazyClassTransformer.java:218-254 | on every well-formed method descriptor the count is defined: the scan ends |
| LazyClassTransformer.ScanTerminates | src/main/java/life/savag3/lazy/LazyClassTransformer.java:223-251 | the scan over a well-formed parameter list without `)` ends, whatever the cursor and count it starts from |
| LazyClassTransformer.ScannedText | src/main/java/life/savag3/lazy/LazyClassTransformer.java:219-223 | for a non-empty parameter list, the count is the scan of the text between the parentheses |
| LazyClassTransformer.BaseParamsCount | src/main/java/life/savag3/lazy/LazyClassTransformer.java:246-250 | a descriptor made only of primitive parameters counts one per parameter |
| LazyClassTransformer.ClassParamsCount | src/main/java/life/savag3/lazy/LazyClassTransformer.java:227-231 | a descriptor made only of object parameters counts one per parameter |
| LazyClassTransformer.ScanClassParams | src/main/java/life/savag3/lazy/LazyClassTransformer.java:227-231 | each object parameter advances the scan past its `;` and adds one |
| LazyClassTransformer.BaseThenClassOvercounts | src/main/java/life/savag3/lazy/LazyClassTransformer.java:246-250 | a primitive followed by an object parameter counts every character up to the `;`, not 2 |
| LazyClassTransformer.ArrayAbsorbsBaseParams | src/main/java/life/savag3/lazy/LazyClassTransformer.java:233-242 | a primitive array followed by primitives counts as one parameter |
| LazyClassTransformer.WithContract | src/main/java/life/savag3/lazy/LazyClassTransformer.java:194-211 | the method is unchanged except that the contract for its parameter count is appended to its invisible annotations (a list is created when absent) |
| LazyClassTransformer.HandleJetbrainsAnnotation | src/main/java/life/savag3/lazy/LazyClassTransformer.java:194-211 | the method computes exactly `WithContract` |
| LazyClassTransformer.Rewritten | src/main/java/life/savag3/lazy/LazyClassTransformer.java:53-77 | a method without code is untouched. Otherwise its try/catch and local tables are cleared and its body becomes a return stub: bare `return` for initializers, and one that type-checks for other methods except narrow integral returns. Access, name, descriptor and visible annotations stay. The invisible annotations change exactly when contracts are on, the method is no initializer and it needs one, and then only by the appended contract |
| LazyClassTransformer.TransformedMethods | src/main/java/life/savag3/lazy/LazyClassTransformer.java:36-77 | one output method per retained method, in order, with the same name, descriptor and access, and code exactly where the original had code |
| LazyClassTransformer.RetainedInOrder | src/main/java/life/savag3/lazy/LazyClassTransformer.java:39-112 | retained methods and fields are subsequences of the originals |
| LazyClassTransformer.MethodKeptUnlessAnnotated | src/main/java/life/savag3/lazy/LazyClassTransformer.java:125-127 | a method with an empty or missing annotation list is never removed |
| LazyClassTransformer.RetentionAnnotatedMethodKept | src/main/java/life/savag3/lazy/LazyClassTransformer.java:39-51 | a method carrying a retention annotation is never removed |
| LazyClassTransformer.RemovedMethodIsGated | src/main/java/life/savag3/lazy/LazyClassTransformer.java:39-51 | a removed method is private or native with its kind excluded, and passes the gate |
| LazyClassTransformer.AllMethodsIncluded | src/main/java/life/savag3/lazy/LazyClassTransformer.java:39-51 | with private and native methods included, no method is removed |
| LazyClassTransformer.PackagePrivateFieldKept | src/main/java/life/savag3/lazy/LazyClassTransformer.java:79-112 | a field that is neither public nor private is in no category and is never removed |
| LazyClassTransformer.FieldKeptUnlessAnnotated | src/main/java/life/savag3/lazy/LazyClassTransformer.java:136-138 | a field with an empty or missing annotation list is never removed, whatever its category |
| LazyClassTransformer.RetentionAnnotatedFieldKept | src/main/java/life/savag3/lazy/LazyClassTransformer.java:79-112 | a field carrying a retention annotation is never removed |
| LazyClassTransformer.AllFieldsIncluded | src/main/java/life/savag3/lazy/LazyClassTransformer.java:79-112 | with all four categories included, no field is removed |
| LazyClassTransformer.ClassNode.constructor | src/main/java/life/savag3/lazy/LazyClassTransformer.java:28 | the node holds the given methods and fields |
| LazyClassTransformer.LazyClassTransformer.constructor | src/main/java/life/savag3/lazy/LazyClassTransformer.java:25-29 | the transformer holds the parsed class and the policy |
| LazyClassTransformer.LazyClassTransformer.Transform | src/main/java/life/savag3/lazy/LazyClassTransformer.java:36-116 | the node's methods become the rewritten retained methods and its fields the retained fields |
| LazyClassTransformer.LazyClassTransformer.PruneMethods | src/main/java/life/savag3/lazy/LazyClassTransformer.java:39-51 | the method list becomes `RetainedMethods`; fields unchanged |
| LazyClassTransformer.LazyClassTransformer.RewriteMethods | src/main/java/life/savag3/lazy/LazyClassTransformer.java:53-77 | every method is replaced by its rewritten form, in place; fields unchanged |
| LazyClassTransformer.LazyClassTransformer.PruneFields | src/main/java/life/savag3/lazy/LazyClassTransformer.java:79-112 | the field list becomes `RetainedFields`; methods unchanged |
| PackageUtils.SearchParts | src/main/java/life/savag3/lazy/PackageUtils.java:53-59 | the cursor search finds every `*`-separated part in order exactly when `FoundInOrder` holds |
| PackageUtils.MatchPatterns | src/main/java/life/savag3/lazy/PackageUtils.java:45-64 | the loop answers true exactly when some pattern matches: equality, or a trailing `*` with a prefix match |
| PackageUtils.IsExempt | src/main/java/life/savag3/lazy/PackageUtils.java:22-25 | exempt exactly when an exempt pattern matches; never with no patterns |
| PackageUtils.IsExcluded | src/main/java/life/savag3/lazy/PackageUtils.java:33-36 | excluded exactly when an exclude pattern matches; never with no patterns |
| PackageUtils.EqualPatternMatches | src/main/java/life/savag3/lazy/PackageUtils.java:48 | a pattern matches the package equal to it |
| PackageUtils.NoStarMatchesOnlyEqual | src/main/java/life/savag3/lazy/PackageUtils.java:48-49 | a pattern without `*` matches exactly the equal package |
| PackageUtils.TrailingStarIsPrefix | src/main/java/life/savag3/lazy/PackageUtils.java:48-51 | a pattern ending in `*` matches exactly the packages starting with what precedes the `*` |
| PackageUtils.InteriorStarOnlyEquality | src/main/java/life/savag3/lazy/PackageUtils.java:48-61 | a pattern with an interior `*` and no trailing one matches by equality only |
| PackageUtils.MatchesAreIntended | src/main/java/life/savag3/lazy/Config.java:21-28 | every match the code accepts is a match under the glob reading of the configuration comments |
| PackageUtils.InteriorStarRejected | src/main/java/life/savag3/lazy/Config.java:21-23 | `a/*/c` matches `a/x/c` under the glob reading, yet the code rejects it |
| PackageUtils.PatternExamples | src/main/java/life/savag3/lazy/PackageUtils.java:45-64 | `a/b/*` matches `a/b/c/d` and not `a/c`; `a/*/c` does not match `a/c` |
| PackageUtils.OrderIrrelevant | src/main/java/life/savag3/lazy/PackageUtils.java:45-64 | the answer does not depend on the order of the pattern list |
| BlacklistUtils.IsBlacklistedPackage | src/main/java/life/savag3/lazy/utils/PackageUtils.java:6-27 | blacklisted exactly when some pattern contains `*` and either its prefix before a trailing `*` starts the package, or each of its `*`-separated parts occurs somewhere in the package |
| BlacklistUtils.NoStarNeverMatches | src/main/java/life/savag3/lazy/utils/PackageUtils.java:8 | a pattern without `*` blacklists nothing, not even the equal package |
| BlacklistUtils.StarMatchesEverything | src/main/java/life/savag3/lazy/utils/PackageUtils.java:10-11 | the pattern `*` blacklists every package |
| BlacklistUtils.InOrderImpliesContained | src/main/java/life/savag3/lazy/utils/PackageUtils.java:15-23 | parts found in order are each found somewhere |
| BlacklistUtils.IntendedInteriorMatchIsBlacklisted | src/main/java/life/savag3/lazy/utils/PackageUtils.java:15-23 | an interior-`*` pattern that the glob reading accepts is blacklisted |
| BlacklistUtils.OutOfOrderAccepted | src/main/java/life/savag3/lazy/utils/PackageUtils.java:15-23 | `b*a` blacklists `a/b` although its parts occur in the other order |
| ExplorerRules.TrimTrailingSlashes | src/main/java/life/savag3/lazy/asm/ClassExplorer.java:30 | the trimmed name is a prefix, ends in no `/`, and only `/` characters were removed |
| ExplorerRules.LastSegment | src/main/java/life/savag3/lazy/asm/ClassExplorer.java:30 | the segment is a suffix without `/`, preceded by `/` unless it is the whole text |
| ExplorerRules.SplitInternalName | src/main/java/life/savag3/lazy/asm/ClassExplorer.java:30-31 | the simple name has no `/` and is non-empty for a non-empty name; for a name not ending in `/`, package plus simple name give back the name, and the package is empty or ends in `/` |
| ExplorerRules.EntryNameOfClass | src/main/java/life/savag3/lazy/asm/ClassExplorer.java:224 | the output entry `pack + name + ".class"` is the class's own entry name |
| ExplorerRules.AbstractGateBelowSynthetic | src/main/java/life/savag3/lazy/asm/ClassExplorer.java:35 | below `ACC_SYNTHETIC`, and except for a bare `ACC_ABSTRACT`, the numeric comparison agrees with the abstract bit |
| ExplorerRules.AbstractGateExamples | src/main/java/life/savag3/cleaner/asm/ClassExplorer.java:35 | a public final enum class is cancelled though not abstract; a bare abstract class is not cancelled; a plain public class is not cancelled |
| LazyExplorer.SingledOutValuesCarryTheirFlag | src/main/java/life/savag3/lazy/asm/ClassExplorer.java:128-139 | every singled-out native access value has the native bit, and every private one the private bit and not the native bit |
| LazyExplorer.MethodEmissionExamples | src/main/java/life/savag3/lazy/asm/ClassExplorer.java:122-149 | public native and private methods are never written, while protected native and private final methods are |
| LazyExplorer.FieldCategoryAgreesWithFlags | src/main/java/life/savag3/lazy/asm/ClassExplorer.java:166-204 | where the switch files a field, the transformer's bit tests put it in the same category, and it is not the enum constant value |
| LazyExplorer.ProtectedFieldsDropped | src/main/java/life/savag3/lazy/asm/ClassExplorer.java:166-204 | a protected field is never written |
| LazyExplorer.ClassExplorer.constructor | src/main/java/life/savag3/lazy/asm/ClassExplorer.java:22-25 | a fresh explorer has an empty writer and is not cancelled |
| LazyExplorer.ClassExplorer.Visit | src/main/java/life/savag3/lazy/asm/ClassExplorer.java:29-43 | records the split name. At the abstract gate the class is cancelled with nothing written; otherwise the header is written and the class count goes up by one |
| LazyExplorer.ClassExplorer.Forward | src/main/java/life/savag3/lazy/asm/ClassExplorer.java:46-54 | a non-cancelled explorer forwards the call to its writer; a cancelled one ignores it |
| LazyExplorer.ClassExplorer.VisitOuterClass | src/main/java/life/savag3/lazy/asm/ClassExplorer.java:46-54 | forwards the outer-class record unless cancelled |
| LazyExplorer.ClassExplorer.VisitInnerClass | src/main/java/life/savag3/lazy/asm/ClassExplorer.java:57-65 | forwards the inner-class record unless cancelled |
| LazyExplorer.ClassExplorer.VisitPermittedSubclass | src/main/java/life/savag3/lazy/asm/ClassExplorer.java:68-76 | forwards the permitted subclass unless cancelled |
| LazyExplorer.ClassExplorer.VisitNestMember | src/main/java/life/savag3/lazy/asm/ClassExplorer.java:79-87 | forwards the nest member unless cancelled |
| LazyExplorer.ClassExplorer.VisitAnnotation | src/main/java/life/savag3/lazy/asm/ClassExplorer.java:90-99 | forwards the class annotation unless cancelled |
| LazyExplorer.ClassExplorer.VisitTypeAnnotation | src/main/java/life/savag3/lazy/asm/ClassExplorer.java:102-110 | forwards the type annotation unless cancelled |
| LazyExplorer.ClassExplorer.VisitAttribute | src/main/java/life/savag3/lazy/asm/ClassExplorer.java:152-157 | forwards the attribute unless cancelled |
| LazyExplorer.ClassExplorer.VisitMethod | src/main/java/life/savag3/lazy/asm/ClassExplorer.java:122-149 | a method whose access value is not singled out is written with a `return` body and counted; otherwise nothing changes |
| LazyExplorer.ClassExplorer.VisitField | src/main/java/life/savag3/lazy/asm/ClassExplorer.java:160-206 | a field is written and counted exactly when its access value's category is included, or it is an enum constant with enum data on |
| LazyExplorer.ClassExplorer.AddField | src/main/java/life/savag3/lazy/asm/ClassExplorer.java:208-212 | writes the field and counts it |
| LazyExplorer.ClassExplorer.VisitEnd | src/main/java/life/savag3/lazy/asm/ClassExplorer.java:216-227 | a class that is not cancelled and not in an exempt package is stored under `pack + name + ".class"`; otherwise the result map is unchanged |
| CleanerExplorer.LambdaMethodsDropped | src/main/java/life/savag3/cleaner/asm/ClassExplorer.java:60 | a method whose name starts with `lambda` is never written |
| CleanerExplorer.CategoriesWithinLazy | src/main/java/life/savag3/cleaner/asm/ClassExplorer.java:79-86 | every access value the cleaner files under a category is filed under the same category by the lazy explorer |
| CleanerExplorer.FinalFieldsDropped | src/main/java/life/savag3/cleaner/asm/ClassExplorer.java:79-93 | a final field other than an enum constant is never written |
| CleanerExplorer.EnumConstantsBypassExemption | src/main/java/life/savag3/cleaner/asm/ClassExplorer.java:87-92 | with enum data on, an enum constant is written without going through the string exemption |
| CleanerExplorer.ClassExplorer.constructor | src/main/java/life/savag3/cleaner/asm/ClassExplorer.java:23-26 | a fresh explorer has an empty writer and is not cancelled |
| CleanerExplorer.ClassExplorer.Visit | src/main/java/life/savag3/cleaner/asm/ClassExplorer.java:30-46 | records the split name. At the abstract gate the class is cancelled; otherwise it is cancelled exactly when its package is blacklisted, and the header is written and counted only when it is not |
| CleanerExplorer.ClassExplorer.VisitMethod | src/main/java/life/savag3/cleaner/asm/ClassExplorer.java:57-72 | writes a `return`-bodied method and counts it unless the class is cancelled, the name starts with `lambda`, or it is an excluded private method |
| CleanerExplorer.ClassExplorer.VisitField | src/main/java/life/savag3/cleaner/asm/ClassExplorer.java:75-95 | writes and counts a field exactly when the category is included and its string is not exempt, or it is an enum constant with enum data on |
| CleanerExplorer.ClassExplorer.AddField | src/main/java/life/savag3/cleaner/asm/ClassExplorer.java:97-117 | drops the field exactly when it is a string constant that some exempt pattern fully matches; otherwise writes and counts it |
| CleanerExplorer.ClassExplorer.VisitEnd | src/main/java/life/savag3/cleaner/asm/ClassExplorer.java:121-125 | a class that is not cancelled is stored under `pack + name + ".class"`; a cancelled one stores nothing |
| LazyRun.Lazy.constructor | src/main/java/life/savag3/lazy/Lazy.java:35 | the result map starts empty |
| LazyRun.Lazy.Add | src/main/java/life/savag3/lazy/Lazy.java:147-149 | the entry is stored, replacing any earlier bytes under that name; counters unchanged |
| LazyRun.Lazy.ProcessEntries | src/main/java/life/savag3/lazy/Lazy.java:73-94 | the result map becomes the specification `Dispatch` of the entries in jar order |
| LazyRun.DispatchOnlyAddsOutcomes | src/main/java/life/savag3/lazy/Lazy.java:73-94 | every new key is the name of an entry whose processing produced bytes |
| LazyRun.StoredNamesAreIncludedClasses | src/main/java/life/savag3/lazy/Lazy.java:75-82 | everything stored is a `.class` entry outside the excluded packages |
| LazyRun.DispatchIgnoresSkipped | src/main/java/life/savag3/lazy/Lazy.java:75-94 | entries that produce nothing leave the map unchanged |
| LazyRun.DispatchStoresOutcome | src/main/java/life/savag3/lazy/Lazy.java:73-94 | with distinct entry names, the map holds each entry's outcome under its name |
| LazyRun.ExclusionWins | src/main/java/life/savag3/lazy/Lazy.java:80-86 | a class that is both excluded and exempt is left out |
| LazyRun.ExemptCopiedVerbatim | src/main/java/life/savag3/lazy/Lazy.java:84-87 | a readable, exempt, non-excluded class is stored byte for byte |
| LazyRun.DefaultsExcludeReflections | src/main/java/life/savag3/lazy/Config.java:58-59 | under the default policy no class of `org/reflections/` is stored |
| LazyClassTransformer.CheckAnnotations | src/main/java/life/savag3/lazy/LazyClassTransformer.java:147-150 | definition: true only for a present, non-empty list none of whose descriptors is a retention annotation |
| LazyClassTransformer.CheckMethodAnnotations | src/main/java/life/savag3/lazy/LazyClassTransformer.java:125-127 | definition: the gate holds for both the visible and the invisible list of a method |
| LazyClassTransformer.CheckFieldAnnotations | src/main/java/life/savag3/lazy/LazyClassTransformer.java:136-138 | definition: the gate holds for both the visible and the invisible list of a field |
| LazyClassTransformer.PrivatePass | src/main/java/life/savag3/lazy/LazyClassTransformer.java:40-43 | definition: the predicate of the first `removeIf`: the private bit is set and the method passes the gate |
| LazyClassTransformer.NativePass | src/main/java/life/savag3/lazy/LazyClassTransformer.java:47-50 | definition: the predicate of the second `removeIf`: the native bit is set and the method passes the gate |
| LazyClassTransformer.FieldPasses | src/main/java/life/savag3/lazy/LazyClassTransformer.java:79-112 | definition: the four field `removeIf` passes in source order, each applied only when its category is excluded |
| LazyClassTransformer.IsInitializer | src/main/java/life/savag3/lazy/LazyClassTransformer.java:62 | definition: the method is named `<init>` or `<clinit>` |
| LazyClassTransformer.MethodRequiresContract | src/main/java/life/savag3/lazy/LazyClassTransformer.java:256-271 | definition: neither private nor protected, and the return descriptor is none of `I`, `J`, `F`, `D`, `V` |
| LazyClassTransformer.ParamCount | src/main/java/life/savag3/lazy/LazyClassTransformer.java:218-254 | definition: 0 for a descriptor starting with `()`; none when the first `)` comes before the first `(` (the substring throws); 0 when the text between them is empty; otherwise the scan of the text after the first `(` up to and including the first `)` |
| LazyClassTransformer.Scan | src/main/java/life/savag3/lazy/LazyClassTransformer.java:223-253 | definition: the cursor loop as a recursion: `L` adds one and jumps to the next `;` (none when there is none, where the source never ends); `[` adds one and jumps to the next `;`, or `)` when no `;` follows; `)` stops; anything else adds one per character up to the next `;` or `)` |
| Configuration.Defaults | src/main/java/life/savag3/lazy/Config.java:32-61 | definition: the default policy: all four field categories included, private and native methods excluded, the one retention annotation, `org/reflections/*` and `org/sfl4j/*` excluded, `org/spongepowered/*` exempt |
| ExplorerRules.AbstractGate | src/main/java/life/savag3/lazy/asm/ClassExplorer.java:35 | definition: the access value is numerically greater than `ACC_ABSTRACT` and abstract classes are not included |
| LazyExplorer.MethodEmitted | src/main/java/life/savag3/lazy/asm/ClassExplorer.java:127-147 | definition: the access value is none of the six native and two private values the switch singles out |
| LazyExplorer.FieldCategoryOf | src/main/java/life/savag3/lazy/asm/ClassExplorer.java:166-193 | definition: the category whose four case values (base, `+final`, `+transient`, both) contain the access value, if any |
| LazyExplorer.FieldEmitted | src/main/java/life/savag3/lazy/asm/ClassExplorer.java:166-204 | definition: the category is included, or the access is 16409 with enum data on |
| CleanerExplorer.MethodEmitted | src/main/java/life/savag3/cleaner/asm/ClassExplorer.java:60-65 | definition: the name does not start with `lambda`, and the method is not private or private static with private methods excluded |
| CleanerExplorer.FieldCategoryOf | src/main/java/life/savag3/cleaner/asm/ClassExplorer.java:79-86 | definition: the category whose two values (base and `+transient`) contain the access value, if any |
| CleanerExplorer.FieldSelected | src/main/java/life/savag3/cleaner/asm/ClassExplorer.java:79-93 | definition: the category is included, or the access is 16409 with enum data on |
| CleanerExplorer.StringExempt | src/main/java/life/savag3/cleaner/asm/ClassExplorer.java:99-111 | definition: the constant is a string that some exempt pattern matches in full |
| PackageUtils.PatternMatches | src/main/java/life/savag3/lazy/PackageUtils.java:47-61 | definition: the pattern equals the package, or it contains `*`, ends in `*`, and the package starts with what precedes that last `*` |
| PackageUtils.AnyPatternMatches | src/main/java/life/savag3/lazy/PackageUtils.java:45-64 | definition: some pattern of the list matches |
| BlacklistUtils.BlacklistPatternMatches | src/main/java/life/savag3/lazy/utils/PackageUtils.java:8-23 | definition: the pattern contains `*`, and either ends in `*` with its prefix starting the package, or every `*`-separated part occurs in the package |
| BlacklistUtils.AnyBlacklisted | src/main/java/life/savag3/lazy/utils/PackageUtils.java:6-27 | definition: some pattern of the list blacklists the package |
| LazyRun.EntryOutcome | src/main/java/life/savag3/lazy/Lazy.java:75-93 | definition: nothing for a directory, a non-class entry, an excluded class or a failure; the bytes read for an exempt class; the transformer's output otherwise |
| LazyRun.Dispatch | src/main/java/life/savag3/lazy/Lazy.java:73-94 | definition: the result map after storing each entry's outcome, in jar order |

## Left out

- Parsing and encoding class files (ASM's `ClassReader`, `ClassWriter`, `accept`, `toByteArray`) are not modelled. Classes are values, the writer is its list of calls, and encoding is a function parameter.
- Jar and file I/O are not modelled: opening the input, `attemptLoadInput`, `pack()`, `DiskUtils`, `Persist`, `Bootstrap` and the argument handling in `Lazy`'s constructor. Entries arrive as values, and a read failure is an entry with no contents.
- Loading the configuration is not modelled: `Config.load`, the Gson setup and `PatternAdaptor`. The policy is one record.
- The cleaner's regular-expression matching (`Pattern.matcher(...).matches()`) is a parameter of the explorer.
- Logging and the `VERBOSE` output have no effect on results and are not modelled.
- Timing (`Instant`) is not modelled.
- `visitRecordComponent` in the lazy explorer forwards nothing and changes no state, so it has no member.
- The `super.visitX` return values are not modelled; the explorers have no next visitor.
- The cleaner's own `Lazy`, `Config` and `utils` classes are not part of this model. The cleaner explorer is modelled over `LazyRun.Lazy`, the shared `Config` record and the `lazy/utils/PackageUtils.isBlacklistedPackage` check.
- `lazy/asm/ClassExplorer` imports `lazy.utils.PackageUtils`, which declares no `isExempt`. Its `visitEnd` is modelled with `lazy/PackageUtils.isExempt`.
- `includeAbstractClasses`, `includeEnumData`, `doJetbrainsContracts`, `blacklistedPackages` and `exemptStringPatterns` are read by the code but not declared in `Config.java`, so `Configuration.Defaults` takes them as parameters.
- Nodes are values, so aliasing between `MethodNode` objects is not modelled. `RewriteMethods` replaces each list element, which is equivalent to mutating an unshared node.
- Field constant values other than strings are abstracted to one numeric case.
- LazyClassTransformer.LazyClassTransformer.Transform:
  - requires every method descriptor to be well-formed;
  - what ASM does with a malformed descriptor is not modelled;
  - descriptors in class files read from a jar are well-formed.
- LazyClassTransformer.Rewritten, LazyClassTransformer.TransformedMethods, LazyClassTransformer.ResolveReturnType, LazyClassTransformer.WithContract, LazyClassTransformer.HandleJetbrainsAnnotation and LazyClassTransformer.LazyClassTransformer.RewriteMethods require a well-formed descriptor, for the same reason.
- LazyClassTransformer.ContractExactlyOnNullStubs requires a method that is neither private nor protected. For private and protected methods, `methodRequiresContract` also tests the access bits, and the lemma does not restate that part.
- LazyExplorer.ClassExplorer.Visit requires a class name that is empty or has a character other than `/`. For a name made only of slashes, `split("/")` yields no element and the source throws; that case is not modelled.
- CleanerExplorer.ClassExplorer.Visit has the same precondition as `LazyExplorer.ClassExplorer.Visit`, for the same reason.
- LazyExplorer.ClassExplorer.Visit, LazyExplorer.ClassExplorer.VisitMethod, LazyExplorer.ClassExplorer.VisitField and LazyExplorer.ClassExplorer.AddField do not model the 32-bit wrap-around of the atomic counters they increment. The counters are unbounded naturals.
- CleanerExplorer.ClassExplorer.Visit, CleanerExplorer.ClassExplorer.VisitMethod, CleanerExplorer.ClassExplorer.VisitField and CleanerExplorer.ClassExplorer.AddField do not model that wrap-around either.
- Both explorers call `getClassCount`, `getMethodCount` and `getFieldCount` on the run, but `Lazy.java` declares no such counters. The model gives `LazyRun.Lazy` three counter fields that start at zero.
- LazyClassTransformer.ResolveParamCount models the source's endless loop on an `L` without a closing `;` as `None`. A thrown `substring` is also `None`.

## Behaviour as written

The model follows the code where it differs from what the names and comments suggest:

- **Inverted annotation gate.**
  - `checkAnnotations` returns true only for a present, non-empty annotation list with no retention annotation.
  - So a member with no annotations at all is never removed (`MethodKeptUnlessAnnotated`, `FieldKeptUnlessAnnotated`).
  - Only annotated, non-retained members are stripped.
- **Narrow integral stubs.** `resolveReturnType` gives `Z`, `B`, `C` and `S` returns the stub `aconst_null; areturn`, which the JVM type checker rejects for an integral return (`NarrowIntegralGetsNullStub`, `StubVerifiesUnlessNarrow`).
- **Interior `*` patterns.**
  - `matchPatterns` accepts an interior-`*` pattern only on equality.
  - The in-order part search runs, but its result is never returned as a match (`InteriorStarOnlyEquality`, `InteriorStarRejected`).
  - The blacklist check accepts parts in any order (`OutOfOrderAccepted`).
- **Lazy explorer methods.** A method whose access value is exactly one of the eight values the switch singles out (six native, two private) is never written, whatever the inclusion flags say: both arms of the inclusion test return without writing. Other native or private methods, such as protected native or private final ones, fall to the default case and are written (`MethodEmissionExamples`).
- **Exempt classes.** A class in an exempt package is not stored by the lazy explorer's `visitEnd` (`LazyExplorer.ClassExplorer.VisitEnd`).
- **Cleaner members.**
  - The cleaner drops every method whose name starts with `lambda` (`LambdaMethodsDropped`).
  - It drops every final field other than an enum constant (`FinalFieldsDropped`).
- **Parameter counts.**
  - `resolveParamCount` adds the whole run of characters up to the next `;` or `)` for a primitive. So a primitive followed by an object parameter is over-counted (`BaseThenClassOvercounts`).
  - A primitive array swallows the primitives after it (`ArrayAbsorbsBaseParams`).
- **Abstract gate.**
  - The gate compares the access value with `ACC_ABSTRACT` numerically.
  - It cancels enum and other classes with high flags, and keeps a class whose only flag is `ACC_ABSTRACT` (`AbstractGateExamples`).
