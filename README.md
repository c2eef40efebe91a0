# Method fragments and dependence-graph nodes of IntelliJDeodorant, in Dafny

IntelliJDeodorant finds refactoring opportunities in Java code. Its front
end walks a method body and records what each statement touches:

- field accesses, local variable declarations and accesses, and the
  definitions and uses they imply;
- method and super-method invocations, filed by the variable they are
  invoked through;
- object and array creations, literals, anonymous classes and thrown
  exceptions.

This is the work of `AbstractMethodFragment`. A fragment has an optional
parent, and everything it records is recorded in every enclosing fragment
too (the roll-up).

A `PDGNode` is one statement of the program dependence graph. It keeps the
variables its statement declares, defines and uses, together with its
incoming dependences. It takes part in the reaching-alias analysis in two
steps:

- `updateReachingAliasSet` tells the alias set which aliases the statement
  creates or kills;
- `applyReachingAliasSet` widens the node's definitions and uses of
  `r.f` to `a.f` for every alias `a` of `r`.

`FieldInstructionObject` is the value recorded for a field access. Its
equality, hash code and string form are part of the model.

The model is written in Dafny. The syntax tree and the IDE's resolution
services are not modelled: every syntax element is a small datatype that
carries the answers the front end gives about it, such as what a reference
resolves to, whether a type is primitive, or whether a field is static.

Files:

- `variables.dfy`: plain and composite variables.
- `collections.dfy`: duplicate-free copies of lists (the LinkedHashSet
  views).
- `field_instruction.dfy`: `FieldInstructionObject` as a class, with its
  value, equality, 32-bit hash and string form.
- `facts.dfy`: the 25 kinds of fact a fragment records, the store of one
  fragment (one list per relation), and what recording one fact does to it.
- `fragment_rules.dfy`: what each `process*` method records, as functions
  of its inputs, in the order the source records them.
- `fragment.dfy`: the class `MethodFragment` with its roll-up, the loop
  methods that compute each `process*` result, and the getters.
- `aliasing.dfy`: the alias operations a statement calls for.
- `pdg_node.dfy`: the class `PDGNode`, its queries, and the application of
  the reaching alias set.

## Model

Paths are relative to the repository root. In the table below, `AMF` stands for
`src/main/java/gr/uom/java/ast/decomposition/AbstractMethodFragment.java`,
`FIO` for `src/main/java/gr/uom/java/ast/FieldInstructionObject.java` and
`PDG` for `src/main/java/org/jetbrains/research/intellijdeodorant/core/ast/decomposition/cfg/PDGNode.java`;
the source column spells each path out.

| member | source | states |
|---|---|---|
| Variables.InitialVariable | src/main/java/gr/uom/java/ast/decomposition/AbstractMethodFragment.java:729-731 | the root of an access path is the plain variable of the same declaration; a plain variable is its own root |
| Collections.Distinct | src/main/java/gr/uom/java/ast/decomposition/AbstractMethodFragment.java:849-856 | the LinkedHashSet copy of a list has no duplicates, has exactly the list's elements, and is never longer |
| Collections.DistinctMember | src/main/java/gr/uom/java/ast/decomposition/AbstractMethodFragment.java:853 | an element is in the distinct copy exactly when it is in the list |
| Collections.DistinctAppend | src/main/java/gr/uom/java/ast/decomposition/AbstractMethodFragment.java:853 | adding an element already present leaves the copy unchanged; a new element is appended at the end (insertion order) |
| Collections.DistinctKeepsFirst | src/main/java/gr/uom/java/ast/decomposition/AbstractMethodFragment.java:853 | the first element of the list stays first in the copy |
| Collections.DistinctOfDistinct | src/main/java/gr/uom/java/ast/decomposition/AbstractMethodFragment.java:853 | a list without duplicates is its own distinct copy |
| Collections.DistinctIdempotent | src/main/java/gr/uom/java/ast/decomposition/AbstractMethodFragment.java:853 | copying twice gives the same as copying once |
| Collections.DistinctValues | src/main/java/gr/uom/java/ast/decomposition/AbstractMethodFragment.java:849-856 | the loop keeps every key and replaces each list by its duplicate-free copy with the same elements |
| FieldInstructions.Wrap32 | src/main/java/gr/uom/java/ast/FieldInstructionObject.java:76-86 | Java int arithmetic: the result is congruent to the exact value modulo 2^32 and equal to it when it fits |
| FieldInstructions.FieldToString | src/main/java/gr/uom/java/ast/FieldInstructionObject.java:88-90 | the string is the owner class, then "::", then the field name |
| FieldInstructions.FieldHash | src/main/java/gr/uom/java/ast/FieldInstructionObject.java:76-86 | definition: 17, then 37 * r + h over owner class, name and type, binding key left out (HashCode, EqualsImpliesEqualHash) |
| FieldInstructions.SameField | src/main/java/gr/uom/java/ast/FieldInstructionObject.java:69 | definition: owner class, name and type agree |
| FieldInstructions.EqualValues | src/main/java/gr/uom/java/ast/FieldInstructionObject.java:63-74 | definition: `equals` of two distinct objects on their values; requires the receiver's binding key once owner, name and type agree |
| FieldInstructions.EqualValuesIgnoresStatic | src/main/java/gr/uom/java/ast/FieldInstructionObject.java:69-70 | on values, `equals` is equality once the static flags are made to agree |
| FieldInstructions.EqualsOnValues | src/main/java/gr/uom/java/ast/FieldInstructionObject.java:63-74 | `equals` on two distinct objects is EqualValues on their values |
| FieldInstructions.FieldToStringInjective | src/main/java/gr/uom/java/ast/FieldInstructionObject.java:88-90 | for owner names without ':', the string determines the owner class and the field name |
| FieldInstructions.FieldInstructionObject.constructor | src/main/java/gr/uom/java/ast/FieldInstructionObject.java:16-21 | owner, type and name as given; not static, no binding key, no simple name, hash not cached |
| FieldInstructions.FieldInstructionObject.WithBindingKey | src/main/java/gr/uom/java/ast/FieldInstructionObject.java:23-26 | the same, with the binding key as given |
| FieldInstructions.FieldInstructionObject.Value | src/main/java/gr/uom/java/ast/FieldInstructionObject.java:28-46 | the recorded value carries exactly what the getters return |
| FieldInstructions.FieldInstructionObject.SetStatic | src/main/java/gr/uom/java/ast/FieldInstructionObject.java:48-50 | the static flag becomes the argument; nothing else changes |
| FieldInstructions.FieldInstructionObject.SetSimpleName | src/main/java/gr/uom/java/ast/FieldInstructionObject.java:52-56 | the binding key becomes the element's reference and the simple name becomes the element |
| FieldInstructions.FieldInstructionObject.HashCode | src/main/java/gr/uom/java/ast/FieldInstructionObject.java:76-86 | the hash is 37-polynomial over owner, name and type in 32-bit arithmetic, and is cached |
| FieldInstructions.FieldInstructionObject.ToString | src/main/java/gr/uom/java/ast/FieldInstructionObject.java:88-90 | owner "::" name |
| FieldInstructions.FieldInstructionObject.Equals | src/main/java/gr/uom/java/ast/FieldInstructionObject.java:63-74 | an object equals itself; equal objects have the same string form and type; the binding key must be set only when owner, name and type already agree |
| FieldInstructions.EqualsImpliesEqualHash | src/main/java/gr/uom/java/ast/FieldInstructionObject.java:63-86 | equal field instructions have equal hash codes (the binding key is compared but not hashed) |
| FieldInstructions.EqualsSymmetric | src/main/java/gr/uom/java/ast/FieldInstructionObject.java:63-74 | equality is symmetric wherever both directions can be evaluated without dereferencing a missing binding key |
| FieldInstructions.HashCodeIsStable | src/main/java/gr/uom/java/ast/FieldInstructionObject.java:76-86 | the hash code does not change when the static flag or the simple name is set after it was first computed |
| Facts.RootBucket | src/main/java/gr/uom/java/ast/decomposition/AbstractMethodFragment.java:331-338 | a variable is filed through fields exactly when its root is a field, through parameters exactly when its root is a parameter, else through locals |
| Facts.IsSetRelation | src/main/java/gr/uom/java/ast/decomposition/AbstractMethodFragment.java:45 | definition: the collections kept as sets: the exception set (line 45), the three local variable sets (lines 60-62) and the four parameter maps (lines 63-66) |
| Facts.RelationOf | src/main/java/gr/uom/java/ast/decomposition/AbstractMethodFragment.java:35-66 | definition: the collection field each kind of fact is added to |
| Facts.Recorded | src/main/java/gr/uom/java/ast/decomposition/AbstractMethodFragment.java:251-298 | definition: one add* call on one fragment (characterised by RecordedEffect and RecordedHoldsIff) |
| Facts.RecordedAll | src/main/java/gr/uom/java/ast/decomposition/AbstractMethodFragment.java:251-298 | definition: a sequence of add* calls on one fragment, in order (RecordedAllAppend, RecordedAllHolds) |
| Facts.FieldBucketOf | src/main/java/gr/uom/java/ast/decomposition/AbstractMethodFragment.java:729-747 | a plain variable goes to the through-this lists; a composite one goes by its root |
| Facts.ThroughFact | src/main/java/gr/uom/java/ast/decomposition/AbstractMethodFragment.java:332-337 | an invocation through a variable is filed under that bucket and that variable |
| Facts.RecordedEffect | src/main/java/gr/uom/java/ast/decomposition/AbstractMethodFragment.java:251-298 | recording a fact appends it to its own collection only (to a set collection only when absent), every other collection is unchanged, and well-filedness is kept |
| Facts.RecordedHolds | src/main/java/gr/uom/java/ast/decomposition/AbstractMethodFragment.java:251-256 | a recorded fact is in the store afterwards |
| Facts.RecordedHoldsIff | src/main/java/gr/uom/java/ast/decomposition/AbstractMethodFragment.java:251-298 | after recording `e`, a fact is present exactly when it was present before or is `e` |
| Facts.RecordedGrows | src/main/java/gr/uom/java/ast/decomposition/AbstractMethodFragment.java:251-298 | recording never removes anything (per-collection multiset inclusion) |
| Facts.RecordedAllAppend | src/main/java/gr/uom/java/ast/decomposition/AbstractMethodFragment.java:251-256 | recording two lists in turn is recording their concatenation |
| Facts.RecordedAllSnoc | src/main/java/gr/uom/java/ast/decomposition/AbstractMethodFragment.java:251-256 | recording a list and then one more fact is recording the extended list |
| Facts.RecordedAllGrows | src/main/java/gr/uom/java/ast/decomposition/AbstractMethodFragment.java:251-298 | recording a list never removes anything |
| Facts.RecordedAllHolds | src/main/java/gr/uom/java/ast/decomposition/AbstractMethodFragment.java:251-298 | every fact of a recorded list is in the store afterwards |
| Facts.IncludedReflexive | src/main/java/gr/uom/java/ast/decomposition/AbstractMethodFragment.java:253-255 | a store contains itself |
| Facts.IncludedTransitive | src/main/java/gr/uom/java/ast/decomposition/AbstractMethodFragment.java:253-255 | containment of stores is transitive (grandparents contain grandchildren) |
| Facts.IncludedHolds | src/main/java/gr/uom/java/ast/decomposition/AbstractMethodFragment.java:253-255 | a fact held by a contained store is held by the containing one |
| Facts.RollUpKeepsInclusion | src/main/java/gr/uom/java/ast/decomposition/AbstractMethodFragment.java:251-256 | recording the same fact in a child and its parent keeps the child contained in the parent |
| Facts.RollUpAllKeepsInclusion | src/main/java/gr/uom/java/ast/decomposition/AbstractMethodFragment.java:251-256 | the same for a list of facts |
| Facts.AppendTo | src/main/java/gr/uom/java/ast/decomposition/AbstractMethodFragment.java:573-585 | a key already present gets the value appended to its list; a new key gets a one-element list; other keys are unchanged |
| Facts.RecordedInvokedThrough | src/main/java/gr/uom/java/ast/decomposition/AbstractMethodFragment.java:573-613 | recording an invocation through a variable updates the non-distinct map of its bucket exactly as the put-or-append code does |
| FragmentRules.AssignmentsTo | src/main/java/gr/uom/java/ast/decomposition/AbstractMethodFragment.java:685-697 | exactly the assignment expressions that match the element: as written when the left-hand side expression is the declaration itself, intended when it resolves to it |
| FragmentRules.NoAssignmentsAsWritten | src/main/java/gr/uom/java/ast/decomposition/AbstractMethodFragment.java:689-692 | as written, an assignment never matches: its left-hand side is an expression and the element a declaration |
| FragmentRules.PostfixesOf | src/main/java/gr/uom/java/ast/decomposition/AbstractMethodFragment.java:699-712 | exactly the postfix expressions whose operand is the declaration (as written) or resolves to it (intended) |
| FragmentRules.NoPostfixesAsWritten | src/main/java/gr/uom/java/ast/decomposition/AbstractMethodFragment.java:704-707 | as written, a postfix expression never matches: the original element of an operand in source code is the operand expression |
| FragmentRules.PrefixesOf | src/main/java/gr/uom/java/ast/decomposition/AbstractMethodFragment.java:714-727 | exactly the prefix expressions that match: as written, operand equal to the declaration and the increment test asked of the operand; intended, operand resolving to it and the prefix expression an increment or decrement |
| FragmentRules.NoPrefixesAsWritten | src/main/java/gr/uom/java/ast/decomposition/AbstractMethodFragment.java:719-722 | as written, a prefix expression never matches |
| FragmentRules.AsWrittenMatchesNothing | src/main/java/gr/uom/java/ast/decomposition/AbstractMethodFragment.java:685-727 | as written, all three matching helpers return nothing for any declaration |
| FragmentRules.AsWrittenOnlyUses | src/main/java/gr/uom/java/ast/decomposition/AbstractMethodFragment.java:130-153 | as written, the def/use block records exactly one use and no definition, whatever the writes are |
| FragmentRules.DefUseEvents | src/main/java/gr/uom/java/ast/decomposition/AbstractMethodFragment.java:131-153 | definition: the def/use facts of one variable from its matched writes (characterised by DefUseRule and PlainAssignmentsDefineOnly) |
| FragmentRules.DefUseEventsAsWritten | src/main/java/gr/uom/java/ast/decomposition/AbstractMethodFragment.java:138-140 | definition: DefUseEvents with every operator read as compound, as the token comparison makes it (AsWrittenPlainAssignmentIsUse) |
| FragmentRules.DefUseOf | src/main/java/gr/uom/java/ast/decomposition/AbstractMethodFragment.java:131-153 | definition: the matching helpers, then the def/use rule of the chosen reading (AsWrittenOnlyUses, FieldWriteDefines) |
| FragmentRules.FieldAccessEvents | src/main/java/gr/uom/java/ast/decomposition/AbstractMethodFragment.java:119-153 | definition: a super field instruction, or a field instruction followed by its def/use facts (FieldRecord, AsWrittenFieldAccessDefinesNothing) |
| FragmentRules.ChildFieldStep | src/main/java/gr/uom/java/ast/decomposition/AbstractMethodFragment.java:112-156 | definition: a field below an instruction throws without a containing class, is skipped when the class name is empty, and is recorded otherwise |
| FragmentRules.ReferenceEvents | src/main/java/gr/uom/java/ast/decomposition/AbstractMethodFragment.java:158-246 | definition: a field of a named class is a field access; intended, a local variable gives its declaration or its access with def/use facts (LocalDeclarationRecorded, LocalAccessRecorded, AsWrittenLocalReferenceSkipped) |
| FragmentRules.InstructionStep | src/main/java/gr/uom/java/ast/decomposition/AbstractMethodFragment.java:111-248 | definition: one instruction: its child fields, then its reference, stopping at the first throw (AsWrittenInstructionDefinesNothing) |
| FragmentRules.VariablesRun | src/main/java/gr/uom/java/ast/decomposition/AbstractMethodFragment.java:109-249 | definition: processVariables over the whole list (AsWrittenDefinesNothing, AsWrittenRecordsNoLocal, RunEvents) |
| FragmentRules.CompoundUsesMembers | src/main/java/gr/uom/java/ast/decomposition/AbstractMethodFragment.java:137-141 | the per-assignment loop adds only uses, and adds one exactly when some matched assignment's operator is not `=` |
| FragmentRules.DefUseRule | src/main/java/gr/uom/java/ast/decomposition/AbstractMethodFragment.java:135-153 | a definition is recorded iff there is a matching assignment, postfix or prefix; a use iff there is a compound assignment, a postfix, a prefix, or no write at all; nothing else is recorded |
| FragmentRules.PlainAssignmentsDefineOnly | src/main/java/gr/uom/java/ast/decomposition/AbstractMethodFragment.java:135-141 | a variable written only by `=` is defined and not used |
| FragmentRules.NoCompoundUses | src/main/java/gr/uom/java/ast/decomposition/AbstractMethodFragment.java:137-141 | no compound operator, no use from the loop |
| FragmentRules.AsWrittenOperators | src/main/java/gr/uom/java/ast/decomposition/AbstractMethodFragment.java:138-139 | as written, every operator token compares unequal to the `=` element type |
| FragmentRules.AsWrittenPlainAssignmentIsUse | src/main/java/gr/uom/java/ast/decomposition/AbstractMethodFragment.java:138-140 | once an `=` assignment is matched, the operator test as written records a definition and a use; the intended test records only the definition |
| FragmentRules.AsWrittenFieldWriteIsUse | src/main/java/gr/uom/java/ast/decomposition/AbstractMethodFragment.java:126-153 | `x = 5;` on a field x: as written, the field instruction and a use of x; intended, the field instruction and a definition of x |
| FragmentRules.FieldWriteDefines | src/main/java/gr/uom/java/ast/decomposition/AbstractMethodFragment.java:131-137 | intended, a field with some assignment resolving to it is recorded as defined |
| FragmentRules.AsWrittenFieldAccessDefinesNothing | src/main/java/gr/uom/java/ast/decomposition/AbstractMethodFragment.java:126-153 | as written, a field access records no definition |
| FragmentRules.AsWrittenInstructionDefinesNothing | src/main/java/gr/uom/java/ast/decomposition/AbstractMethodFragment.java:111-246 | as written, one variable instruction records no definition, neither for its child fields nor for its reference |
| FragmentRules.AsWrittenDefinesNothing | src/main/java/gr/uom/java/ast/decomposition/AbstractMethodFragment.java:109-249 | as written, processVariables never records a defined field or a defined local variable |
| FragmentRules.AsWrittenLocalReferenceSkipped | src/main/java/gr/uom/java/ast/decomposition/AbstractMethodFragment.java:207-208 | as written, a reference to a local variable records nothing and processVariables goes on: the resolved local's parent is its declaration statement, never a local variable |
| FragmentRules.AsWrittenRecordsNoLocal | src/main/java/gr/uom/java/ast/decomposition/AbstractMethodFragment.java:109-249 | as written, processVariables records no local variable declaration, access, declared, defined or used local, whatever its input |
| FragmentRules.LocalDeclarationRecorded | src/main/java/gr/uom/java/ast/decomposition/AbstractMethodFragment.java:212-218 | intended, the declaring occurrence of a local variable records its declaration (with its declaration statement) and the declared variable, and processVariables goes on |
| FragmentRules.LocalAccessRecorded | src/main/java/gr/uom/java/ast/decomposition/AbstractMethodFragment.java:219-243 | intended, any other reference to a local variable appends the local variable instruction and the definitions and uses DefUseOf gives, and processVariables goes on |
| FragmentRules.FieldRecord | src/main/java/gr/uom/java/ast/decomposition/AbstractMethodFragment.java:126-129 | the field instruction carries the containing class name, type, name, static flag and the field's reference |
| FragmentRules.CallRecord | src/main/java/gr/uom/java/ast/decomposition/AbstractMethodFragment.java:304-327 | the invocation record carries the declaring class, name, return type ("Object" when missing), parameter and thrown types, and static flag |
| FragmentRules.SuperRecord | src/main/java/gr/uom/java/ast/decomposition/AbstractMethodFragment.java:356-378 | the super invocation record carries the expression's class name, the method text, return type, parameter names, thrown types and static flag |
| FragmentRules.EndsInvocations | src/main/java/gr/uom/java/ast/decomposition/AbstractMethodFragment.java:355-358 | definition: as written every super expression ends the list; intended only one whose reference does not resolve to a method (SuperStops) |
| FragmentRules.InvocationStep | src/main/java/gr/uom/java/ast/decomposition/AbstractMethodFragment.java:302-380 | definition: one expression: nothing for an unresolved call, a resolved call with its routing, a resolved super call (InvocationStepRouting) |
| FragmentRules.InvocationEvents | src/main/java/gr/uom/java/ast/decomposition/AbstractMethodFragment.java:300-382 | definition: the steps in order up to the expression that ends the list (ResolvedCallRecorded, SuperStops, InvocationRouting) |
| FragmentRules.InvocationsComplete | src/main/java/gr/uom/java/ast/decomposition/AbstractMethodFragment.java:355-358 | definition: whether processMethodInvocations returns normally: false only as written, when the ending super expression has no reference (SuperStops) |
| FragmentRules.RouteEvents | src/main/java/gr/uom/java/ast/decomposition/AbstractMethodFragment.java:329-348 | a call is filed in at most one place |
| FragmentRules.InvocationStepRouting | src/main/java/gr/uom/java/ast/decomposition/AbstractMethodFragment.java:329-348 | one expression's filed invocations go by the invoker's root role, by the static flag, or (intended only) through `this` |
| FragmentRules.InvocationRouting | src/main/java/gr/uom/java/ast/decomposition/AbstractMethodFragment.java:300-382 | over the whole list, in both readings, every filed invocation is filed by its role, and every filed call is also in the invocation list |
| FragmentRules.AsWrittenNothingThroughThis | src/main/java/gr/uom/java/ast/decomposition/AbstractMethodFragment.java:340-347 | as written, no call is ever filed as invoked through `this`: the method expression is a reference expression, never a `this` expression |
| FragmentRules.UnqualifiedCallThroughThis | src/main/java/gr/uom/java/ast/decomposition/AbstractMethodFragment.java:340-347 | intended, a resolved non-static call without an invoker, unqualified or qualified by `this`, is filed through `this` |
| FragmentRules.ResolvedCallRecorded | src/main/java/gr/uom/java/ast/decomposition/AbstractMethodFragment.java:302-328 | a resolved call that no unresolvable super expression precedes is recorded |
| FragmentRules.UnresolvedCallSkipped | src/main/java/gr/uom/java/ast/decomposition/AbstractMethodFragment.java:304-306 | an unresolved call is skipped: the result is that of the list without it |
| FragmentRules.SuperStops | src/main/java/gr/uom/java/ast/decomposition/AbstractMethodFragment.java:355-358 | a super expression that ends the list ends processing: nothing after it is recorded; the first one to end it makes the method return normally exactly when read as intended or when it has a reference (as written, line 357 dereferences a missing reference) |
| FragmentRules.AsWrittenNoSuperInvocation | src/main/java/gr/uom/java/ast/decomposition/AbstractMethodFragment.java:355-380 | as written, no super method invocation is ever recorded: the element holding the reference is never a method, so every super expression ends the list |
| FragmentRules.SuperCallRecorded | src/main/java/gr/uom/java/ast/decomposition/AbstractMethodFragment.java:359-379 | intended, a super expression whose reference resolves to a method is recorded when no earlier expression ends the list |
| FragmentRules.CreationRecord | src/main/java/gr/uom/java/ast/decomposition/AbstractMethodFragment.java:407-422 | the creation record carries the created type, one type parameter per declared one, and the expression |
| FragmentRules.RunSnoc | src/main/java/gr/uom/java/ast/decomposition/AbstractMethodFragment.java:405-521 | processing one more expression after a run that completed appends that expression's records |
| FragmentRules.RunStops | src/main/java/gr/uom/java/ast/decomposition/AbstractMethodFragment.java:428-433 | once an expression throws, the rest of the list is not looked at |
| FragmentRules.RunEvents | src/main/java/gr/uom/java/ast/decomposition/AbstractMethodFragment.java:111-248 | every fact a run records is recorded by one of its steps |
| FragmentRules.RunAllSnoc | src/main/java/gr/uom/java/ast/decomposition/AbstractMethodFragment.java:405-521 | the same for processClassInstanceCreations, as written and corrected |
| FragmentRules.RunAllStops | src/main/java/gr/uom/java/ast/decomposition/AbstractMethodFragment.java:428-433 | once an anonymous class that cannot be named makes the substring throw, processClassInstanceCreations ends |
| FragmentRules.AsWrittenRecordsNothing | src/main/java/gr/uom/java/ast/decomposition/AbstractMethodFragment.java:405-521 | as written, processClassInstanceCreations records nothing at all (no creation, no anonymous class) and returns normally, for every list |
| FragmentRules.AsWrittenLosesCreation | src/main/java/gr/uom/java/ast/decomposition/AbstractMethodFragment.java:405-521 | `new A()` alone records nothing as written, and its creation once corrected |
| FragmentRules.CreationsRecorded | src/main/java/gr/uom/java/ast/decomposition/AbstractMethodFragment.java:405-521 | corrected, every `new` expression up to the first that throws has its creation recorded, and its anonymous class body when it has one, so getClassInstanceCreations can return it |
| FragmentRules.AnonymousRecord | src/main/java/gr/uom/java/ast/decomposition/AbstractMethodFragment.java:428-435 | an anonymous class is named by its own name, else by its key without the first and last characters and with no '/' left |
| FragmentRules.FormatKey | src/main/java/gr/uom/java/ast/decomposition/AbstractMethodFragment.java:432 | the formatted key is two characters shorter than the key, has each inner character in place with every `/` turned into `.`, and has no `/` left |
| FragmentRules.CreationEvents | src/main/java/gr/uom/java/ast/decomposition/AbstractMethodFragment.java:405-521 | definition: corrected, one `new` expression records its anonymous class body, if any, then its creation; a body that cannot be named throws (CreationsRecorded) |
| FragmentRules.CreationStep | src/main/java/gr/uom/java/ast/decomposition/AbstractMethodFragment.java:405-521 | definition: as written, nothing is recorded and nothing throws; corrected, CreationEvents (AsWrittenRecordsNothing, AsWrittenLosesCreation) |
| FragmentRules.ArrayCreationEvents | src/main/java/gr/uom/java/ast/decomposition/AbstractMethodFragment.java:523-531 | one array creation record per expression, in order |
| FragmentRules.LiteralEvents | src/main/java/gr/uom/java/ast/decomposition/AbstractMethodFragment.java:540-545 | one literal record per expression, in order |
| Fragment.MatchingAssignments | src/main/java/gr/uom/java/ast/decomposition/AbstractMethodFragment.java:685-697 | the loop returns the matching assignments (as written or intended) in list order without duplicates |
| Fragment.MatchingPostfixAssignments | src/main/java/gr/uom/java/ast/decomposition/AbstractMethodFragment.java:699-712 | the same for postfix expressions |
| Fragment.MatchingPrefixAssignments | src/main/java/gr/uom/java/ast/decomposition/AbstractMethodFragment.java:714-727 | the same for prefix increments and decrements |
| Fragment.DefUseFacts | src/main/java/gr/uom/java/ast/decomposition/AbstractMethodFragment.java:135-153 | the definition and use records of one accessed variable from its matched writes, as DefUseRule characterises them; the caller passes the assignments as the operator test reads them |
| Fragment.VariableDefUseFacts | src/main/java/gr/uom/java/ast/decomposition/AbstractMethodFragment.java:130-153 | the matching helpers and the def/use rule for one declaration: as written, a single use (AsWrittenOnlyUses); intended, DefUseRule on the resolved writes |
| Fragment.FieldAccessFacts | src/main/java/gr/uom/java/ast/decomposition/AbstractMethodFragment.java:119-153 | a super field access records a super field instruction; any other records the field instruction, then its definitions and uses in the chosen reading |
| Fragment.ChildFieldFacts | src/main/java/gr/uom/java/ast/decomposition/AbstractMethodFragment.java:112-156 | the fields found below an instruction, those of a class with a non-empty name, in order; a field without a named class throws and ends the loop |
| Fragment.ReferenceFacts | src/main/java/gr/uom/java/ast/decomposition/AbstractMethodFragment.java:158-246 | a reference to a field of a named class is a field access; as written nothing else is recorded; intended, a reference to a local variable records its declaration or its access with definitions and uses |
| Fragment.InstructionFacts | src/main/java/gr/uom/java/ast/decomposition/AbstractMethodFragment.java:111-248 | one variable instruction: its child fields, then its reference, stopping at the first throw |
| Fragment.VariablesFacts | src/main/java/gr/uom/java/ast/decomposition/AbstractMethodFragment.java:109-249 | processVariables' records in the chosen reading, every instruction in list order, up to and including the one that throws |
| Fragment.InvocationStepFacts | src/main/java/gr/uom/java/ast/decomposition/AbstractMethodFragment.java:302-380 | one invocation expression's records in the chosen reading |
| Fragment.InvocationFacts | src/main/java/gr/uom/java/ast/decomposition/AbstractMethodFragment.java:300-382 | processMethodInvocations' records in the chosen reading, with the skip, the early end at a super expression, and whether the method returns normally |
| Fragment.CreationFactsAsWritten | src/main/java/gr/uom/java/ast/decomposition/AbstractMethodFragment.java:405-521 | the as-written loop: its records (none, by AsWrittenRecordsNothing) and that it completes |
| Fragment.CreationFactsCorrected | src/main/java/gr/uom/java/ast/decomposition/AbstractMethodFragment.java:405-521 | the corrected loop: each creation after its anonymous class body, stopping where an anonymous class cannot be named |
| Fragment.ArrayCreationFacts | src/main/java/gr/uom/java/ast/decomposition/AbstractMethodFragment.java:523-531 | processArrayCreations' records |
| Fragment.LiteralFacts | src/main/java/gr/uom/java/ast/decomposition/AbstractMethodFragment.java:540-545 | processLiterals' records |
| Fragment.ClassInstanceCreationsOf | src/main/java/gr/uom/java/ast/decomposition/AbstractMethodFragment.java:801-809 | only class instance creations are kept |
| Fragment.ArrayCreationsOf | src/main/java/gr/uom/java/ast/decomposition/AbstractMethodFragment.java:811-819 | only array creations are kept |
| Fragment.CreationsPartitioned | src/main/java/gr/uom/java/ast/decomposition/AbstractMethodFragment.java:801-819 | together the two getters return every creation exactly once |
| Fragment.MethodFragment.constructor | src/main/java/gr/uom/java/ast/decomposition/AbstractMethodFragment.java:68-103 | a new fragment has the given parent and empty collections; its lineage is itself plus its parent's |
| Fragment.MethodFragment.AncestorsAbove | src/main/java/gr/uom/java/ast/decomposition/AbstractMethodFragment.java:68-69 | the parent chain is finite and acyclic, so the roll-up recursion ends |
| Fragment.MethodFragment.Add | src/main/java/gr/uom/java/ast/decomposition/AbstractMethodFragment.java:251-298 | every add helper records the fact in the fragment and in every ancestor, and in nothing else |
| Fragment.MethodFragment.Issue | src/main/java/gr/uom/java/ast/decomposition/AbstractMethodFragment.java:251-298 | adding a list of facts leaves every lineage store equal to its old store with the list recorded |
| Fragment.MethodFragment.ReachedHolds | src/main/java/gr/uom/java/ast/decomposition/AbstractMethodFragment.java:251-256 | afterwards every added fact is in the fragment and in every ancestor |
| Fragment.MethodFragment.ReachedKeepsRolledUp | src/main/java/gr/uom/java/ast/decomposition/AbstractMethodFragment.java:251-256 | if every fragment's store was contained in its ancestors' stores, it still is |
| Fragment.RollUpPreserved | src/main/java/gr/uom/java/ast/decomposition/AbstractMethodFragment.java:251-256 | recording the same facts in a set of fragments closed under ancestors keeps the roll-up invariant |
| Fragment.MethodFragment.ProcessVariablesAsWritten | src/main/java/gr/uom/java/ast/decomposition/AbstractMethodFragment.java:109-249 | the lineage receives exactly the as-written records; the result says whether the method returned normally |
| Fragment.MethodFragment.ProcessVariables | src/main/java/gr/uom/java/ast/decomposition/AbstractMethodFragment.java:109-249 | the lineage receives the intended records: writes matched by resolution, the operator test corrected, and references to local variables recorded |
| Fragment.MethodFragment.ProcessMethodInvocationsAsWritten | src/main/java/gr/uom/java/ast/decomposition/AbstractMethodFragment.java:300-382 | the lineage receives exactly the as-written records of processMethodInvocations (no super invocation, nothing through `this`); the result says whether it returned normally |
| Fragment.MethodFragment.ProcessMethodInvocations | src/main/java/gr/uom/java/ast/decomposition/AbstractMethodFragment.java:300-382 | the same with super expressions resolved and recorded, and with unqualified and `this`-qualified calls filed through `this` |
| Fragment.MethodFragment.ProcessClassInstanceCreationsAsWritten | src/main/java/gr/uom/java/ast/decomposition/AbstractMethodFragment.java:405-521 | the lineage receives the as-written records, which are none; the result says whether the method returned normally |
| Fragment.MethodFragment.ProcessClassInstanceCreations | src/main/java/gr/uom/java/ast/decomposition/AbstractMethodFragment.java:405-521 | the lineage receives every creation after its anonymous class body, up to an anonymous class that cannot be named; the result says whether the method returned normally |
| Fragment.MethodFragment.ProcessArrayCreations | src/main/java/gr/uom/java/ast/decomposition/AbstractMethodFragment.java:523-538 | the lineage receives one array creation per expression |
| Fragment.MethodFragment.ProcessLiterals | src/main/java/gr/uom/java/ast/decomposition/AbstractMethodFragment.java:540-552 | the lineage receives one literal per expression |
| Fragment.MethodFragment.ProcessThrowStatement | src/main/java/gr/uom/java/ast/decomposition/AbstractMethodFragment.java:561-571 | the thrown expression is added to the exception set of every lineage member |
| Fragment.MethodFragment.GetClassInstanceCreations | src/main/java/gr/uom/java/ast/decomposition/AbstractMethodFragment.java:801-809 | the class instance creations of the creation list, in order |
| Fragment.MethodFragment.ContainsFieldInstruction | src/main/java/gr/uom/java/ast/decomposition/AbstractMethodFragment.java:837-839 | the list is scanned with the argument's `equals`: true exactly when some field instruction equals the argument up to the static flag; requires the argument's binding key when some element agrees in owner, name and type, where `equals` would throw; a present record is always found |
| Fragment.MethodFragment.GetArrayCreations | src/main/java/gr/uom/java/ast/decomposition/AbstractMethodFragment.java:811-819 | the array creations of the creation list, in order |
| Fragment.MethodFragment.GetInvokedMethodsThrough | src/main/java/gr/uom/java/ast/decomposition/AbstractMethodFragment.java:849-884 | the same keys as the non-distinct map, each with its invocations without duplicates |
| Fragment.MethodFragment.DistinctInvocations | src/main/java/gr/uom/java/ast/decomposition/AbstractMethodFragment.java:888-898 | the set view of an invocation list: no duplicates, same elements |
| Fragment.MethodFragment.DistinctFields | src/main/java/gr/uom/java/ast/decomposition/AbstractMethodFragment.java:904-964 | the set view of a defined/used field list: no duplicates, same elements |
| Aliasing.AssignmentsIn | src/main/java/org/jetbrains/research/intellijdeodorant/core/ast/decomposition/cfg/PDGNode.java:396-401 | the extracted expressions are all assignments, and an assignment statement's own assignment comes first |
| Aliasing.DeclarationInsertsOnly | src/main/java/org/jetbrains/research/intellijdeodorant/core/ast/decomposition/cfg/PDGNode.java:163-191 | a declaration inserts at most one alias, of the first declared variable, exactly when it is reference-typed and initialised with a reference to a declared variable; it never removes |
| Aliasing.DeclarationFirstElementOnly | src/main/java/org/jetbrains/research/intellijdeodorant/core/ast/decomposition/cfg/PDGNode.java:165-166 | the declared elements after the first change nothing |
| Aliasing.AssignmentOpsDeclared | src/main/java/org/jetbrains/research/intellijdeodorant/core/ast/decomposition/cfg/PDGNode.java:202-258 | every insertion and removal is about variables the lookups found among the declarations |
| Aliasing.ReferenceAssignment | src/main/java/org/jetbrains/research/intellijdeodorant/core/ast/decomposition/cfg/PDGNode.java:224-257 | `v = w` inserts (v, w) exactly when both are found; `v = <unresolved>` removes the aliases of a found `v` |
| Aliasing.NestedAssignment | src/main/java/org/jetbrains/research/intellijdeodorant/core/ast/decomposition/cfg/PDGNode.java:226-251 | `v = (u = e)` processes the inner assignment first, then adds at most the insertion (v, u) and removes nothing |
| Aliasing.AsWrittenNestedLosesAlias | src/main/java/org/jetbrains/research/intellijdeodorant/core/ast/decomposition/cfg/PDGNode.java:226-239 | `a = b = c` as written inserts only (b, c); the intended rule also inserts (a, b) |
| Aliasing.DeclarationOps | src/main/java/org/jetbrains/research/intellijdeodorant/core/ast/decomposition/cfg/PDGNode.java:163-191 | definition: a declaration statement calls for one insertion at most, decided by its first declared element (characterised by DeclarationInsertsOnly) |
| Aliasing.ReferenceOps | src/main/java/org/jetbrains/research/intellijdeodorant/core/ast/decomposition/cfg/PDGNode.java:240-256 | definition: `v = w` inserts (v, w) when both are found among the declarations, `v = <unresolved>` removes the aliases of a found `v` (characterised by ReferenceAssignment) |
| Aliasing.TracksLeftSide | src/main/java/org/jetbrains/research/intellijdeodorant/core/ast/decomposition/cfg/PDGNode.java:204-214 | definition: the assignment rule applies only when the left-hand side is a reference resolving to a reference-typed variable |
| Aliasing.AssignmentOpsAsWritten | src/main/java/org/jetbrains/research/intellijdeodorant/core/ast/decomposition/cfg/PDGNode.java:202-258 | definition: processAssignment as written, the nested left-hand side kept unresolved (Findings row 2; AsWrittenNestedLosesAlias) |
| Aliasing.AssignmentOps | src/main/java/org/jetbrains/research/intellijdeodorant/core/ast/decomposition/cfg/PDGNode.java:202-258 | definition: processAssignment with the nested left-hand side resolved (characterised by AssignmentOpsDeclared, ReferenceAssignment and NestedAssignment) |
| Aliasing.UpdateOps | src/main/java/org/jetbrains/research/intellijdeodorant/core/ast/decomposition/cfg/PDGNode.java:159-200 | definition: a declaration statement follows DeclarationOps, an assignment statement AssignmentOps, any other statement calls for nothing |
| PDG.FindDeclaration | src/main/java/org/jetbrains/research/intellijdeodorant/core/ast/decomposition/cfg/PDGNode.java:216-222 | the lookup finds a declaration exactly when the variable is among the declarations, and it is that variable |
| PDG.FindTarget | src/main/java/org/jetbrains/research/intellijdeodorant/core/ast/decomposition/cfg/PDGNode.java:241-248 | a resolved element is found exactly when it is a declared variable |
| PDG.PDGNode.UpdateReachingAliasSet | src/main/java/org/jetbrains/research/intellijdeodorant/core/ast/decomposition/cfg/PDGNode.java:159-200 | the alias set receives exactly the insertions and removals the statement calls for |
| PDG.PDGNode.ProcessAssignment | src/main/java/org/jetbrains/research/intellijdeodorant/core/ast/decomposition/cfg/PDGNode.java:202-258 | the alias set receives exactly the operations of the (corrected) assignment rule |
| PDG.AliasesApplied | src/main/java/org/jetbrains/research/intellijdeodorant/core/ast/decomposition/cfg/PDGNode.java:260-294 | applying aliases only adds to the defined and used sets, takes the snapshots once, and keeps snapshots already taken |
| PDG.AliasWideningMembers | src/main/java/org/jetbrains/research/intellijdeodorant/core/ast/decomposition/cfg/PDGNode.java:263-276 | a variable is added exactly when it is `a.f` for a composite original `r.f` with alias `a` |
| PDG.PlainVariablesNotWidened | src/main/java/org/jetbrains/research/intellijdeodorant/core/ast/decomposition/cfg/PDGNode.java:264-265 | plain variables are never widened |
| PDG.AliasesAppliedIdempotent | src/main/java/org/jetbrains/research/intellijdeodorant/core/ast/decomposition/cfg/PDGNode.java:260-294 | applying the same alias set twice is applying it once |
| PDG.AliasesAppliedFromSnapshot | src/main/java/org/jetbrains/research/intellijdeodorant/core/ast/decomposition/cfg/PDGNode.java:260-294 | later applications widen the first snapshot, never what earlier applications added |
| PDG.CompositeAliases | src/main/java/org/jetbrains/research/intellijdeodorant/core/ast/decomposition/cfg/PDGNode.java:263-276 | the loops compute exactly the widening of the originals |
| PDG.Reroot | src/main/java/org/jetbrains/research/intellijdeodorant/core/ast/decomposition/cfg/PDGNode.java:268-273 | the inner loop puts one composite variable on each alias |
| PDG.PDGNode.ApplyReachingAliasSet | src/main/java/org/jetbrains/research/intellijdeodorant/core/ast/decomposition/cfg/PDGNode.java:260-294 | the node's four sets become AliasesApplied of the old ones; the other fields are unchanged |
| PDG.Rerooted | src/main/java/org/jetbrains/research/intellijdeodorant/core/ast/decomposition/cfg/PDGNode.java:268-273 | definition: the composite variables `a.f` for each alias `a` of the root of `r.f` (characterised by Reroot) |
| PDG.AliasWidening | src/main/java/org/jetbrains/research/intellijdeodorant/core/ast/decomposition/cfg/PDGNode.java:263-276 | definition: the variables one application adds for the originals (characterised by AliasWideningMembers and CompositeAliases) |
| PDG.Snapshot | src/main/java/org/jetbrains/research/intellijdeodorant/core/ast/decomposition/cfg/PDGNode.java:261-262 | definition: the original set already taken, else the current one (used by AliasesApplied and AliasesAppliedFromSnapshot) |
| PDG.PDGNode.DeclaresLocalVariable | src/main/java/org/jetbrains/research/intellijdeodorant/core/ast/decomposition/cfg/PDGNode.java:75-77 | definition: membership in the declared set |
| PDG.PDGNode.DefinesLocalVariable | src/main/java/org/jetbrains/research/intellijdeodorant/core/ast/decomposition/cfg/PDGNode.java:79-81 | definition: membership in the defined set |
| PDG.PDGNode.UsesLocalVariable | src/main/java/org/jetbrains/research/intellijdeodorant/core/ast/decomposition/cfg/PDGNode.java:83-85 | definition: membership in the used set |
| PDG.PDGNode.constructor | src/main/java/org/jetbrains/research/intellijdeodorant/core/ast/decomposition/cfg/PDGNode.java:34-47 | the node takes the id and the declarations of its control-flow node; all sets are empty and no snapshot is taken |
| PDG.PDGNode.GetControlDependenceParent | src/main/java/org/jetbrains/research/intellijdeodorant/core/ast/decomposition/cfg/PDGNode.java:53-61 | the source of the first incoming control dependence, or null exactly when there is none |
| PDG.PDGNode.HasIncomingControlDependenceFromMethodEntryNode | src/main/java/org/jetbrains/research/intellijdeodorant/core/ast/decomposition/cfg/PDGNode.java:63-73 | true exactly when some incoming control dependence comes from the method entry node |
| PDG.PDGNode.ContainsClassInstanceCreation | src/main/java/org/jetbrains/research/intellijdeodorant/core/ast/decomposition/cfg/PDGNode.java:116-118 | true exactly when the node creates some object |
| PDG.PDGNode.ThrowsException | src/main/java/org/jetbrains/research/intellijdeodorant/core/ast/decomposition/cfg/PDGNode.java:120-122 | true exactly when the node throws some exception type |
| PDG.PDGNode.CompareTo | src/main/java/org/jetbrains/research/intellijdeodorant/core/ast/decomposition/cfg/PDGNode.java:155-157 | -1, 0 or 1 as the id is less than, equal to or greater than the other's |
| PDG.PDGNode.CompareToAntisymmetric | src/main/java/org/jetbrains/research/intellijdeodorant/core/ast/decomposition/cfg/PDGNode.java:155-157 | comparing the other way round negates the result |
| PDG.PDGNode.ChangesStateOfReference | src/main/java/org/jetbrains/research/intellijdeodorant/core/ast/decomposition/cfg/PDGNode.java:349-358 | true exactly when some defined composite variable is rooted at the declaration |
| PDG.PDGNode.AccessesReference | src/main/java/org/jetbrains/research/intellijdeodorant/core/ast/decomposition/cfg/PDGNode.java:360-369 | true exactly when the plain variable of the declaration is used |
| PDG.PDGNode.AssignsReference | src/main/java/org/jetbrains/research/intellijdeodorant/core/ast/decomposition/cfg/PDGNode.java:371-414 | true exactly when some declared variable is initialised with, or some assignment in the statement has on its right, a reference resolving to the declaration |

## Left out

- The syntax tree, the IDE's resolution services and type texts are
  inputs: each element carries the answers the front end gives
  (`resolve()`, `isPrimitive`, `hasModifier`, `getOriginalElement`,
  `isPhysical`). `TypeObject.extractTypeObject` is kept as the type text.
- `PsiTreeUtil.findChildrenOfType`, `MethodDeclarationUtility` and
  `ExpressionExtractor` are not part of this model. Their results are
  inputs: child fields, `createVariable`, and `processMethodInvocationExpression`.
  `AssignmentsIn` stands for `getAssignments`.
- The 31 collections of a fragment are one `store` map keyed by relation.
  There is one list per Java list, set, or map entry (keyed maps fold their
  key into the relation). Set collections append only absent facts, so
  LinkedHashSet order is kept.
- Each `process*` method computes its list of facts first and then adds
  them in the same order. The source reads no collection while it computes,
  so the stores end up the same.
- The getters that only return a collection are reads of `store` and have
  no member of their own.
- `containsMethodInvocation`, `containsSuperMethodInvocation` and
  `containsLocalVariableDeclaration` use the `equals` of
  `MethodInvocationObject`, `SuperMethodInvocationObject` and
  `LocalVariableDeclarationObject`, which are not part of this model. The
  model reads them as membership by value equality of the recorded facts,
  and has no member of their own. `containsFieldInstruction` is modelled
  by `Fragment.MethodFragment.ContainsFieldInstruction`, with the rule of
  `FieldInstructionObject.equals`.
- Fragment.MethodFragment.ContainsFieldInstruction: the list holds values,
  so object identity is lost. The source's `this == o` shortcut, which lets
  the very object stored in the list be found even without a binding key,
  is not modelled; the requires asks for the key in that case too.
- Anonymous class bodies: only the name and the declaration are modelled.
  The fields, methods, parameters and annotations of the anonymous class,
  and the access precedence computed for them, are not.
- The parameter-passed-as-argument maps, the map of variables assigned with
  class instance creations, and `addConstructorInvocation` have add helpers
  that this file never calls. They are relations of the store with no rule
  that fills them.
- The loop over invocation arguments in `processMethodInvocations` has no
  effect and is not modelled.
- What a reference resolves to is an input. For a local variable, the
  input also says whether the reference is the variable's declaring
  occurrence. Line 213 makes that choice between a declaration and an access
  with `isPhysical()`, which holds for every element of a file, so the
  corrected reading takes the choice itself as the input.
- An anonymous class is named, in the corrected reading, by formatting a key
  that the front end supplies. Lines 431-432 take that substring from the
  class's name, which an anonymous class does not have.
- Fragment.MethodFragment.ProcessVariables,
  Fragment.MethodFragment.ProcessMethodInvocations and
  Fragment.MethodFragment.ProcessClassInstanceCreations follow the corrected
  rules of Findings rows 1 and 3 to 7. The rules as written are kept beside
  them as `ProcessVariablesAsWritten`, `ProcessMethodInvocationsAsWritten` and
  `ProcessClassInstanceCreationsAsWritten`. Every function of `FragmentRules`
  that differs takes an `intended` flag.
- Fragment.MethodFragment.GetInvokedMethodsThrough: the invocation maps are
  LinkedHashMaps. The model keeps them as Dafny maps (`store`,
  `Facts.AppendTo`, `Collections.DistinctValues`), so the insertion order of
  their keys is lost. The order of each key's list is kept.
- FieldInstructions.FieldInstructionObject.HashCode: `String.hashCode`
  is modelled over code points rather than UTF-16 code units, and
  `TypeObject.hashCode` is a parameter of the model. The `volatile`
  qualifier of the cache is not modelled. `getSimpleName` and the AST
  information it recovers are left out.
- `PDGNode.instantiatesLocalVariable` and `getClassInstantiations` are
  left out. They need the class hierarchy (superclass and interfaces) and
  `PsiNewExpression` references, which are not modelled.
- `PDGNode.equals`, `hashCode`, `toString`, `getCFGNode`, `getBasicBlock`
  and `getStatement` delegate to the control-flow node, which is not part
  of this model. The id-only constructor `PDGNode()` and
  `cfgNode.setPDGNode(this)` are left out too.
- The node's LinkedHashSets are Dafny sets, so iteration order is lost.
  None of the modelled queries depends on it.
- `ReachingAliasSet` is not part of this model. The model records the
  insertAlias/removeAlias calls made on it, in order. `applyReachingAliasSet`
  receives its containsAlias/getAliases answers as a map.
- PDG.PDGNode.ProcessAssignment, PDG.PDGNode.UpdateReachingAliasSet and
  Aliasing.UpdateOps implement the corrected nested-assignment rule (see
  Findings). `AssignmentOpsAsWritten` keeps the rule as written.

## Findings

| source | as written | input that shows it | evidently intended | confidence | as-written member | corrected member |
|---|---|---|---|---|---|---|
| src/main/java/gr/uom/java/ast/decomposition/AbstractMethodFragment.java:405-521 | the loop runs only when the expression's original element is a class (line 408), and the original element of a `new` expression in source code is that expression; even inside the guard, no creation is ever added | a list with one `new A()`: nothing is recorded, so getClassInstanceCreations returns nothing | record every `new` expression's creation, after its anonymous class body, if any | not executed | FragmentRules.AsWrittenLosesCreation | FragmentRules.CreationsRecorded |
| src/main/java/org/jetbrains/research/intellijdeodorant/core/ast/decomposition/cfg/PDGNode.java:226-239 | for `v = (u = e)` the inner left-hand side expression is compared with declarations without being resolved, so it never matches | `a = b = c` with `a`, `b`, `c` reference-typed locals: only (b, c) is inserted | resolve the inner left-hand side, so that (a, b) is inserted as well | not executed | Aliasing.AsWrittenNestedLosesAlias | PDG.PDGNode.ProcessAssignment |
| src/main/java/gr/uom/java/ast/decomposition/AbstractMethodFragment.java:138-140 | `operator.equals(JavaTokenType.EQ)` compares a token with an element type, which is never equal, so every matching assignment also records a use (also at lines 188-190 and 228-230) | latent while row 4 stands: once `x = 5;` is matched to the field `x`, `x` is recorded as defined and used | only compound assignments (`+=` and so on) record a use | not executed | FragmentRules.AsWrittenPlainAssignmentIsUse | FragmentRules.PlainAssignmentsDefineOnly |
| src/main/java/gr/uom/java/ast/decomposition/AbstractMethodFragment.java:685-727 | the matching helpers compare the declaration with the assignment's left-hand side expression (line 691), with the original element of a postfix operand (line 706) and with a prefix operand (line 720), so nothing ever matches | `x = 5;` with `x` a field of a named class: the field instruction and a use of `x` are recorded, no definition | compare with what the expression resolves to, so that `x` is recorded as defined | not executed | FragmentRules.AsWrittenFieldWriteIsUse | FragmentRules.FieldWriteDefines |
| src/main/java/gr/uom/java/ast/decomposition/AbstractMethodFragment.java:207-244 | the local-variable block runs only when the resolved element's parent is a local variable (line 208); the parent of a resolved local variable is its declaration statement | `y = x + 1;` with `x` a local variable: nothing about `x` is recorded (no access, no use), and processing goes on | test whether the resolved element is a local variable, then record its declaration or its access with definitions and uses | not executed | FragmentRules.AsWrittenLocalReferenceSkipped | FragmentRules.LocalAccessRecorded |
| src/main/java/gr/uom/java/ast/decomposition/AbstractMethodFragment.java:340-347 | a call is filed through `this` only when its method expression is a `this` expression, which a method expression never is | `foo()` with `foo` a resolved non-static method and no invoker: the call is not filed through `this` | file unqualified and `this`-qualified calls through `this` | not executed | FragmentRules.AsWrittenNothingThroughThis | FragmentRules.UnqualifiedCallThroughThis |
| src/main/java/gr/uom/java/ast/decomposition/AbstractMethodFragment.java:355-380 | the method of a super expression is taken as the element that holds its reference (line 357), which is never a method, so the loop returns at every super expression (or throws when it has no reference) | a list with a super expression referring to `m`, then a resolved call `foo()`: neither is recorded | resolve the reference, record the super method invocation, and go on | not executed | FragmentRules.AsWrittenNoSuperInvocation | FragmentRules.SuperCallRecorded |
