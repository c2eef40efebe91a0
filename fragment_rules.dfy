/**
 * What the process* methods of a method fragment record, as functions of
 * their syntax inputs. The syntax tree is not modelled: each input element
 * carries the answers the front end gives about it (what a reference
 * resolves to, whether a type is static, which operator an assignment uses).
 * Each function lists the facts in the order the source issues them.
 *
 * Where the source as written cannot do what it evidently means to do, a
 * flag `intended` selects between the two readings: `false` is the code as
 * written, `true` the corrected rule.
 */
module FragmentRules {

  import opened Wrappers
  import opened Variables
  import opened Collections
  import opened FieldInstructions
  import opened Facts

  /** What a run of a process method records, and whether it ran to the end or stopped on an exception. */
  datatype Outcome = Outcome(events: seq<Fact>, completed: bool)

  /** Running a step over a list: events in order, up to and including the step that throws. */
  function Run<T>(xs: seq<T>, step: T -> Outcome): Outcome
    decreases |xs|
  {
    if xs == [] then Outcome([], true)
    else
      var o := step(xs[0]);
      if !o.completed then o
      else
        var rest := Run(xs[1..], step);
        Outcome(o.events + rest.events, rest.completed)
  }

  /** One more step after a run that completed. */
  lemma {:induction false} RunSnoc<T>(xs: seq<T>, x: T, step: T -> Outcome)
    requires Run(xs, step).completed
    ensures Run(xs + [x], step) == Outcome(Run(xs, step).events + step(x).events, step(x).completed)
    decreases |xs|
  {
    if xs == [] {
      assert [x][1..] == [];
    } else {
      var ys := xs + [x];
      assert ys[0] == xs[0] && ys[1..] == xs[1..] + [x];
      RunSnoc(xs[1..], x, step);
      var o, r, s := step(xs[0]).events, Run(xs[1..], step).events, step(x).events;
      assert o + (r + s) == o + r + s;
    }
  }

  /** Once a run has thrown, nothing after it counts. */
  lemma {:induction false} RunStops<T>(xs: seq<T>, ys: seq<T>, step: T -> Outcome)
    requires !Run(xs, step).completed
    ensures Run(xs + ys, step) == Run(xs, step)
    decreases |xs|
  {
    assert xs != [];
    if step(xs[0]).completed {
      assert (xs + ys)[1..] == xs[1..] + ys;
      RunStops(xs[1..], ys, step);
    }
  }

  /** Every event of a run is an event of one of its steps. */
  lemma {:induction false} RunEvents<T>(xs: seq<T>, step: T -> Outcome)
    ensures forall e :: e in Run(xs, step).events ==> exists i :: 0 <= i < |xs| && e in step(xs[i]).events
    decreases |xs|
  {
    if xs != [] && step(xs[0]).completed {
      RunEvents(xs[1..], step);
      forall e | e in Run(xs, step).events
        ensures exists i :: 0 <= i < |xs| && e in step(xs[i]).events
      {
        if e !in step(xs[0]).events {
          assert e in Run(xs[1..], step).events;
          var i :| 0 <= i < |xs[1..]| && e in step(xs[1..][i]).events;
          assert xs[1..][i] == xs[i + 1];
        }
      }
    }
  }

  /** A PsiField as the front end describes it. */
  datatype FieldTarget = FieldTarget(
    element: nat,                       // the field's identity, compared by the matching helpers
    reference: Option<nat>,             // what setSimpleName stores as the binding key
    containingClass: Option<string>,    // the containing class's name; None when there is no class or no name
    fieldType: TypeObject,
    name: string,
    isStatic: bool,
    variable: Option<AbstractVariable>) // what createVariable(field, null) returns

  /**
   * A PSI element as the matching helpers compare it: a declaration (a
   * field or a variable), or an expression with the declaration it
   * resolves to when it is a reference.
   */
  datatype PsiElement = Declaration(id: nat) | Expression(id: nat, resolvesTo: Option<nat>)

  /** An expression is never a declaration. */
  type PsiExpression = e: PsiElement | e.Expression? witness Expression(0, None)

  /**
   * What a reference expression resolves to. resolve() returns a
   * declaration: a field, a local variable (whose parent is its declaration
   * statement), or another element such as a parameter, a method or a class.
   */
  datatype Resolution =
    | ResolvesToField(field: FieldTarget)
      /**
       * A local variable: its declaration, name and type text, its
       * declaration statement, and whether this reference is the
       * variable's own declaring occurrence.
       */
    | ResolvesToLocal(
        element: nat, local: PsiVar, name: string, varType: string,
        declaring: bool, declarationStatement: nat)
    | ResolvesToOther
    | Unresolved

  /** What kind of expression a variable instruction is; a super expression is not a reference expression. */
  datatype InstructionKind = SuperExpression | ReferenceExpression(resolved: Resolution) | OtherExpression

  /** One expression of the variable-instruction list: the fields found below it, and its kind. */
  datatype VariableInstruction = VariableInstruction(childFields: seq<FieldTarget>, kind: InstructionKind)

  /** An expression of the assignment list: an assignment, its left-hand side and its operator. */
  datatype AssignmentCandidate = AssignmentCandidate(id: nat, isAssignment: bool, lhs: PsiExpression, plainEq: bool)

  /** An expression of the postfix list and its operand (in source code, the operand is its own original element). */
  datatype PostfixCandidate = PostfixCandidate(id: nat, isPostfix: bool, operand: PsiExpression)

  /**
   * An expression of the prefix list, its operand, whether the prefix
   * expression is an increment or decrement, and whether its operand is one.
   */
  datatype PrefixCandidate = PrefixCandidate(
    id: nat, isPrefix: bool, operand: PsiExpression, incrementOrDecrement: bool, operandIncrementOrDecrement: bool)

  /** The assignment, postfix and prefix lists processVariables is given. */
  datatype Writes = Writes(
    assignments: seq<AssignmentCandidate>, postfixes: seq<PostfixCandidate>, prefixes: seq<PrefixCandidate>)

  /**
   * As written, the left-hand side expression itself is compared with the
   * declaration; intended, what it resolves to.
   */
  predicate AssignmentMatches(target: nat, a: AssignmentCandidate, intended: bool) {
    a.isAssignment && if intended then a.lhs.resolvesTo == Some(target) else a.lhs == Declaration(target)
  }

  predicate PostfixMatches(target: nat, p: PostfixCandidate, intended: bool) {
    p.isPostfix && if intended then p.operand.resolvesTo == Some(target) else p.operand == Declaration(target)
  }

  /** As written, the increment test is also asked of the operand instead of the prefix expression. */
  predicate PrefixMatches(target: nat, p: PrefixCandidate, intended: bool) {
    && p.isPrefix
    && if intended then p.operand.resolvesTo == Some(target) && p.incrementOrDecrement
       else p.operand == Declaration(target) && p.operandIncrementOrDecrement
  }

  /** The assignments to the target, in list order (repeats kept). */
  function AssignmentsTo(target: nat, xs: seq<AssignmentCandidate>, intended: bool): (r: seq<AssignmentCandidate>)
    ensures forall a :: a in r <==> a in xs && AssignmentMatches(target, a, intended)
  {
    if xs == [] then []
    else
      var x := xs[|xs| - 1];
      AssignmentsTo(target, xs[..|xs| - 1], intended) + (if AssignmentMatches(target, x, intended) then [x] else [])
  }

  function PostfixesOf(target: nat, xs: seq<PostfixCandidate>, intended: bool): (r: seq<PostfixCandidate>)
    ensures forall p :: p in r <==> p in xs && PostfixMatches(target, p, intended)
  {
    if xs == [] then []
    else
      var x := xs[|xs| - 1];
      PostfixesOf(target, xs[..|xs| - 1], intended) + (if PostfixMatches(target, x, intended) then [x] else [])
  }

  function PrefixesOf(target: nat, xs: seq<PrefixCandidate>, intended: bool): (r: seq<PrefixCandidate>)
    ensures forall p :: p in r <==> p in xs && PrefixMatches(target, p, intended)
  {
    if xs == [] then []
    else
      var x := xs[|xs| - 1];
      PrefixesOf(target, xs[..|xs| - 1], intended) + (if PrefixMatches(target, x, intended) then [x] else [])
  }

  /** As written, an expression is compared with a declaration, so nothing ever matches. */
  lemma AsWrittenMatchesNothing(target: nat, w: Writes)
    ensures AssignmentsTo(target, w.assignments, false) == []
    ensures PostfixesOf(target, w.postfixes, false) == []
    ensures PrefixesOf(target, w.prefixes, false) == []
  {
    NoAssignmentsAsWritten(target, w.assignments);
    NoPostfixesAsWritten(target, w.postfixes);
    NoPrefixesAsWritten(target, w.prefixes);
  }

  lemma {:induction false} NoAssignmentsAsWritten(target: nat, xs: seq<AssignmentCandidate>)
    ensures AssignmentsTo(target, xs, false) == []
  {
    if xs != [] {
      NoAssignmentsAsWritten(target, xs[..|xs| - 1]);
    }
  }

  lemma {:induction false} NoPostfixesAsWritten(target: nat, xs: seq<PostfixCandidate>)
    ensures PostfixesOf(target, xs, false) == []
  {
    if xs != [] {
      NoPostfixesAsWritten(target, xs[..|xs| - 1]);
    }
  }

  lemma {:induction false} NoPrefixesAsWritten(target: nat, xs: seq<PrefixCandidate>)
    ensures PrefixesOf(target, xs, false) == []
  {
    if xs != [] {
      NoPrefixesAsWritten(target, xs[..|xs| - 1]);
    }
  }

  /** One use per matched assignment whose operator is not plain `=`, in order. */
  function CompoundUses(use: Fact, xs: seq<AssignmentCandidate>): seq<Fact>
  {
    if xs == [] then []
    else
      CompoundUses(use, xs[..|xs| - 1]) + (if xs[|xs| - 1].plainEq then [] else [use])
  }

  /** The uses are all `use`, and there is one exactly when some matched assignment is compound. */
  lemma {:induction false} CompoundUsesMembers(use: Fact, xs: seq<AssignmentCandidate>)
    ensures forall e :: e in CompoundUses(use, xs) ==> e == use
    ensures use in CompoundUses(use, xs) <==> exists a :: a in xs && !a.plainEq
  {
    if xs != [] {
      var init, x := xs[..|xs| - 1], xs[|xs| - 1];
      CompoundUsesMembers(use, init);
      assert xs == init + [x];
      if use in CompoundUses(use, xs) && x.plainEq {
        assert use in CompoundUses(use, init);
        var a :| a in init && !a.plainEq;
        assert a in xs;
      }
    }
  }

  /**
   * The def/use rule for one variable: its distinct matched assignments,
   * and whether some postfix or some prefix expression matched.
   */
  function DefUseEvents(def: Fact, use: Fact, assignments: seq<AssignmentCandidate>, postfix: bool, prefix: bool): seq<Fact>
  {
    (if assignments != [] then [def] + CompoundUses(use, assignments) else [])
    + (if postfix then [def, use] else [])
    + (if prefix then [def, use] else [])
    + (if assignments == [] && !postfix && !prefix then [use] else [])
  }

  /**
   * The four-way rule: the variable is defined exactly when an assignment,
   * a postfix or a prefix expression matched; it is used exactly when a
   * compound assignment, a postfix or a prefix expression matched, or when
   * nothing matched at all.
   */
  lemma DefUseRule(def: Fact, use: Fact, assignments: seq<AssignmentCandidate>, postfix: bool, prefix: bool)
    requires def != use
    ensures var es := DefUseEvents(def, use, assignments, postfix, prefix);
      && (def in es <==> assignments != [] || postfix || prefix)
      && (use in es <==> (exists a :: a in assignments && !a.plainEq) || postfix || prefix || (assignments == [] && !postfix && !prefix))
      && (forall e :: e in es ==> e == def || e == use)
  {
    CompoundUsesMembers(use, assignments);
  }

  /** Plain `=` assignments alone make the variable defined and nothing else. */
  lemma PlainAssignmentsDefineOnly(def: Fact, use: Fact, assignments: seq<AssignmentCandidate>)
    requires assignments != [] && forall a :: a in assignments ==> a.plainEq
    ensures DefUseEvents(def, use, assignments, false, false) == [def]
  {
    NoCompoundUses(use, assignments);
  }

  lemma {:induction false} NoCompoundUses(use: Fact, xs: seq<AssignmentCandidate>)
    requires forall a :: a in xs ==> a.plainEq
    ensures CompoundUses(use, xs) == []
  {
    if xs != [] {
      NoCompoundUses(use, xs[..|xs| - 1]);
      assert xs[|xs| - 1] in xs;
    }
  }

  /**
   * The operator test as the source writes it compares the operator token
   * with the element type EQ; a token never equals an element type, so no
   * assignment is recognised as a plain `=`: each reads as a compound one.
   */
  function AsWrittenOperators(xs: seq<AssignmentCandidate>): (r: seq<AssignmentCandidate>)
    ensures |r| == |xs|
    ensures forall i :: 0 <= i < |xs| ==> r[i] == xs[i].(plainEq := false)
  {
    if xs == [] then [] else AsWrittenOperators(xs[..|xs| - 1]) + [xs[|xs| - 1].(plainEq := false)]
  }

  /** The def/use rule with the operator test as written. */
  function DefUseEventsAsWritten(def: Fact, use: Fact, assignments: seq<AssignmentCandidate>, postfix: bool, prefix: bool): seq<Fact>
  {
    DefUseEvents(def, use, AsWrittenOperators(assignments), postfix, prefix)
  }

  /**
   * With the operator test as written, a variable matched only by a plain
   * `=` assignment is also used: `x = 1` gives both facts.
   */
  lemma AsWrittenPlainAssignmentIsUse(def: Fact, use: Fact)
    requires def != use
    ensures var a := [AssignmentCandidate(1, true, Expression(2, Some(5)), true)];
      && DefUseEventsAsWritten(def, use, a, false, false) == [def, use]
      && DefUseEvents(def, use, a, false, false) == [def]
  {
    var a := [AssignmentCandidate(1, true, Expression(2, Some(5)), true)];
    var b := AsWrittenOperators(a);
    assert |b| == 1 && !b[0].plainEq;
    assert b[..0] == [];
    assert CompoundUses(use, b) == CompoundUses(use, []) + [use];
    assert a[..0] == [];
    assert CompoundUses(use, a) == CompoundUses(use, []) + [];
  }

  /** The def/use facts of the variable declared as `target`: its matched writes, then the rule. */
  function DefUseOf(def: Fact, use: Fact, target: nat, w: Writes, intended: bool): seq<Fact>
  {
    var matched := Distinct(AssignmentsTo(target, w.assignments, intended));
    var postfix := PostfixesOf(target, w.postfixes, intended) != [];
    var prefix := PrefixesOf(target, w.prefixes, intended) != [];
    if intended then DefUseEvents(def, use, matched, postfix, prefix)
    else DefUseEventsAsWritten(def, use, matched, postfix, prefix)
  }

  /** As written, every accessed variable is recorded as used and never as defined. */
  lemma AsWrittenOnlyUses(def: Fact, use: Fact, target: nat, w: Writes)
    ensures DefUseOf(def, use, target, w, false) == [use]
  {
    AsWrittenMatchesNothing(target, w);
    assert Distinct<AssignmentCandidate>([]) == [];
  }

  /** The record a field access produces: setSimpleName(field), then setStatic when the field is static. */
  function FieldRecord(f: FieldTarget): (r: FieldInstruction)
    requires f.containingClass.Some?
    ensures r.ownerClass == f.containingClass.value && r.name == f.name && r.fieldType == f.fieldType
    ensures r.isStatic == f.isStatic && r.bindingKey == f.reference
  {
    FieldInstruction(f.containingClass.value, f.fieldType, f.name, f.isStatic, f.reference)
  }

  /** A field access through a super expression, or an ordinary one with its def/use facts. */
  function FieldAccessEvents(f: FieldTarget, isSuper: bool, w: Writes, intended: bool): seq<Fact>
    requires f.containingClass.Some?
  {
    if isSuper then [SuperFieldInstructionFact(FieldRecord(f))]
    else [FieldInstructionFact(FieldRecord(f))] + DefUseOf(DefinedField(f.variable), UsedField(f.variable), f.element, w, intended)
  }

  /**
   * A field found below an instruction: recorded when its class has a
   * non-empty name. A field without a containing class, or whose class has
   * no name, makes the source dereference null, which throws.
   */
  function ChildFieldStep(f: FieldTarget, isSuper: bool, w: Writes, intended: bool): Outcome
  {
    if f.containingClass.None? then Outcome([], false)
    else if f.containingClass.value == "" then Outcome([], true)
    else Outcome(FieldAccessEvents(f, isSuper, w, intended), true)
  }

  function ChildStep(isSuper: bool, w: Writes, intended: bool): FieldTarget -> Outcome
  {
    f => ChildFieldStep(f, isSuper, w, intended)
  }

  /**
   * A reference expression: a field access, or a local variable's
   * declaration or access. A reference expression is never a super
   * expression, so the super-field branch of the reference block is never
   * taken and is not modelled. As written, the local-variable block runs
   * when the resolved element's parent is a local variable; the parent of
   * a resolved declaration never is (a local variable's parent is its
   * declaration statement), so nothing but a field is ever recorded.
   * Intended, a resolved local variable is recorded: its declaration when
   * the reference is its declaring occurrence, else an access with its
   * definitions and uses.
   */
  function ReferenceEvents(resolved: Resolution, w: Writes, intended: bool): seq<Fact>
  {
    match resolved
    case ResolvesToField(f) =>
      if f.containingClass.Some? && f.containingClass.value != "" then FieldAccessEvents(f, false, w, intended)
      else []
    case ResolvesToLocal(element, local, name, varType, declaring, statement) =>
      if !intended then []
      else if declaring then
        [LocalDeclarationFact(LocalVariableDeclaration(varType, name, statement)), DeclaredLocal(Plain(local))]
      else
        [LocalInstructionFact(LocalVariableInstruction(varType, name))]
          + DefUseOf(DefinedLocal(Plain(local)), UsedLocal(Plain(local)), element, w, true)
    case _ => []
  }

  /** One expression of processVariables: the fields found below it, then, for a reference expression, its reference. */
  function InstructionStep(x: VariableInstruction, w: Writes, intended: bool): Outcome
  {
    var fields := Run(x.childFields, ChildStep(x.kind.SuperExpression?, w, intended));
    if !fields.completed || !x.kind.ReferenceExpression? then fields
    else Outcome(fields.events + ReferenceEvents(x.kind.resolved, w, intended), true)
  }

  function InstructionSteps(w: Writes, intended: bool): VariableInstruction -> Outcome
  {
    x => InstructionStep(x, w, intended)
  }

  /** processVariables: the facts of every instruction, in list order, up to the first exception. */
  function VariablesRun(instructions: seq<VariableInstruction>, w: Writes, intended: bool): Outcome
  {
    Run(instructions, InstructionSteps(w, intended))
  }

  predicate IsDefinition(e: Fact) {
    e.DefinedField? || e.DefinedLocal?
  }

  lemma AsWrittenFieldAccessDefinesNothing(f: FieldTarget, isSuper: bool, w: Writes)
    requires f.containingClass.Some?
    ensures forall e :: e in FieldAccessEvents(f, isSuper, w, false) ==> !IsDefinition(e)
  {
    AsWrittenOnlyUses(DefinedField(f.variable), UsedField(f.variable), f.element, w);
  }

  lemma AsWrittenInstructionDefinesNothing(x: VariableInstruction, w: Writes)
    ensures forall e :: e in InstructionStep(x, w, false).events ==> !IsDefinition(e)
  {
    var step := ChildStep(x.kind.SuperExpression?, w, false);
    RunEvents(x.childFields, step);
    forall f | f in x.childFields && f.containingClass.Some?
      ensures forall e :: e in step(f).events ==> !IsDefinition(e)
    {
      AsWrittenFieldAccessDefinesNothing(f, x.kind.SuperExpression?, w);
    }
    if x.kind.ReferenceExpression? {
      match x.kind.resolved
      case ResolvesToField(f) =>
        if f.containingClass.Some? {
          AsWrittenFieldAccessDefinesNothing(f, false, w);
        }
      case _ =>
    }
  }

  /**
   * As written, processVariables never records a definition: no field or
   * local variable is ever defined, whatever is assigned to it.
   */
  lemma AsWrittenDefinesNothing(instructions: seq<VariableInstruction>, w: Writes)
    ensures forall e :: e in VariablesRun(instructions, w, false).events ==> !IsDefinition(e)
  {
    RunEvents(instructions, InstructionSteps(w, false));
    forall x | x in instructions
      ensures forall e :: e in InstructionStep(x, w, false).events ==> !IsDefinition(e)
    {
      AsWrittenInstructionDefinesNothing(x, w);
    }
  }

  /** `x = 5;` on a field x: as written, x is only used; intended, only defined. */
  lemma AsWrittenFieldWriteIsUse(f: FieldTarget)
    requires f.containingClass.Some? && f.containingClass.value != ""
    ensures var w := Writes([AssignmentCandidate(1, true, Expression(2, Some(f.element)), true)], [], []);
      && FieldAccessEvents(f, false, w, false) == [FieldInstructionFact(FieldRecord(f)), UsedField(f.variable)]
      && FieldAccessEvents(f, false, w, true) == [FieldInstructionFact(FieldRecord(f)), DefinedField(f.variable)]
  {
    var a := AssignmentCandidate(1, true, Expression(2, Some(f.element)), true);
    var w := Writes([a], [], []);
    AsWrittenOnlyUses(DefinedField(f.variable), UsedField(f.variable), f.element, w);
    assert [a][..0] == [];
    assert AssignmentsTo(f.element, [a], true) == [a];
    DistinctOfDistinct([a]);
    PlainAssignmentsDefineOnly(DefinedField(f.variable), UsedField(f.variable), [a]);
    var pf := PostfixesOf(f.element, [], true);
    var pr := PrefixesOf(f.element, [], true);
    assert pf == [] && pr == [];
  }

  /** Intended, a field written by some assignment to it is recorded as defined. */
  lemma FieldWriteDefines(f: FieldTarget, w: Writes, k: nat)
    requires f.containingClass.Some?
    requires k < |w.assignments| && AssignmentMatches(f.element, w.assignments[k], true)
    ensures DefinedField(f.variable) in FieldAccessEvents(f, false, w, true)
  {
    var s := AssignmentsTo(f.element, w.assignments, true);
    assert w.assignments[k] in s;
    DistinctMember(s, w.assignments[k]);
    DefUseRule(DefinedField(f.variable), UsedField(f.variable), Distinct(s),
      PostfixesOf(f.element, w.postfixes, true) != [], PrefixesOf(f.element, w.prefixes, true) != []);
  }

  /** A reference to a local variable, with no fields below it. */
  predicate LocalReference(x: VariableInstruction) {
    x.childFields == [] && x.kind.ReferenceExpression? && x.kind.resolved.ResolvesToLocal?
  }

  /** As written, a reference to a local variable records nothing, and processVariables goes on. */
  lemma AsWrittenLocalReferenceSkipped(xs: seq<VariableInstruction>, x: VariableInstruction, w: Writes)
    requires LocalReference(x) && VariablesRun(xs, w, false).completed
    ensures VariablesRun(xs + [x], w, false) == VariablesRun(xs, w, false)
  {
    var step := InstructionSteps(w, false);
    assert Run(x.childFields, ChildStep(false, w, false)) == Outcome([], true);
    RunSnoc(xs, x, step);
    assert VariablesRun(xs, w, false).events + [] + [] == VariablesRun(xs, w, false).events;
  }

  predicate IsLocalFact(e: Fact) {
    e.LocalDeclarationFact? || e.LocalInstructionFact? || e.DeclaredLocal? || e.DefinedLocal? || e.UsedLocal?
  }

  lemma AsWrittenFieldAccessRecordsNoLocal(f: FieldTarget, isSuper: bool, w: Writes)
    requires f.containingClass.Some?
    ensures forall e :: e in FieldAccessEvents(f, isSuper, w, false) ==> !IsLocalFact(e)
  {
    AsWrittenOnlyUses(DefinedField(f.variable), UsedField(f.variable), f.element, w);
  }

  lemma AsWrittenInstructionRecordsNoLocal(x: VariableInstruction, w: Writes)
    ensures forall e :: e in InstructionStep(x, w, false).events ==> !IsLocalFact(e)
  {
    var step := ChildStep(x.kind.SuperExpression?, w, false);
    RunEvents(x.childFields, step);
    forall f | f in x.childFields && f.containingClass.Some?
      ensures forall e :: e in step(f).events ==> !IsLocalFact(e)
    {
      AsWrittenFieldAccessRecordsNoLocal(f, x.kind.SuperExpression?, w);
    }
    if x.kind.ReferenceExpression? && x.kind.resolved.ResolvesToField? && x.kind.resolved.field.containingClass.Some? {
      AsWrittenFieldAccessRecordsNoLocal(x.kind.resolved.field, false, w);
    }
  }

  /** As written, processVariables records no local variable at all: no declaration, no access, no definition or use. */
  lemma AsWrittenRecordsNoLocal(instructions: seq<VariableInstruction>, w: Writes)
    ensures forall e :: e in VariablesRun(instructions, w, false).events ==> !IsLocalFact(e)
  {
    RunEvents(instructions, InstructionSteps(w, false));
    forall x | x in instructions
      ensures forall e :: e in InstructionStep(x, w, false).events ==> !IsLocalFact(e)
    {
      AsWrittenInstructionRecordsNoLocal(x, w);
    }
  }

  /** Intended, the declaring occurrence of a local variable records its declaration, and processVariables goes on. */
  lemma LocalDeclarationRecorded(xs: seq<VariableInstruction>, x: VariableInstruction, w: Writes)
    requires LocalReference(x) && x.kind.resolved.declaring && VariablesRun(xs, w, true).completed
    ensures var r := x.kind.resolved;
      && VariablesRun(xs + [x], w, true).completed
      && LocalDeclarationFact(LocalVariableDeclaration(r.varType, r.name, r.declarationStatement)) in VariablesRun(xs + [x], w, true).events
      && DeclaredLocal(Plain(r.local)) in VariablesRun(xs + [x], w, true).events
  {
    var step := InstructionSteps(w, true);
    assert Run(x.childFields, ChildStep(false, w, true)) == Outcome([], true);
    RunSnoc(xs, x, step);
  }

  /**
   * Intended, any other reference to a local variable records the access,
   * then the definitions and uses the def/use rule gives for its writes.
   */
  lemma LocalAccessRecorded(xs: seq<VariableInstruction>, x: VariableInstruction, w: Writes)
    requires LocalReference(x) && !x.kind.resolved.declaring && VariablesRun(xs, w, true).completed
    ensures var r := x.kind.resolved;
      VariablesRun(xs + [x], w, true)
      == Outcome(VariablesRun(xs, w, true).events + [LocalInstructionFact(LocalVariableInstruction(r.varType, r.name))]
           + DefUseOf(DefinedLocal(Plain(r.local)), UsedLocal(Plain(r.local)), r.element, w, true), true)
  {
    var step := InstructionSteps(w, true);
    assert Run(x.childFields, ChildStep(false, w, true)) == Outcome([], true);
    RunSnoc(xs, x, step);
  }

  /** A resolved method: declaring class's qualified name, name, return type, parameter types, thrown types, static flag. */
  datatype MethodBinding = MethodBinding(
    containingClass: Option<string>, name: string, returnType: Option<string>,
    parameterTypes: seq<string>, thrownExceptions: seq<string>, isStatic: bool)

  /** The method a super expression refers to: its text, return type, parameter names, thrown types, static flag. */
  datatype SuperBinding = SuperBinding(
    text: string, returnType: string, parameterNames: seq<string>, thrownExceptions: seq<string>, isStatic: bool)

  /** The qualifier of a call's method expression: none, `this`, or another expression. */
  datatype Qualifier = NoQualifier | ThisQualifier | OtherQualifier

  /**
   * An expression of the method-invocation list. A call carries its
   * resolved method (if any), the variable it is invoked through (what
   * processMethodInvocationExpression returns) and the qualifier of its
   * method expression. A super expression carries the implementation class
   * name of the expression object, whether it has a reference, and the
   * method that reference resolves to, if it resolves to a method.
   */
  datatype InvocationExpression =
    | MethodCall(binding: Option<MethodBinding>, invoker: Option<AbstractVariable>, qualifier: Qualifier)
    | SuperCall(implementationClass: string, hasReference: bool, target: Option<SuperBinding>)
    | OtherInvocation

  /** The MethodInvocationObject built for a resolved call; a missing return type reads as "Object". */
  function CallRecord(b: MethodBinding): (m: MethodInvocation)
    ensures m.originClass == b.containingClass && m.name == b.name && m.isStatic == b.isStatic
    ensures m.returnType == (if b.returnType.Some? then b.returnType.value else "Object")
    ensures m.parameterTypes == b.parameterTypes && m.thrownExceptions == b.thrownExceptions
  {
    MethodInvocation(b.containingClass, b.name, if b.returnType.Some? then b.returnType.value else "Object",
      b.parameterTypes, b.thrownExceptions, b.isStatic)
  }

  /** The SuperMethodInvocationObject built for a super expression that refers to a method. */
  function SuperRecord(implementationClass: string, b: SuperBinding): (m: MethodInvocation)
    ensures m.originClass == Some(implementationClass) && m.name == b.text && m.returnType == b.returnType
    ensures m.parameterTypes == b.parameterNames && m.thrownExceptions == b.thrownExceptions && m.isStatic == b.isStatic
  {
    MethodInvocation(Some(implementationClass), b.text, b.returnType, b.parameterNames, b.thrownExceptions, b.isStatic)
  }

  /**
   * Where a recorded call is filed: through its invoker's root variable, or,
   * without an invoker, as a static call, or as a call through `this`. As
   * written, the `this` test asks whether the method expression (a
   * reference expression) is a `this` expression, which it never is;
   * intended, whether its qualifier is `this` or absent.
   */
  function RouteEvents(m: MethodInvocation, invoker: Option<AbstractVariable>, qualifier: Qualifier, intended: bool): (es: seq<Fact>)
    ensures |es| <= 1
  {
    match invoker
    case Some(v) => [ThroughFact(RootBucket(v), v, m)]
    case None =>
      if m.isStatic then [InvokedStatic(m)]
      else if intended && !qualifier.OtherQualifier? then [InvokedThroughThis(m)]
      else []
  }

  /**
   * A super expression on which processMethodInvocations stops. As written,
   * the element holding the super expression's reference is tested for
   * being a method, which it never is: every super expression ends the
   * list, by returning or, without a reference, by throwing. Intended, the
   * reference is resolved, and only a super expression that does not refer
   * to a method ends the list.
   */
  predicate EndsInvocations(x: InvocationExpression, intended: bool) {
    x.SuperCall? && (!intended || x.target.None?)
  }

  /** The facts one expression of the invocation list records. */
  function InvocationStep(x: InvocationExpression, intended: bool): seq<Fact>
  {
    match x
    case MethodCall(None, _, _) => []
    case MethodCall(Some(b), invoker, qualifier) =>
      [MethodInvocationFact(CallRecord(b))] + RouteEvents(CallRecord(b), invoker, qualifier, intended)
    case SuperCall(c, _, Some(b)) => [SuperMethodInvocationFact(SuperRecord(c, b))]
    case _ => []
  }

  /**
   * processMethodInvocations: an unresolved call is skipped, a super
   * expression that ends the list ends the whole method.
   */
  function InvocationEvents(xs: seq<InvocationExpression>, intended: bool): seq<Fact>
    decreases |xs|
  {
    if xs == [] || EndsInvocations(xs[0], intended) then []
    else InvocationStep(xs[0], intended) + InvocationEvents(xs[1..], intended)
  }

  /**
   * Whether processMethodInvocations returns normally: as written, the
   * super expression that ends the list throws when it has no reference.
   */
  function InvocationsComplete(xs: seq<InvocationExpression>, intended: bool): bool
    decreases |xs|
  {
    if xs == [] then true
    else if EndsInvocations(xs[0], intended) then intended || xs[0].hasReference
    else InvocationsComplete(xs[1..], intended)
  }

  /**
   * Where a filed invocation may go: through a variable by the role of the
   * variable's root, statically only when static, through `this` only when
   * not static.
   */
  predicate RoutedByRole(e: Fact) {
    && (e.InvokedThroughField? ==> IsField(InitialVariable(e.invoker)))
    && (e.InvokedThroughParameter? ==> IsParameter(InitialVariable(e.invoker)))
    && (e.InvokedThroughLocal? ==> e.invoker.origin.kind == LocalVar)
    && (e.InvokedStatic? ==> e.invocation.isStatic)
    && (e.InvokedThroughThis? ==> !e.invocation.isStatic)
  }

  predicate IsRouted(e: Fact) {
    e.InvokedThroughField? || e.InvokedThroughParameter? || e.InvokedThroughLocal? || e.InvokedStatic? || e.InvokedThroughThis?
  }

  lemma InvocationStepRouting(x: InvocationExpression, intended: bool)
    ensures forall e :: e in InvocationStep(x, intended) ==>
      RoutedByRole(e) && (IsRouted(e) ==> MethodInvocationFact(e.invocation) in InvocationStep(x, intended))
  {
  }

  /**
   * Routing: an invocation filed through a variable is filed by the role of
   * the variable's root; a statically filed one is static; and every filed
   * invocation is also in the plain invocation list.
   */
  lemma {:induction false} InvocationRouting(xs: seq<InvocationExpression>, intended: bool)
    ensures forall e :: e in InvocationEvents(xs, intended) ==>
      RoutedByRole(e) && (IsRouted(e) ==> MethodInvocationFact(e.invocation) in InvocationEvents(xs, intended))
    decreases |xs|
  {
    if xs != [] && !EndsInvocations(xs[0], intended) {
      InvocationRouting(xs[1..], intended);
      InvocationStepRouting(xs[0], intended);
    }
  }

  /** Every resolved call before the first super expression that ends the list is recorded. */
  lemma {:induction false} ResolvedCallRecorded(xs: seq<InvocationExpression>, k: nat, intended: bool)
    requires k < |xs| && xs[k].MethodCall? && xs[k].binding.Some?
    requires forall i :: 0 <= i < k ==> !EndsInvocations(xs[i], intended)
    ensures MethodInvocationFact(CallRecord(xs[k].binding.value)) in InvocationEvents(xs, intended)
    decreases k
  {
    if k > 0 {
      ResolvedCallRecorded(xs[1..], k - 1, intended);
    }
  }

  /** An unresolved call contributes nothing: removing it changes nothing. */
  lemma {:induction false} UnresolvedCallSkipped(xs: seq<InvocationExpression>, k: nat, intended: bool)
    requires k < |xs| && xs[k].MethodCall? && xs[k].binding.None?
    ensures InvocationEvents(xs, intended) == InvocationEvents(xs[..k] + xs[k + 1..], intended)
    decreases k
  {
    if k > 0 {
      UnresolvedCallSkipped(xs[1..], k - 1, intended);
      assert xs[1..][..k - 1] + xs[1..][k..] == (xs[..k] + xs[k + 1..])[1..];
      assert (xs[..k] + xs[k + 1..])[0] == xs[0];
    } else {
      assert xs[..k] + xs[k + 1..] == xs[1..];
    }
  }

  /**
   * A super expression that ends the list ends processing: nothing after it
   * is recorded, and, when it is the first to end the list, the method
   * returns normally exactly when it is read as intended or has a reference.
   */
  lemma {:induction false} SuperStops(xs: seq<InvocationExpression>, k: nat, intended: bool)
    requires k < |xs| && EndsInvocations(xs[k], intended)
    ensures InvocationEvents(xs, intended) == InvocationEvents(xs[..k], intended)
    ensures (forall i :: 0 <= i < k ==> !EndsInvocations(xs[i], intended))
        ==> (InvocationsComplete(xs, intended) <==> intended || xs[k].hasReference)
    decreases k
  {
    if k > 0 {
      SuperStops(xs[1..], k - 1, intended);
      assert xs[1..][..k - 1] == xs[..k][1..];
      assert xs[..k][0] == xs[0];
      if forall i :: 0 <= i < k ==> !EndsInvocations(xs[i], intended) {
        assert !EndsInvocations(xs[0], intended);
        assert forall i :: 0 <= i < k - 1 ==> xs[1..][i] == xs[i + 1];
      }
    }
  }

  /** As written, no super method invocation is ever recorded. */
  lemma {:induction false} AsWrittenNoSuperInvocation(xs: seq<InvocationExpression>)
    ensures forall e :: e in InvocationEvents(xs, false) ==> !e.SuperMethodInvocationFact?
    decreases |xs|
  {
    if xs != [] && !EndsInvocations(xs[0], false) {
      AsWrittenNoSuperInvocation(xs[1..]);
    }
  }

  /** Intended, a super expression that refers to a method is recorded when no earlier expression ends the list. */
  lemma {:induction false} SuperCallRecorded(xs: seq<InvocationExpression>, k: nat)
    requires k < |xs| && xs[k].SuperCall? && xs[k].target.Some?
    requires forall i :: 0 <= i < k ==> !EndsInvocations(xs[i], true)
    ensures SuperMethodInvocationFact(SuperRecord(xs[k].implementationClass, xs[k].target.value)) in InvocationEvents(xs, true)
    decreases k
  {
    if k > 0 {
      SuperCallRecorded(xs[1..], k - 1);
    }
  }

  /** As written, nothing is ever filed as invoked through `this`. */
  lemma {:induction false} AsWrittenNothingThroughThis(xs: seq<InvocationExpression>)
    ensures forall e :: e in InvocationEvents(xs, false) ==> !e.InvokedThroughThis?
    decreases |xs|
  {
    if xs != [] && !EndsInvocations(xs[0], false) {
      AsWrittenNothingThroughThis(xs[1..]);
    }
  }

  /**
   * Intended, a resolved non-static call without an invoker whose method
   * expression is unqualified or qualified by `this` is filed through `this`.
   */
  lemma {:induction false} UnqualifiedCallThroughThis(xs: seq<InvocationExpression>, k: nat)
    requires k < |xs| && xs[k].MethodCall? && xs[k].binding.Some? && !xs[k].binding.value.isStatic
    requires xs[k].invoker.None? && !xs[k].qualifier.OtherQualifier?
    requires forall i :: 0 <= i < k ==> !EndsInvocations(xs[i], true)
    ensures InvokedThroughThis(CallRecord(xs[k].binding.value)) in InvocationEvents(xs, true)
    decreases k
  {
    if k > 0 {
      UnqualifiedCallThroughThis(xs[1..], k - 1);
    }
  }

  /**
   * An anonymous class body: its name, if it has one (an anonymous class
   * has none), the key its name is formatted from, and its declaration.
   */
  datatype AnonymousClass = AnonymousClass(name: Option<string>, key: string, declaration: nat)

  /**
   * A `new` expression of the class-instance-creation list: its type text,
   * the qualified names of the created class's type parameters, and its
   * anonymous class body.
   */
  datatype NewExpression = NewExpression(
    id: nat, createdType: Option<string>, typeParameters: seq<Option<string>>, anonymous: Option<AnonymousClass>)

  /** The CreationObject built for a `new` expression; a type parameter without a qualified name reads as "Object". */
  function CreationRecord(x: NewExpression): (c: Creation)
    ensures c.ClassInstanceCreation? && c.createdType == x.createdType && c.expression == x.id
    ensures |c.typeParameters| == |x.typeParameters|
  {
    ClassInstanceCreation(x.createdType,
      seq(|x.typeParameters|, i requires 0 <= i < |x.typeParameters| =>
        if x.typeParameters[i].Some? then x.typeParameters[i].value else "Object"),
      x.id)
  }

  /** A key without its first and last characters, with every '/' replaced by '.'. */
  function FormatKey(key: string): (r: string)
    requires |key| >= 2
    ensures |r| == |key| - 2 && '/' !in r
    ensures forall i :: 0 <= i < |r| ==> r[i] == key[i + 1] || (key[i + 1] == '/' && r[i] == '.')
  {
    seq(|key| - 2, i requires 0 <= i < |key| - 2 => if key[i + 1] == '/' then '.' else key[i + 1])
  }

  /** Whether an anonymous class can be named: it has a name, or a key of at least two characters to format. */
  predicate Nameable(a: AnonymousClass) {
    a.name.Some? || |a.key| >= 2
  }

  /** The AnonymousClassDeclarationObject: its own name, else its formatted key. */
  function AnonymousRecord(a: AnonymousClass): (d: AnonymousClassDeclaration)
    requires Nameable(a)
    ensures d.declaration == a.declaration
    ensures a.name.Some? ==> d.name == a.name.value
    ensures a.name.None? ==> |d.name| == |a.key| - 2 && '/' !in d.name
  {
    AnonymousClassDeclaration(if a.name.Some? then a.name.value else FormatKey(a.key), a.declaration)
  }

  /**
   * One `new` expression of processClassInstanceCreations, corrected: the
   * anonymous class body, if any, then the creation. An anonymous class
   * that cannot be named makes the substring of its key throw.
   */
  function CreationEvents(x: NewExpression): Outcome
  {
    match x.anonymous
    case None => Outcome([CreationFact(CreationRecord(x))], true)
    case Some(a) =>
      if Nameable(a) then Outcome([AnonymousClassFact(AnonymousRecord(a)), CreationFact(CreationRecord(x))], true)
      else Outcome([], false)
  }

  /**
   * One `new` expression: as written, the body runs only when the
   * expression's original element is a class, and the original element of
   * an expression in source code is that expression; nothing is recorded
   * and nothing throws.
   */
  function CreationStep(x: NewExpression, intended: bool): Outcome
  {
    if intended then CreationEvents(x) else Outcome([], true)
  }

  /** One `new` expression as a step function: as written, or with the creation recorded. */
  function Step(intended: bool): NewExpression -> Outcome
  {
    x => CreationStep(x, intended)
  }

  /** The run of processClassInstanceCreations over its list. */
  function RunAll(xs: seq<NewExpression>, intended: bool): Outcome
  {
    Run(xs, Step(intended))
  }

  /** One more expression after a run of processClassInstanceCreations that completed. */
  lemma RunAllSnoc(xs: seq<NewExpression>, x: NewExpression, intended: bool)
    requires RunAll(xs, intended).completed
    ensures RunAll(xs + [x], intended)
         == Outcome(RunAll(xs, intended).events + CreationStep(x, intended).events, CreationStep(x, intended).completed)
  {
    RunSnoc(xs, x, Step(intended));
  }

  /** Once processClassInstanceCreations has thrown, the rest of the list is not looked at. */
  lemma RunAllStops(xs: seq<NewExpression>, ys: seq<NewExpression>, intended: bool)
    requires !RunAll(xs, intended).completed
    ensures RunAll(xs + ys, intended) == RunAll(xs, intended)
  {
    RunStops(xs, ys, Step(intended));
  }

  /** As written, processClassInstanceCreations records nothing at all and returns normally. */
  lemma {:induction false} AsWrittenRecordsNothing(xs: seq<NewExpression>)
    ensures RunAll(xs, false) == Outcome([], true)
    decreases |xs|
  {
    if xs != [] {
      AsWrittenRecordsNothing(xs[1..]);
    }
  }

  /** A concrete list that shows it: one `new A()`. */
  lemma AsWrittenLosesCreation()
    ensures var x := NewExpression(7, Some("A"), [], None);
      && RunAll([x], false).events == []
      && RunAll([x], true).events == [CreationFact(ClassInstanceCreation(Some("A"), [], 7))]
  {
    var x := NewExpression(7, Some("A"), [], None);
    assert CreationRecord(x).typeParameters == [];
    assert [x][1..] == [];
  }

  /**
   * Corrected, every `new` expression up to the first one that throws has
   * its creation recorded, after its anonymous class body.
   */
  lemma {:induction false} CreationsRecorded(xs: seq<NewExpression>, k: nat)
    requires k < |xs|
    requires forall i :: 0 <= i <= k ==> xs[i].anonymous.None? || Nameable(xs[i].anonymous.value)
    ensures CreationFact(CreationRecord(xs[k])) in RunAll(xs, true).events
    ensures xs[k].anonymous.Some? ==> AnonymousClassFact(AnonymousRecord(xs[k].anonymous.value)) in RunAll(xs, true).events
    decreases k
  {
    if k > 0 {
      CreationsRecorded(xs[1..], k - 1);
    }
  }

  /** processArrayCreations: one array creation per expression, with the expression's text. */
  datatype ArrayNewExpression = ArrayNewExpression(id: nat, text: string)

  function ArrayCreationEvents(xs: seq<ArrayNewExpression>): (es: seq<Fact>)
    ensures |es| == |xs|
    ensures forall i :: 0 <= i < |xs| ==> es[i] == CreationFact(ArrayCreation(xs[i].text, xs[i].id))
  {
    if xs == [] then []
    else ArrayCreationEvents(xs[..|xs| - 1]) + [CreationFact(ArrayCreation(xs[|xs| - 1].text, xs[|xs| - 1].id))]
  }

  /** processLiterals: one literal per expression. */
  function LiteralEvents(xs: seq<nat>): (es: seq<Fact>)
    ensures |es| == |xs|
    ensures forall i :: 0 <= i < |xs| ==> es[i] == LiteralFact(Literal(xs[i]))
  {
    if xs == [] then []
    else LiteralEvents(xs[..|xs| - 1]) + [LiteralFact(Literal(xs[|xs| - 1]))]
  }
}
