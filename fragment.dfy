/**
 * A method fragment: a statement or block of a method body that collects the
 * facts of the expressions below it (field accesses, local variables,
 * invocations, creations, literals, thrown exceptions). Every fact recorded
 * on a fragment is recorded on its parent too, and so on up to the root.
 *
 * The source keeps one Java collection per kind of fact; here they are the
 * relations of one `store` (see module Facts), and every private add* or
 * handle* helper is the one recursive method Add.
 */
module Fragment {

  import opened Wrappers
  import opened Variables
  import opened Collections
  import opened FieldInstructions
  import opened Facts
  import opened FragmentRules

  /**
   * getMatchingAssignments: the assignments to `target`, as a LinkedHashSet
   * read back in order; `intended` selects how a left-hand side is compared.
   */
  method MatchingAssignments(target: nat, xs: seq<AssignmentCandidate>, intended: bool) returns (r: seq<AssignmentCandidate>)
    ensures r == Distinct(AssignmentsTo(target, xs, intended))
  {
    r := [];
    for i := 0 to |xs|
      invariant r == Distinct(AssignmentsTo(target, xs[..i], intended))
    {
      var x := xs[i];
      var s := AssignmentsTo(target, xs[..i], intended);
      assert xs[..i + 1][..i] == xs[..i];
      if AssignmentMatches(target, x, intended) {
        DistinctAppend(s, x);
        DistinctMember(s, x);
        if x !in r {
          r := r + [x];
        }
      } else {
        assert AssignmentsTo(target, xs[..i + 1], intended) == s + [];
        assert s + [] == s;
      }
    }
    assert xs[..|xs|] == xs;
  }

  /** getMatchingPostfixAssignments. */
  method MatchingPostfixAssignments(target: nat, xs: seq<PostfixCandidate>, intended: bool) returns (r: seq<PostfixCandidate>)
    ensures r == Distinct(PostfixesOf(target, xs, intended))
  {
    r := [];
    for i := 0 to |xs|
      invariant r == Distinct(PostfixesOf(target, xs[..i], intended))
    {
      var x := xs[i];
      var s := PostfixesOf(target, xs[..i], intended);
      assert xs[..i + 1][..i] == xs[..i];
      if PostfixMatches(target, x, intended) {
        DistinctAppend(s, x);
        DistinctMember(s, x);
        if x !in r {
          r := r + [x];
        }
      } else {
        assert PostfixesOf(target, xs[..i + 1], intended) == s + [];
        assert s + [] == s;
      }
    }
    assert xs[..|xs|] == xs;
  }

  /** getMatchingPrefixAssignments: prefix increments and decrements of `target`. */
  method MatchingPrefixAssignments(target: nat, xs: seq<PrefixCandidate>, intended: bool) returns (r: seq<PrefixCandidate>)
    ensures r == Distinct(PrefixesOf(target, xs, intended))
  {
    r := [];
    for i := 0 to |xs|
      invariant r == Distinct(PrefixesOf(target, xs[..i], intended))
    {
      var x := xs[i];
      var s := PrefixesOf(target, xs[..i], intended);
      assert xs[..i + 1][..i] == xs[..i];
      if PrefixMatches(target, x, intended) {
        DistinctAppend(s, x);
        DistinctMember(s, x);
        if x !in r {
          r := r + [x];
        }
      } else {
        assert PrefixesOf(target, xs[..i + 1], intended) == s + [];
        assert s + [] == s;
      }
    }
    assert xs[..|xs|] == xs;
  }

  /** The class instance creations of a creation list, in order. */
  function ClassInstanceCreationsOf(cs: seq<Creation>): (r: seq<Creation>)
    ensures forall c :: c in r ==> c.ClassInstanceCreation?
  {
    if cs == [] then []
    else
      var c := cs[|cs| - 1];
      ClassInstanceCreationsOf(cs[..|cs| - 1]) + (if c.ClassInstanceCreation? then [c] else [])
  }

  /** The array creations of a creation list, in order. */
  function ArrayCreationsOf(cs: seq<Creation>): (r: seq<Creation>)
    ensures forall c :: c in r ==> c.ArrayCreation?
  {
    if cs == [] then []
    else
      var c := cs[|cs| - 1];
      ArrayCreationsOf(cs[..|cs| - 1]) + (if c.ArrayCreation? then [c] else [])
  }

  /** Together the two getters return every creation of the list, each exactly once. */
  lemma {:induction false} CreationsPartitioned(cs: seq<Creation>)
    ensures multiset(ClassInstanceCreationsOf(cs)) + multiset(ArrayCreationsOf(cs)) == multiset(cs)
  {
    if cs != [] {
      var init, c := cs[..|cs| - 1], cs[|cs| - 1];
      CreationsPartitioned(init);
      assert cs == init + [c];
      assert multiset(cs) == multiset(init) + multiset{c};
    }
  }

  /**
   * The def/use rule for one variable, one fact per handle* or add* call of
   * the source: its matched assignments (distinct), and whether a postfix
   * and whether a prefix expression matched.
   */
  method DefUseFacts(def: Fact, use: Fact, matched: seq<AssignmentCandidate>, postfix: bool, prefix: bool)
    returns (es: seq<Fact>)
    ensures es == DefUseEvents(def, use, matched, postfix, prefix)
  {
    es := [];
    if |matched| > 0 {
      es := [def];
      for k := 0 to |matched|
        invariant es == [def] + CompoundUses(use, matched[..k])
      {
        assert matched[..k + 1][..k] == matched[..k];
        if !matched[k].plainEq {
          es := es + [use];
        }
      }
      assert matched[..|matched|] == matched;
    }
    if postfix {
      es := es + [def, use];
    }
    if prefix {
      es := es + [def, use];
    }
    if |matched| == 0 && !postfix && !prefix {
      es := es + [use];
    }
  }

  /**
   * The field-access block of processVariables: a FieldInstructionObject
   * (or its super variant) built from the field, then the def/use facts.
   */
  method FieldAccessFacts(f: FieldTarget, isSuper: bool, w: Writes, intended: bool) returns (es: seq<Fact>)
    requires f.containingClass.Some?
    ensures es == FieldAccessEvents(f, isSuper, w, intended)
  {
    var o := new FieldInstructionObject(f.containingClass.value, f.fieldType, f.name);
    o.SetSimpleName(PsiElementRef(f.element, f.reference));
    if f.isStatic {
      o.SetStatic(true);
    }
    var record := o.Value();
    assert record == FieldRecord(f);
    if isSuper {
      es := [SuperFieldInstructionFact(record)];
    } else {
      var defUse := VariableDefUseFacts(DefinedField(f.variable), UsedField(f.variable), f.element, w, intended);
      es := [FieldInstructionFact(record)] + defUse;
    }
  }

  /** The matching helpers' results for one declaration, then the def/use rule on them. */
  method VariableDefUseFacts(def: Fact, use: Fact, target: nat, w: Writes, intended: bool) returns (es: seq<Fact>)
    ensures es == DefUseOf(def, use, target, w, intended)
  {
    var assignments := MatchingAssignments(target, w.assignments, intended);
    var postfixes := MatchingPostfixAssignments(target, w.postfixes, intended);
    var prefixes := MatchingPrefixAssignments(target, w.prefixes, intended);
    assert |postfixes| > 0 <==> PostfixesOf(target, w.postfixes, intended) != [];
    assert |prefixes| > 0 <==> PrefixesOf(target, w.prefixes, intended) != [];
    // as written, the operator test reads every assignment as a compound one
    var operators := if intended then assignments else AsWrittenOperators(assignments);
    es := DefUseFacts(def, use, operators, |postfixes| > 0, |prefixes| > 0);
  }

  /** The reference-expression block of processVariables. */
  method ReferenceFacts(resolved: Resolution, w: Writes, intended: bool) returns (es: seq<Fact>)
    ensures es == ReferenceEvents(resolved, w, intended)
  {
    es := [];
    match resolved {
      case ResolvesToField(f) =>
        if f.containingClass.Some? && f.containingClass.value != "" {
          es := FieldAccessFacts(f, false, w, intended);
        }
      case ResolvesToLocal(element, local, name, varType, declaring, statement) =>
        // as written, the block is guarded by the resolved element's parent being a local variable, which it never is
        if intended {
          var variable := Plain(local);
          if declaring {
            es := [LocalDeclarationFact(LocalVariableDeclaration(varType, name, statement)), DeclaredLocal(variable)];
          } else {
            var defUse := VariableDefUseFacts(DefinedLocal(variable), UsedLocal(variable), element, w, true);
            es := [LocalInstructionFact(LocalVariableInstruction(varType, name))] + defUse;
          }
        }
      case ResolvesToOther =>
      case Unresolved =>
    }
  }

  /** The inner loop of processVariables: the fields found below one expression. */
  method ChildFieldFacts(fields: seq<FieldTarget>, isSuper: bool, w: Writes, intended: bool)
    returns (es: seq<Fact>, completed: bool)
    ensures Outcome(es, completed) == Run(fields, ChildStep(isSuper, w, intended))
  {
    var step := ChildStep(isSuper, w, intended);
    es := [];
    for j := 0 to |fields|
      invariant Run(fields[..j], step) == Outcome(es, true)
    {
      var f := fields[j];
      assert fields[..j + 1] == fields[..j] + [f];
      RunSnoc(fields[..j], f, step);
      assert step(f) == ChildFieldStep(f, isSuper, w, intended);
      if f.containingClass.None? {
        assert es + [] == es;
        RunStops(fields[..j + 1], fields[j + 1..], step);
        assert fields[..j + 1] + fields[j + 1..] == fields;
        return es, false;
      }
      if f.containingClass.value != "" {
        var access := FieldAccessFacts(f, isSuper, w, intended);
        es := es + access;
      } else {
        assert es + [] == es;
      }
    }
    assert fields[..|fields|] == fields;
    return es, true;
  }

  /** One expression of processVariables: its child fields, then its reference. */
  method InstructionFacts(x: VariableInstruction, w: Writes, intended: bool) returns (es: seq<Fact>, completed: bool)
    ensures Outcome(es, completed) == InstructionStep(x, w, intended)
  {
    es, completed := ChildFieldFacts(x.childFields, x.kind.SuperExpression?, w, intended);
    if completed && x.kind.ReferenceExpression? {
      var reference := ReferenceFacts(x.kind.resolved, w, intended);
      es := es + reference;
    }
  }

  /** The loop of processVariables, up to the first expression that throws. */
  method VariablesFacts(instructions: seq<VariableInstruction>, w: Writes, intended: bool)
    returns (es: seq<Fact>, completed: bool)
    ensures Outcome(es, completed) == VariablesRun(instructions, w, intended)
  {
    var step := InstructionSteps(w, intended);
    es := [];
    for i := 0 to |instructions|
      invariant Run(instructions[..i], step) == Outcome(es, true)
    {
      var x := instructions[i];
      assert instructions[..i + 1] == instructions[..i] + [x];
      RunSnoc(instructions[..i], x, step);
      var facts, ok := InstructionFacts(x, w, intended);
      es := es + facts;
      if !ok {
        RunStops(instructions[..i + 1], instructions[i + 1..], step);
        assert instructions[..i + 1] + instructions[i + 1..] == instructions;
        return es, false;
      }
    }
    assert instructions[..|instructions|] == instructions;
    return es, true;
  }

  /** The body of the processMethodInvocations loop for one expression that does not end it. */
  method InvocationStepFacts(x: InvocationExpression, intended: bool) returns (es: seq<Fact>)
    requires !EndsInvocations(x, intended)
    ensures es == InvocationStep(x, intended)
  {
    es := [];
    match x {
      case MethodCall(binding, invoker, qualifier) =>
        if binding.Some? {
          var m := CallRecord(binding.value);
          var route: seq<Fact> := [];
          if invoker.Some? {
            var root := InitialVariable(invoker.value);
            if IsField(root) {
              route := [InvokedThroughField(invoker.value, m)];
            } else if IsParameter(root) {
              route := [InvokedThroughParameter(invoker.value, m)];
            } else {
              route := [InvokedThroughLocal(invoker.value, m)];
            }
          } else if m.isStatic {
            route := [InvokedStatic(m)];
          } else if intended && !qualifier.OtherQualifier? {
            // as written, the method expression is tested for being a `this` expression, which it never is
            route := [InvokedThroughThis(m)];
          }
          assert route == RouteEvents(m, invoker, qualifier, intended);
          es := [MethodInvocationFact(m)] + route;
        }
      case SuperCall(implementationClass, _, target) =>
        es := [SuperMethodInvocationFact(SuperRecord(implementationClass, target.value))];
      case OtherInvocation =>
    }
  }

  /** One unfolding of the invocation run at position i. */
  lemma InvocationsAt(xs: seq<InvocationExpression>, i: nat, intended: bool)
    requires i < |xs|
    ensures EndsInvocations(xs[i], intended) ==>
      && InvocationEvents(xs[i..], intended) == []
      && InvocationsComplete(xs[i..], intended) == (intended || xs[i].hasReference)
    ensures !EndsInvocations(xs[i], intended) ==>
      && InvocationEvents(xs[i..], intended) == InvocationStep(xs[i], intended) + InvocationEvents(xs[i + 1..], intended)
      && InvocationsComplete(xs[i..], intended) == InvocationsComplete(xs[i + 1..], intended)
  {
    assert xs[i..][0] == xs[i] && xs[i..][1..] == xs[i + 1..];
  }

  /** The loop of processMethodInvocations; `completed` is false when it throws. */
  method InvocationFacts(xs: seq<InvocationExpression>, intended: bool) returns (es: seq<Fact>, completed: bool)
    ensures es == InvocationEvents(xs, intended)
    ensures completed == InvocationsComplete(xs, intended)
  {
    es := [];
    var i := 0;
    while i < |xs| && !EndsInvocations(xs[i], intended)
      invariant 0 <= i <= |xs|
      invariant es + InvocationEvents(xs[i..], intended) == InvocationEvents(xs, intended)
      invariant InvocationsComplete(xs[i..], intended) == InvocationsComplete(xs, intended)
    {
      InvocationsAt(xs, i, intended);
      var step := InvocationStepFacts(xs[i], intended);
      es := es + step;
      i := i + 1;
    }
    if i < |xs| {
      // the super expression that ends the list
      InvocationsAt(xs, i, intended);
      completed := intended || xs[i].hasReference;
    } else {
      assert xs[i..] == [];
      completed := true;
    }
    assert es + [] == es;
  }

  /**
   * The loop of processClassInstanceCreations as written: the guard on the
   * expression's original element being a class fails for every expression.
   */
  method CreationFactsAsWritten(xs: seq<NewExpression>) returns (es: seq<Fact>, completed: bool)
    ensures Outcome(es, completed) == RunAll(xs, false)
  {
    es := [];
    for i := 0 to |xs|
      invariant RunAll(xs[..i], false) == Outcome(es, true)
    {
      assert xs[..i + 1] == xs[..i] + [xs[i]];
      RunAllSnoc(xs[..i], xs[i], false);
      assert es + [] == es;
    }
    assert xs[..|xs|] == xs;
    return es, true;
  }

  /** The same loop with every creation recorded after its anonymous class body. */
  method CreationFactsCorrected(xs: seq<NewExpression>) returns (es: seq<Fact>, completed: bool)
    ensures Outcome(es, completed) == RunAll(xs, true)
  {
    es := [];
    for i := 0 to |xs|
      invariant RunAll(xs[..i], true) == Outcome(es, true)
    {
      var x := xs[i];
      assert xs[..i + 1] == xs[..i] + [x];
      RunAllSnoc(xs[..i], x, true);
      ghost var before := es;
      if x.anonymous.Some? {
        var a := x.anonymous.value;
        var name: string;
        if a.name.Some? {
          name := a.name.value;
        } else {
          if |a.key| < 2 {
            RunAllStops(xs[..i + 1], xs[i + 1..], true);
            assert xs[..i + 1] + xs[i + 1..] == xs;
            return es, false;
          }
          name := a.key[1..|a.key| - 1];
          name := seq(|name|, j requires 0 <= j < |name| => if name[j] == '/' then '.' else name[j]);
        }
        assert AnonymousRecord(a) == AnonymousClassDeclaration(name, a.declaration);
        es := es + [AnonymousClassFact(AnonymousClassDeclaration(name, a.declaration))];
      }
      es := es + [CreationFact(CreationRecord(x))];
      assert es == before + CreationStep(x, true).events;
    }
    assert xs[..|xs|] == xs;
    return es, true;
  }

  /** The loop of processArrayCreations. */
  method ArrayCreationFacts(xs: seq<ArrayNewExpression>) returns (es: seq<Fact>)
    ensures es == ArrayCreationEvents(xs)
  {
    es := [];
    for i := 0 to |xs|
      invariant es == ArrayCreationEvents(xs[..i])
    {
      assert xs[..i + 1][..i] == xs[..i];
      es := es + [CreationFact(ArrayCreation(xs[i].text, xs[i].id))];
    }
    assert xs[..|xs|] == xs;
  }

  /** The loop of processLiterals. */
  method LiteralFacts(xs: seq<nat>) returns (es: seq<Fact>)
    ensures es == LiteralEvents(xs)
  {
    es := [];
    for i := 0 to |xs|
      invariant es == LiteralEvents(xs[..i])
    {
      assert xs[..i + 1][..i] == xs[..i];
      es := es + [LiteralFact(Literal(xs[i]))];
    }
    assert xs[..|xs|] == xs;
  }

  class MethodFragment {
    const parent: MethodFragment?
    /** The parent, its parent, and so on. */
    ghost const ancestors: set<MethodFragment>
    /** The number of ancestors; it makes the chain of parents finite. */
    ghost const depth: nat
    /** Every collection of the fragment. */
    var store: Store

    /** The chain of parents is finite and ends in a root. */
    ghost predicate Wf()
      decreases depth
    {
      if parent == null then ancestors == {} && depth == 0
      else ancestors == {parent} + parent.ancestors && parent.depth < depth && parent.Wf()
    }

    /** The fragment and its ancestors: everything one add* call changes. */
    ghost function Lineage(): set<MethodFragment>
    {
      {this} + ancestors
    }

    /** Every ancestor is well formed, lies above this fragment, and brings only ancestors of its own. */
    lemma AncestorsAbove()
      requires Wf()
      ensures forall a :: a in ancestors ==> a.Wf() && a.depth < depth && a.Lineage() <= ancestors
      decreases depth
    {
      if parent != null {
        parent.AncestorsAbove();
      }
    }

    ghost function Stores(): map<MethodFragment, Store>
      reads Lineage()
    {
      map a | a in Lineage() :: a.store
    }

    /** Since the stores were `S0`, every fragment of the lineage has recorded exactly `done`. */
    ghost predicate Reached(S0: map<MethodFragment, Store>, done: seq<Fact>)
      reads Lineage()
    {
      forall a :: a in Lineage() ==> a in S0 && a.store == RecordedAll(S0[a], done)
    }

    constructor (parent: MethodFragment?)
      requires parent != null ==> parent.Wf()
      ensures Wf() && this.parent == parent && store == map[]
      ensures Lineage() == {this} + (if parent == null then {} else parent.Lineage())
    {
      this.parent := parent;
      if parent == null {
        ancestors := {};
        depth := 0;
      } else {
        ancestors := {parent} + parent.ancestors;
        depth := parent.depth + 1;
      }
      store := map[];
    }

    /**
     * Every add* and handle* helper: record the fact in this fragment's own
     * collection, then repeat the call on the parent.
     */
    method Add(e: Fact)
      requires Wf()
      modifies Lineage()
      ensures forall a :: a in Lineage() ==> a.store == Recorded(old(a.store), e)
      decreases depth
    {
      store := Recorded(store, e);
      if parent != null {
        AncestorsAbove();
        parent.Add(e);
      }
    }

    /** After a run of add* calls, every fact of the run holds in this fragment and in every ancestor. */
    lemma ReachedHolds(S0: map<MethodFragment, Store>, es: seq<Fact>)
      requires Reached(S0, es)
      ensures forall a, e :: a in Lineage() && e in es ==> Holds(a.store, e)
    {
      forall a | a in Lineage()
        ensures forall e :: e in es ==> Holds(a.store, e)
      {
        RecordedAllHolds(S0[a], es);
      }
    }

    /**
     * A run of add* calls keeps the roll-up invariant over the lineage:
     * each fragment's collections stay inside each ancestor's.
     */
    lemma ReachedKeepsRolledUp(S0: map<MethodFragment, Store>, es: seq<Fact>)
      requires Wf() && S0.Keys == Lineage() && RolledUp(S0) && Reached(S0, es)
      ensures RolledUp(Stores())
    {
      AncestorsAbove();
      RollUpPreserved(S0, Stores(), Lineage(), es);
    }

    /**
     * A run of add* calls, one per fact, in order. Since the stores were
     * `old(Stores())`, every fragment of the lineage has recorded `es`.
     */
    method Issue(es: seq<Fact>)
      requires Wf()
      modifies Lineage()
      ensures Reached(old(Stores()), es)
    {
      ghost var S0 := Stores();
      for i := 0 to |es|
        invariant Reached(S0, es[..i])
      {
        Add(es[i]);
        assert es[..i + 1] == es[..i] + [es[i]];
        RecordedAllSnoc(es[..i], es[i]);
      }
      assert es[..|es|] == es;
    }

    /**
     * processVariables as written: for each expression, the fields found
     * below it, then, for a reference expression, the field or local
     * variable it resolves to. Every fragment of the lineage records the same
     * facts; `completed` is false when the source throws, after which
     * nothing more is recorded.
     */
    method ProcessVariablesAsWritten(instructions: seq<VariableInstruction>, w: Writes) returns (completed: bool)
      requires Wf()
      modifies Lineage()
      ensures Reached(old(Stores()), VariablesRun(instructions, w, false).events)
      ensures completed == VariablesRun(instructions, w, false).completed
    {
      var es;
      es, completed := VariablesFacts(instructions, w, false);
      Issue(es);
    }

    /** processVariables with writes matched by resolution, the operator test corrected, and local declarations recorded. */
    method ProcessVariables(instructions: seq<VariableInstruction>, w: Writes) returns (completed: bool)
      requires Wf()
      modifies Lineage()
      ensures Reached(old(Stores()), VariablesRun(instructions, w, true).events)
      ensures completed == VariablesRun(instructions, w, true).completed
    {
      var es;
      es, completed := VariablesFacts(instructions, w, true);
      Issue(es);
    }

    /**
     * processMethodInvocations as written: a call that does not resolve is
     * skipped; every super expression ends the method, and `completed` is
     * false when it throws; nothing is filed as invoked through `this`.
     */
    method ProcessMethodInvocationsAsWritten(xs: seq<InvocationExpression>) returns (completed: bool)
      requires Wf()
      modifies Lineage()
      ensures Reached(old(Stores()), InvocationEvents(xs, false))
      ensures completed == InvocationsComplete(xs, false)
    {
      var es;
      es, completed := InvocationFacts(xs, false);
      Issue(es);
    }

    /**
     * processMethodInvocations with super expressions resolved, so that those
     * that refer to a method are recorded, and with unqualified and
     * `this`-qualified calls filed through `this`.
     */
    method ProcessMethodInvocations(xs: seq<InvocationExpression>)
      requires Wf()
      modifies Lineage()
      ensures Reached(old(Stores()), InvocationEvents(xs, true))
    {
      var es, _ := InvocationFacts(xs, true);
      Issue(es);
    }

    /**
     * processClassInstanceCreations as written: no expression passes the
     * guard on its original element, so nothing is recorded.
     */
    method ProcessClassInstanceCreationsAsWritten(xs: seq<NewExpression>) returns (completed: bool)
      requires Wf()
      modifies Lineage()
      ensures Reached(old(Stores()), RunAll(xs, false).events)
      ensures completed == RunAll(xs, false).completed
    {
      var es;
      es, completed := CreationFactsAsWritten(xs);
      Issue(es);
    }

    /**
     * processClassInstanceCreations with every creation recorded after its
     * anonymous class body; `completed` is false when an anonymous class
     * cannot be named, after which nothing more is recorded.
     */
    method ProcessClassInstanceCreations(xs: seq<NewExpression>) returns (completed: bool)
      requires Wf()
      modifies Lineage()
      ensures Reached(old(Stores()), RunAll(xs, true).events)
      ensures completed == RunAll(xs, true).completed
    {
      var es;
      es, completed := CreationFactsCorrected(xs);
      Issue(es);
    }

    /** processArrayCreations: one array creation per expression. */
    method ProcessArrayCreations(xs: seq<ArrayNewExpression>)
      requires Wf()
      modifies Lineage()
      ensures Reached(old(Stores()), ArrayCreationEvents(xs))
    {
      var es := ArrayCreationFacts(xs);
      Issue(es);
    }

    /** processLiterals: one literal per expression. */
    method ProcessLiterals(xs: seq<nat>)
      requires Wf()
      modifies Lineage()
      ensures Reached(old(Stores()), LiteralEvents(xs))
    {
      var es := LiteralFacts(xs);
      Issue(es);
    }

    /** processThrowStatement: the thrown expression joins the set of this fragment and of every ancestor. */
    method ProcessThrowStatement(exception: nat)
      requires Wf()
      modifies Lineage()
      ensures forall a :: a in Lineage() ==> a.store == Recorded(old(a.store), ThrownExceptionFact(exception))
    {
      Add(ThrownExceptionFact(exception));
    }

    /**
     * containsFieldInstruction: the field instruction list is scanned in
     * order with the argument's `equals`. Membership ignores the static flag,
     * and the argument's binding key is dereferenced at the first element
     * that agrees in owner, name and type, so it must be set when there is one.
     */
    method ContainsFieldInstruction(q: FieldInstruction) returns (b: bool)
      requires q.bindingKey.None? ==>
        forall e :: e in Get(store, FieldInstructionList) && e.FieldInstructionFact? ==> !SameField(q, e.field)
      ensures b <==> exists e :: e in Get(store, FieldInstructionList) && e.FieldInstructionFact? &&
                                 e.field.(isStatic := q.isStatic) == q
      ensures Holds(store, FieldInstructionFact(q)) ==> b
    {
      var l := Get(store, FieldInstructionList);
      b := false;
      var i := 0;
      while i < |l| && !b
        invariant 0 <= i <= |l|
        invariant b <==> exists j :: 0 <= j < i && l[j].FieldInstructionFact? && l[j].field.(isStatic := q.isStatic) == q
      {
        if l[i].FieldInstructionFact? {
          EqualValuesIgnoresStatic(q, l[i].field);
          b := EqualValues(q, l[i].field);
        }
        i := i + 1;
      }
    }

    /** getClassInstanceCreations: the class instance creations of the creation list. */
    method GetClassInstanceCreations() returns (r: seq<Creation>)
      ensures r == ClassInstanceCreationsOf(Creations(Get(store, CreationList)))
    {
      var cs := Creations(Get(store, CreationList));
      r := [];
      for i := 0 to |cs|
        invariant r == ClassInstanceCreationsOf(cs[..i])
      {
        assert cs[..i + 1][..i] == cs[..i];
        if cs[i].ClassInstanceCreation? {
          r := r + [cs[i]];
        }
      }
      assert cs[..|cs|] == cs;
    }

    /** getArrayCreations: the array creations of the creation list. */
    method GetArrayCreations() returns (r: seq<Creation>)
      ensures r == ArrayCreationsOf(Creations(Get(store, CreationList)))
    {
      var cs := Creations(Get(store, CreationList));
      r := [];
      for i := 0 to |cs|
        invariant r == ArrayCreationsOf(cs[..i])
      {
        assert cs[..i + 1][..i] == cs[..i];
        if cs[i].ArrayCreation? {
          r := r + [cs[i]];
        }
      }
      assert cs[..|cs|] == cs;
    }

    /**
     * getInvokedMethodsThroughFields/Parameters/LocalVariables: the same keys
     * as the non-distinct map, each list without its repeats.
     */
    method GetInvokedMethodsThrough(b: FieldBucket) returns (r: map<AbstractVariable, seq<MethodInvocation>>)
      ensures r.Keys == NonDistinctInvokedThrough(store, b).Keys
      ensures forall k :: k in r ==> NoDuplicates(r[k]) && Elements(r[k]) == Elements(NonDistinctInvokedThrough(store, b)[k])
      ensures forall k :: k in r ==> r[k] == Distinct(NonDistinctInvokedThrough(store, b)[k])
    {
      r := DistinctValues(NonDistinctInvokedThrough(store, b));
    }

    /** getInvokedMethodsThroughThisReference and getInvokedStaticMethods. */
    function DistinctInvocations(r: Relation): (s: seq<MethodInvocation>)
      reads this
      ensures NoDuplicates(s) && Elements(s) == Elements(Invocations(Get(store, r)))
    {
      Distinct(Invocations(Get(store, r)))
    }

    /** getDefinedFieldsThrough* and getUsedFieldsThrough*: the set of the corresponding list. */
    function DistinctFields(r: Relation): (s: seq<AbstractVariable>)
      reads this
      ensures NoDuplicates(s) && Elements(s) == Elements(FieldVariables(Get(store, r)))
    {
      Distinct(FieldVariables(Get(store, r)))
    }
  }

  /**
   * The roll-up invariant over a set of fragments: the store of each
   * fragment is included in the store of each of its ancestors.
   */
  ghost predicate RolledUp(S: map<MethodFragment, Store>)
  {
    forall c, a :: c in S && a in S && a in c.ancestors ==> Included(S[c], S[a])
  }

  /**
   * Recording the same facts on a set closed under taking ancestors, and
   * nothing elsewhere, keeps the roll-up invariant.
   */
  lemma RollUpPreserved(S: map<MethodFragment, Store>, S': map<MethodFragment, Store>, L: set<MethodFragment>, es: seq<Fact>)
    requires RolledUp(S) && S'.Keys == S.Keys
    requires forall c, a :: c in L && a in c.ancestors ==> a in L
    requires forall c :: c in S ==> S'[c] == if c in L then RecordedAll(S[c], es) else S[c]
    ensures RolledUp(S')
  {
    forall c, a | c in S' && a in S' && a in c.ancestors
      ensures Included(S'[c], S'[a])
    {
      if c in L {
        RollUpAllKeepsInclusion(S[c], S[a], es);
      } else if a in L {
        RecordedAllGrows(S[a], es);
        IncludedTransitive(S[c], S[a], S'[a]);
      }
    }
  }
}
