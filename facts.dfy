/**
 * The facts a method fragment collects, as values: the records the
 * collector stores, one tagged variant per `add*`/`handle*` helper, the store
 * of one fragment, and what recording one fact does to that store.
 */
module Facts {

  import opened Wrappers
  import opened Variables
  import opened Collections
  import opened FieldInstructions

  /** LocalVariableDeclarationObject: type text, name and the declaring statement. */
  datatype LocalVariableDeclaration = LocalVariableDeclaration(varType: string, name: string, statement: nat)

  /** LocalVariableInstructionObject: type text and name. */
  datatype LocalVariableInstruction = LocalVariableInstruction(varType: string, name: string)

  /**
   * MethodInvocationObject (also used for super-method invocations): declaring
   * class (None when the method has no containing class), name, return type text,
   * parameter type texts, thrown exception names and the static flag.
   */
  datatype MethodInvocation = MethodInvocation(
    originClass: Option<string>, name: string, returnType: string,
    parameterTypes: seq<string>, thrownExceptions: seq<string>, isStatic: bool)

  datatype ConstructorInvocation = ConstructorInvocation(originClass: string, name: string, parameterTypes: seq<string>)

  /** CreationObject: a class instance creation or an array creation, with the creating expression. */
  datatype Creation =
    | ClassInstanceCreation(createdType: Option<string>, typeParameters: seq<string>, expression: nat)
    | ArrayCreation(arrayType: string, expression: nat)

  datatype Literal = Literal(expression: nat)

  /** AnonymousClassDeclarationObject, reduced to its name and declaration site. */
  datatype AnonymousClassDeclaration = AnonymousClassDeclaration(name: string, declaration: nat)

  /** One fact, tagged by the helper that records it. */
  datatype Fact =
    | FieldInstructionFact(field: FieldInstruction)
    | SuperFieldInstructionFact(field: FieldInstruction)
    | LocalDeclarationFact(declaration: LocalVariableDeclaration)
    | LocalInstructionFact(instruction: LocalVariableInstruction)
    | DeclaredLocal(local: PlainVariable)
    | DefinedLocal(local: PlainVariable)
    | UsedLocal(local: PlainVariable)
    | MethodInvocationFact(invocation: MethodInvocation)
    | SuperMethodInvocationFact(invocation: MethodInvocation)
    | ConstructorInvocationFact(constructorInvocation: ConstructorInvocation)
    | CreationFact(creation: Creation)
    | LiteralFact(literal: Literal)
    | AnonymousClassFact(anonymous: AnonymousClassDeclaration)
    | ThrownExceptionFact(exception: nat)
    | InvokedThroughField(invoker: AbstractVariable, invocation: MethodInvocation)
    | InvokedThroughParameter(invoker: AbstractVariable, invocation: MethodInvocation)
    | InvokedThroughLocal(invoker: AbstractVariable, invocation: MethodInvocation)
    | InvokedThroughThis(invocation: MethodInvocation)
    | InvokedStatic(invocation: MethodInvocation)
    | ParameterInMethodInvocation(parameter: PlainVariable, invocation: MethodInvocation)
    | ParameterInSuperMethodInvocation(parameter: PlainVariable, invocation: MethodInvocation)
    | ParameterInConstructorInvocation(parameter: PlainVariable, constructorInvocation: ConstructorInvocation)
    | AssignedWithCreation(local: PlainVariable, creation: Creation)
    | DefinedField(variable: Option<AbstractVariable>)
    | UsedField(variable: Option<AbstractVariable>)

  /**
   * The list a field access or an invocation through a variable goes to: the
   * `this` reference, or the role of the access path's root variable.
   */
  datatype FieldBucket = ThroughThis | ThroughField | ThroughParameter | ThroughLocal

  /** The role of the root variable: a field, a parameter, or anything else (a local). */
  function RootBucket(v: AbstractVariable): (b: FieldBucket)
    ensures b != ThroughThis
    ensures b == ThroughField <==> IsField(InitialVariable(v))
    ensures b == ThroughParameter <==> IsParameter(InitialVariable(v))
    ensures b == ThroughLocal <==> v.origin.kind == LocalVar
  {
    var root := InitialVariable(v);
    if IsField(root) then ThroughField
    else if IsParameter(root) then ThroughParameter
    else ThroughLocal
  }

  /**
   * handleDefinedField/handleUsedField routing: a plain variable is a field of
   * this object; a composite one is filed by the role of its root variable.
   */
  function FieldBucketOf(v: AbstractVariable): (b: FieldBucket)
    ensures v.Plain? <==> b == ThroughThis
    ensures v.Composite? ==> b == RootBucket(v)
  {
    if v.Plain? then ThroughThis else RootBucket(v)
  }

  /**
   * One collection of a fragment. A map-valued collection of the source
   * contributes one relation per key: the list or set stored under that key.
   */
  datatype Relation =
    | FieldInstructionList
    | SuperFieldInstructionList
    | LocalVariableDeclarationList
    | LocalVariableInstructionList
    | DeclaredLocalVariables
    | DefinedLocalVariables
    | UsedLocalVariables
    | MethodInvocationList
    | SuperMethodInvocationList
    | ConstructorInvocationList
    | CreationList
    | LiteralList
    | AnonymousClassDeclarationList
    | ExceptionsInThrowStatements
      /** nonDistinctInvokedMethodsThroughFields/Parameters/LocalVariables, at one key. */
    | InvokedThrough(bucket: FieldBucket, invoker: AbstractVariable)
    | InvokedThroughThisReference
    | InvokedStaticMethods
      /** nonDistinctDefinedFieldsThrough* and nonDistinctUsedFieldsThrough*. */
    | DefinedFields(bucket: FieldBucket)
    | UsedFields(bucket: FieldBucket)
    | ParameterInMethodInvocations(parameter: PlainVariable)
    | ParameterInSuperMethodInvocations(parameter: PlainVariable)
    | ParameterInConstructorInvocations(parameter: PlainVariable)
    | AssignedWithClassInstanceCreations(parameter: PlainVariable)

  /** The collections the source keeps as (Linked)HashSets: adding a present element changes nothing. */
  predicate IsSetRelation(r: Relation) {
    || r.DeclaredLocalVariables? || r.DefinedLocalVariables? || r.UsedLocalVariables?
    || r.ExceptionsInThrowStatements?
    || r.ParameterInMethodInvocations? || r.ParameterInSuperMethodInvocations?
    || r.ParameterInConstructorInvocations? || r.AssignedWithClassInstanceCreations?
  }

  /** The collection each helper writes to; a field access through a null variable writes nowhere. */
  function RelationOf(e: Fact): Option<Relation>
  {
    match e
    case FieldInstructionFact(_) => Some(FieldInstructionList)
    case SuperFieldInstructionFact(_) => Some(SuperFieldInstructionList)
    case LocalDeclarationFact(_) => Some(LocalVariableDeclarationList)
    case LocalInstructionFact(_) => Some(LocalVariableInstructionList)
    case DeclaredLocal(_) => Some(DeclaredLocalVariables)
    case DefinedLocal(_) => Some(DefinedLocalVariables)
    case UsedLocal(_) => Some(UsedLocalVariables)
    case MethodInvocationFact(_) => Some(MethodInvocationList)
    case SuperMethodInvocationFact(_) => Some(SuperMethodInvocationList)
    case ConstructorInvocationFact(_) => Some(ConstructorInvocationList)
    case CreationFact(_) => Some(CreationList)
    case LiteralFact(_) => Some(LiteralList)
    case AnonymousClassFact(_) => Some(AnonymousClassDeclarationList)
    case ThrownExceptionFact(_) => Some(ExceptionsInThrowStatements)
    case InvokedThroughField(v, _) => Some(InvokedThrough(ThroughField, v))
    case InvokedThroughParameter(v, _) => Some(InvokedThrough(ThroughParameter, v))
    case InvokedThroughLocal(v, _) => Some(InvokedThrough(ThroughLocal, v))
    case InvokedThroughThis(_) => Some(InvokedThroughThisReference)
    case InvokedStatic(_) => Some(InvokedStaticMethods)
    case ParameterInMethodInvocation(p, _) => Some(ParameterInMethodInvocations(p))
    case ParameterInSuperMethodInvocation(p, _) => Some(ParameterInSuperMethodInvocations(p))
    case ParameterInConstructorInvocation(p, _) => Some(ParameterInConstructorInvocations(p))
    case AssignedWithCreation(v, _) => Some(AssignedWithClassInstanceCreations(v))
    case DefinedField(None) => None
    case DefinedField(Some(v)) => Some(DefinedFields(FieldBucketOf(v)))
    case UsedField(None) => None
    case UsedField(Some(v)) => Some(UsedFields(FieldBucketOf(v)))
  }

  /**
   * The collections of one fragment. A relation that is absent is an empty
   * collection, or, for a key of a map-valued collection, a key not yet put.
   */
  type Store = map<Relation, seq<Fact>>

  function Get(f: Store, r: Relation): seq<Fact> {
    if r in f then f[r] else []
  }

  /**
   * What one add* or handle* helper does to one fragment's own collections
   * (before it repeats the call on the parent): a list gets the fact
   * appended; a set gets it appended only when absent.
   */
  function Recorded(f: Store, e: Fact): Store
  {
    match RelationOf(e)
    case None => f
    case Some(r) => Filed(f, r, e)
  }

  /** Adding `e` to the collection `r`. */
  function Filed(f: Store, r: Relation, e: Fact): Store
  {
    if IsSetRelation(r) && e in Get(f, r) then f else f[r := Get(f, r) + [e]]
  }

  /** Recording a sequence of facts, in order. */
  function RecordedAll(f: Store, es: seq<Fact>): Store
  {
    if es == [] then f else Recorded(RecordedAll(f, es[..|es| - 1]), es[|es| - 1])
  }

  /** Recording one more fact after a sequence. */
  lemma RecordedAllSnoc(s: seq<Fact>, e: Fact)
    ensures forall f :: RecordedAll(f, s + [e]) == Recorded(RecordedAll(f, s), e)
  {
    assert (s + [e])[..|s|] == s;
  }

  lemma {:induction false} RecordedAllAppend(f: Store, es: seq<Fact>, more: seq<Fact>)
    ensures RecordedAll(f, es + more) == RecordedAll(RecordedAll(f, es), more)
  {
    if more == [] {
      assert es + more == es;
    } else {
      var init := more[..|more| - 1];
      RecordedAllAppend(f, es, init);
      assert (es + more)[..|es + more| - 1] == es + init;
      assert (es + more)[|es + more| - 1] == more[|more| - 1];
    }
  }

  /** The fact `e` is present in the store `f` (a fact that records nothing holds trivially). */
  predicate Holds(f: Store, e: Fact)
  {
    RelationOf(e).Some? ==> e in Get(f, RelationOf(e).value)
  }

  /**
   * Every fact is filed under its own relation, and a set relation has no repeats.
   */
  predicate WellFiled(f: Store)
  {
    forall r :: r in f ==>
      (forall e :: e in f[r] ==> RelationOf(e) == Some(r)) &&
      (IsSetRelation(r) ==> NoDuplicates(f[r]))
  }

  /**
   * Every fact of the child store, counted with its repeats, is in the
   * parent store: the relation the roll-up keeps between a fragment and each
   * of its ancestors.
   */
  predicate Included(c: Store, p: Store)
  {
    forall r :: r in c ==> multiset(c[r]) <= multiset(Get(p, r))
  }

  /**
   * The effect of recording: the fact's own collection gets it (once, for a
   * set), and every other collection is left alone.
   */
  lemma RecordedEffect(f: Store, e: Fact)
    requires WellFiled(f)
    ensures WellFiled(Recorded(f, e))
    ensures forall r :: Some(r) != RelationOf(e) ==> Get(Recorded(f, e), r) == Get(f, r)
    ensures RelationOf(e).Some? && !IsSetRelation(RelationOf(e).value) ==>
      Get(Recorded(f, e), RelationOf(e).value) == Get(f, RelationOf(e).value) + [e]
    ensures RelationOf(e).Some? && IsSetRelation(RelationOf(e).value) ==>
      Elements(Get(Recorded(f, e), RelationOf(e).value)) == Elements(Get(f, RelationOf(e).value)) + {e}
  {
    if RelationOf(e).Some? {
      var r := RelationOf(e).value;
      var s := Get(f, r);
      ElementsAppend(s, e);
      if IsSetRelation(r) && e !in s {
        forall i, j | 0 <= i < j < |s + [e]|
          ensures (s + [e])[i] != (s + [e])[j]
        {
          if j == |s| {
            assert (s + [e])[i] == s[i];
          }
        }
      }
    }
  }

  /** Recording a fact makes it hold. */
  lemma RecordedHolds(f: Store, e: Fact)
    ensures Holds(Recorded(f, e), e)
  {
  }

  /** After recording `e`, exactly the facts that held before, and `e`, hold. */
  lemma RecordedHoldsIff(f: Store, e: Fact, h: Fact)
    requires RelationOf(h).Some?
    ensures Holds(Recorded(f, e), h) <==> Holds(f, h) || h == e
  {
    if RelationOf(e).Some? && RelationOf(e) == RelationOf(h) {
      var r := RelationOf(e).value;
      assert h in Get(f, r) + [e] <==> h in Get(f, r) || h == e;
    }
  }

  /** A fact that holds in a store holds in every store that includes it. */
  lemma IncludedHolds(c: Store, p: Store, e: Fact)
    requires Included(c, p) && Holds(c, e)
    ensures Holds(p, e)
  {
    if RelationOf(e).Some? {
      var r := RelationOf(e).value;
      assert e in multiset(c[r]);
    }
  }

  lemma IncludedReflexive(f: Store)
    ensures Included(f, f)
  {
  }

  lemma {:induction false} IncludedTransitive(a: Store, b: Store, c: Store)
    requires Included(a, b) && Included(b, c)
    ensures Included(a, c)
  {
    forall r | r in a
      ensures multiset(a[r]) <= multiset(Get(c, r))
    {
      if r !in b {
        assert Get(b, r) == [];
      }
    }
  }

  /** Recording only adds: the old store stays included in the new one. */
  lemma RecordedGrows(f: Store, e: Fact)
    ensures Included(f, Recorded(f, e))
  {
    if RelationOf(e).Some? {
      FiledGrows(f, RelationOf(e).value, e);
    }
  }

  /**
   * The roll-up keeps inclusion: the same fact recorded on a child and on its
   * ancestor keeps the child inside the ancestor.
   */
  lemma RollUpKeepsInclusion(c: Store, p: Store, e: Fact)
    requires Included(c, p)
    ensures Included(Recorded(c, e), Recorded(p, e))
  {
    if RelationOf(e).Some? {
      FiledKeepsInclusion(c, p, RelationOf(e).value, e);
    }
  }

  lemma FiledKeepsInclusion(c: Store, p: Store, r: Relation, e: Fact)
    requires Included(c, p)
    ensures Included(Filed(c, r, e), Filed(p, r, e))
  {
    var c', p' := Filed(c, r, e), Filed(p, r, e);
    assert multiset(Get(c, r)) <= multiset(Get(p, r)) by {
      if r !in c { assert Get(c, r) == []; }
    }
    forall r' | r' in c' ensures multiset(c'[r']) <= multiset(Get(p', r')) {
      if r' != r {
        assert c'[r'] == c[r'] && Get(p', r') == Get(p, r');
      } else {
        FiledRelationStep(c, p, r, e);
      }
    }
  }

  /** Filing the same fact on both sides keeps one relation's inclusion. */
  lemma FiledRelationStep(c: Store, p: Store, r: Relation, e: Fact)
    requires multiset(Get(c, r)) <= multiset(Get(p, r))
    ensures multiset(Get(Filed(c, r, e), r)) <= multiset(Get(Filed(p, r, e), r))
  {
    var cs, ps := Get(c, r), Get(p, r);
    var cs', ps' := Get(Filed(c, r, e), r), Get(Filed(p, r, e), r);
    if IsSetRelation(r) && e in cs {
      assert e in multiset(cs);
      assert cs' == cs && ps' == ps;
    } else if IsSetRelation(r) && e in ps {
      assert cs' == cs + [e] && ps' == ps;
      assert multiset(cs + [e]) == multiset(cs) + multiset{e};
      assert e in multiset(ps) && e !in multiset(cs);
    } else {
      assert cs' == cs + [e] && ps' == ps + [e];
      assert multiset(cs + [e]) == multiset(cs) + multiset{e};
      assert multiset(ps + [e]) == multiset(ps) + multiset{e};
    }
  }

  lemma FiledGrows(f: Store, r: Relation, e: Fact)
    ensures Included(f, Filed(f, r, e))
  {
    assert multiset(Get(f, r) + [e]) == multiset(Get(f, r)) + multiset{e};
  }

  /** Replacing one collection of the child by one the parent covers keeps inclusion. */
  lemma IncludedUpdate(c: Store, p: Store, r: Relation, s: seq<Fact>)
    requires forall r' :: r' in c && r' != r ==> multiset(c[r']) <= multiset(Get(p, r'))
    requires multiset(s) <= multiset(Get(p, r))
    ensures Included(c[r := s], p)
  {
  }

  /** The non-distinct invocation maps: an existing key gets an append, a new key a one-element list. */
  function AppendTo<K, V>(m: map<K, seq<V>>, k: K, v: V): (r: map<K, seq<V>>)
    ensures r.Keys == m.Keys + {k}
    ensures k in m ==> r[k] == m[k] + [v]
    ensures k !in m ==> r[k] == [v]
    ensures forall j :: j in m && j != k ==> r[j] == m[j]
  {
    if k in m then m[k := m[k] + [v]] else m[k := [v]]
  }

  /** The three helpers that record an invocation made through a variable, by bucket. */
  function ThroughFact(b: FieldBucket, invoker: AbstractVariable, m: MethodInvocation): (e: Fact)
    requires b != ThroughThis
    ensures RelationOf(e) == Some(InvokedThrough(b, invoker))
  {
    match b
    case ThroughField => InvokedThroughField(invoker, m)
    case ThroughParameter => InvokedThroughParameter(invoker, m)
    case ThroughLocal => InvokedThroughLocal(invoker, m)
  }

  predicate CarriesInvocation(e: Fact) {
    || e.MethodInvocationFact? || e.SuperMethodInvocationFact?
    || e.InvokedThroughField? || e.InvokedThroughParameter? || e.InvokedThroughLocal?
    || e.InvokedThroughThis? || e.InvokedStatic?
    || e.ParameterInMethodInvocation? || e.ParameterInSuperMethodInvocation?
  }

  /** The invocations a list of facts carries, in order. */
  function Invocations(s: seq<Fact>): seq<MethodInvocation>
  {
    if s == [] then []
    else
      var e := s[|s| - 1];
      Invocations(s[..|s| - 1]) + (if CarriesInvocation(e) then [e.invocation] else [])
  }

  /** The variables a list of field facts carries, in order. */
  function FieldVariables(s: seq<Fact>): seq<AbstractVariable>
  {
    if s == [] then []
    else
      var e := s[|s| - 1];
      FieldVariables(s[..|s| - 1]) + (if (e.DefinedField? || e.UsedField?) && e.variable.Some? then [e.variable.value] else [])
  }

  /** The creations a list of facts carries, in order. */
  function Creations(s: seq<Fact>): seq<Creation>
  {
    if s == [] then []
    else
      var e := s[|s| - 1];
      Creations(s[..|s| - 1]) + (if e.CreationFact? then [e.creation] else [])
  }

  /** getNonDistinctInvokedMethodsThroughFields/Parameters/LocalVariables. */
  function NonDistinctInvokedThrough(f: Store, b: FieldBucket): map<AbstractVariable, seq<MethodInvocation>>
  {
    map r | r in f && r.InvokedThrough? && r.bucket == b :: r.invoker := Invocations(f[r])
  }

  /**
   * Recording an invocation through a variable acts on the non-distinct map
   * of its bucket exactly as the source's containsKey/get/add or put does.
   */
  lemma RecordedInvokedThrough(f: Store, b: FieldBucket, v: AbstractVariable, m: MethodInvocation)
    requires b != ThroughThis
    ensures NonDistinctInvokedThrough(Recorded(f, ThroughFact(b, v, m)), b)
         == AppendTo(NonDistinctInvokedThrough(f, b), v, m)
  {
    var e := ThroughFact(b, v, m);
    var r := InvokedThrough(b, v);
    assert !IsSetRelation(r);
    assert Recorded(f, e) == f[r := Get(f, r) + [e]];
    AppendedView(f, b, v, e);
  }

  lemma AppendedView(f: Store, b: FieldBucket, v: AbstractVariable, e: Fact)
    requires CarriesInvocation(e)
    ensures NonDistinctInvokedThrough(f[InvokedThrough(b, v) := Get(f, InvokedThrough(b, v)) + [e]], b)
         == AppendTo(NonDistinctInvokedThrough(f, b), v, e.invocation)
  {
    var g := f[InvokedThrough(b, v) := Get(f, InvokedThrough(b, v)) + [e]];
    var before, after := NonDistinctInvokedThrough(f, b), NonDistinctInvokedThrough(g, b);
    var expected := AppendTo(before, v, e.invocation);
    AppendedViewKeys(f, g, b, v);
    AppendedViewValues(f, b, v, e);
    forall k | k in after
      ensures after[k] == expected[k]
    {
      if k == v && v !in before {
        assert [] + [e.invocation] == [e.invocation];
      }
    }
    SameMap(after, expected);
  }

  lemma SameMap<K, V>(a: map<K, V>, b: map<K, V>)
    requires a.Keys == b.Keys && forall k :: k in a ==> a[k] == b[k]
    ensures a == b
  {
  }

  lemma AppendedViewValues(f: Store, b: FieldBucket, v: AbstractVariable, e: Fact)
    requires CarriesInvocation(e)
    ensures var g := f[InvokedThrough(b, v) := Get(f, InvokedThrough(b, v)) + [e]];
      var before, after := NonDistinctInvokedThrough(f, b), NonDistinctInvokedThrough(g, b);
      && v in after && after[v] == (if v in before then before[v] else []) + [e.invocation]
      && forall k :: k in after && k != v ==> k in before && after[k] == before[k]
  {
    var r := InvokedThrough(b, v);
    var s := Get(f, r);
    var g := f[r := s + [e]];
    var before, after := NonDistinctInvokedThrough(f, b), NonDistinctInvokedThrough(g, b);
    InvocationsAppend(s, e);
    assert r in g;
    assert after[v] == Invocations(s + [e]);
    assert v in before ==> before[v] == Invocations(s);
    assert v !in before ==> s == [];
    forall k | k in after && k != v
      ensures k in before && after[k] == before[k]
    {
      assert InvokedThrough(b, k) in f;
    }
  }

  lemma InvocationsAppend(s: seq<Fact>, e: Fact)
    requires CarriesInvocation(e)
    ensures Invocations(s + [e]) == Invocations(s) + [e.invocation]
  {
    assert (s + [e])[..|s + [e]| - 1] == s;
  }

  lemma AppendedViewKeys(f: Store, g: Store, b: FieldBucket, v: AbstractVariable)
    requires g.Keys == f.Keys + {InvokedThrough(b, v)}
    ensures NonDistinctInvokedThrough(g, b).Keys == NonDistinctInvokedThrough(f, b).Keys + {v}
  {
    var before, after := NonDistinctInvokedThrough(f, b), NonDistinctInvokedThrough(g, b);
    forall k
      ensures k in after <==> k in before || k == v
    {
      assert k in after <==> InvokedThrough(b, k) in g;
      assert k in before <==> InvokedThrough(b, k) in f;
    }
  }

  /** Recording a sequence of facts on a child and on an ancestor keeps the child included. */
  lemma {:induction false} RollUpAllKeepsInclusion(c: Store, p: Store, es: seq<Fact>)
    requires Included(c, p)
    ensures Included(RecordedAll(c, es), RecordedAll(p, es))
  {
    if es != [] {
      var init := es[..|es| - 1];
      RollUpAllKeepsInclusion(c, p, init);
      RollUpKeepsInclusion(RecordedAll(c, init), RecordedAll(p, init), es[|es| - 1]);
    }
  }

  /** Recording a sequence of facts only adds. */
  lemma {:induction false} RecordedAllGrows(f: Store, es: seq<Fact>)
    ensures Included(f, RecordedAll(f, es))
  {
    if es == [] {
      IncludedReflexive(f);
    } else {
      var init := es[..|es| - 1];
      RecordedAllGrows(f, init);
      RecordedGrows(RecordedAll(f, init), es[|es| - 1]);
      IncludedTransitive(f, RecordedAll(f, init), RecordedAll(f, es));
    }
  }

  /** After recording a sequence of facts, every one of them holds. */
  lemma {:induction false} RecordedAllHolds(f: Store, es: seq<Fact>)
    ensures forall e :: e in es ==> Holds(RecordedAll(f, es), e)
  {
    if es != [] {
      var init := es[..|es| - 1];
      var last := es[|es| - 1];
      RecordedAllHolds(f, init);
      forall e | e in es
        ensures Holds(RecordedAll(f, es), e)
      {
        if e == last {
          RecordedHolds(RecordedAll(f, init), last);
        } else {
          assert e in init by {
            var i :| 0 <= i < |es| && es[i] == e;
            assert i < |es| - 1;
            assert init[i] == e;
          }
          if RelationOf(e).Some? {
            RecordedHoldsIff(RecordedAll(f, init), last, e);
          }
        }
      }
    }
  }
}
