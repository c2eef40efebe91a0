/**
 * A node of the program dependence graph: the variables its statement
 * declares, defines and uses, the objects it creates, the exceptions it
 * throws, and its incoming dependences. Reaching aliases flow through the
 * nodes: a node updates the alias set with its own statement, and widens its
 * definitions and uses of composite variables to every alias of their root.
 */
module PDG {

  import opened Wrappers
  import opened Variables
  import opened Facts
  import opened Aliasing

  /** The kinds of dependence edges of the graph. */
  datatype DependenceKind = ControlDependence | DataDependence | AntiDependence | OutputDependence

  /** An incoming edge: its kind and its source node. */
  datatype Dependence = Dependence(kind: DependenceKind, src: PDGNode)

  /**
   * The four sets applyReachingAliasSet reads and writes: the defined and
   * used variables, and the snapshots of both taken at the first application
   * (None while no snapshot has been taken).
   */
  datatype VariableSets = VariableSets(
    defined: set<AbstractVariable>,
    used: set<AbstractVariable>,
    originalDefined: Option<set<AbstractVariable>>,
    originalUsed: Option<set<AbstractVariable>>)

  /** A composite variable `r.f` rewritten onto each alias `a` of its root as `a.f`. */
  function Rerooted(cv: AbstractVariable, aliases: set<PsiVar>): set<AbstractVariable>
    requires cv.Composite?
  {
    set a | a in aliases :: Composite(a, cv.rightPart)
  }

  /**
   * The variables an application of the alias set adds for the given
   * originals: every composite original with aliases, rerooted onto each of them.
   * `aliases` holds the answers of containsAlias/getAliases.
   */
  function AliasWidening(original: set<AbstractVariable>, aliases: map<AbstractVariable, set<PsiVar>>): set<AbstractVariable>
  {
    set cv, a | cv in original && cv.Composite? && cv in aliases && a in aliases[cv] :: Composite(a, cv.rightPart)
  }

  /** The snapshot in use: the one already taken, or else the current set. */
  function Snapshot(current: set<AbstractVariable>, saved: Option<set<AbstractVariable>>): set<AbstractVariable>
  {
    if saved.Some? then saved.value else current
  }

  /**
   * applyReachingAliasSet on the node's sets: take each snapshot if none is
   * taken yet, then add the widening of the snapshot to the current set.
   */
  function AliasesApplied(s: VariableSets, aliases: map<AbstractVariable, set<PsiVar>>): (r: VariableSets)
    ensures s.defined <= r.defined && s.used <= r.used
    ensures r.originalDefined.Some? && r.originalUsed.Some?
    ensures s.originalDefined.Some? ==> r.originalDefined == s.originalDefined
    ensures s.originalUsed.Some? ==> r.originalUsed == s.originalUsed
  {
    var od := Snapshot(s.defined, s.originalDefined);
    var ou := Snapshot(s.used, s.originalUsed);
    VariableSets(s.defined + AliasWidening(od, aliases), s.used + AliasWidening(ou, aliases), Some(od), Some(ou))
  }

  /**
   * What the widening adds, exactly: composite variables whose right part is
   * that of a composite original with aliases, rooted at one of its aliases.
   */
  lemma AliasWideningMembers(original: set<AbstractVariable>, aliases: map<AbstractVariable, set<PsiVar>>, x: AbstractVariable)
    ensures x in AliasWidening(original, aliases) <==>
      x.Composite? && exists cv :: cv in original && cv.Composite? && cv in aliases
                                   && x.origin in aliases[cv] && x.rightPart == cv.rightPart
  {
    if x.Composite? {
      if cv :| cv in original && cv.Composite? && cv in aliases && x.origin in aliases[cv] && x.rightPart == cv.rightPart {
        assert x == Composite(x.origin, cv.rightPart);
      }
    }
  }

  /** Plain variables are never widened: a node with no composite variable gains nothing. */
  lemma PlainVariablesNotWidened(original: set<AbstractVariable>, aliases: map<AbstractVariable, set<PsiVar>>)
    requires forall v :: v in original ==> v.Plain?
    ensures AliasWidening(original, aliases) == {}
  {
  }

  /** The widening of a union is the union of the widenings (each original is rerooted on its own). */
  lemma AliasWideningStep(done: set<AbstractVariable>, cv: AbstractVariable, aliases: map<AbstractVariable, set<PsiVar>>)
    ensures AliasWidening(done + {cv}, aliases)
         == AliasWidening(done, aliases) + (if cv.Composite? && cv in aliases then Rerooted(cv, aliases[cv]) else {})
  {
    var lhs := AliasWidening(done + {cv}, aliases);
    var rhs := AliasWidening(done, aliases) + (if cv.Composite? && cv in aliases then Rerooted(cv, aliases[cv]) else {});
    forall x | x in lhs ensures x in rhs {
      AliasWideningMembers(done + {cv}, aliases, x);
      var c :| c in done + {cv} && c.Composite? && c in aliases && x.origin in aliases[c] && x.rightPart == c.rightPart;
      if c == cv {
        assert x == Composite(x.origin, cv.rightPart);
      } else {
        AliasWideningMembers(done, aliases, x);
      }
    }
    forall x | x in rhs ensures x in lhs {
      AliasWideningMembers(done, aliases, x);
      AliasWideningMembers(done + {cv}, aliases, x);
    }
  }

  /** Applying the same alias set twice adds nothing the first application did not. */
  lemma AliasesAppliedIdempotent(s: VariableSets, aliases: map<AbstractVariable, set<PsiVar>>)
    ensures AliasesApplied(AliasesApplied(s, aliases), aliases) == AliasesApplied(s, aliases)
  {
  }

  /**
   * Every application widens the snapshot taken at the first one, never what
   * earlier applications added: two applications add the widenings of the
   * original sets under each alias set, and keep the first snapshots.
   */
  lemma AliasesAppliedFromSnapshot(s: VariableSets, first: map<AbstractVariable, set<PsiVar>>, second: map<AbstractVariable, set<PsiVar>>)
    ensures var od := Snapshot(s.defined, s.originalDefined);
      var ou := Snapshot(s.used, s.originalUsed);
      var r := AliasesApplied(AliasesApplied(s, first), second);
      && r.defined == s.defined + AliasWidening(od, first) + AliasWidening(od, second)
      && r.used == s.used + AliasWidening(ou, first) + AliasWidening(ou, second)
      && r.originalDefined == Some(od) && r.originalUsed == Some(ou)
  {
  }

  /** The lookup over the declarations in the method and the fields it accesses. */
  method FindDeclaration(decls: seq<PsiVar>, x: PsiVar) returns (r: Option<PsiVar>)
    ensures r.Some? <==> x in decls
    ensures r.Some? ==> r.value == x
  {
    var i := 0;
    while i < |decls|
      invariant 0 <= i <= |decls|
      invariant x !in decls[..i]
    {
      if decls[i] == x {
        return Some(decls[i]);
      }
      i := i + 1;
    }
    assert decls[..i] == decls;
    return None;
  }

  /** The lookup of a resolved element: only a variable can equal a declaration. */
  method FindTarget(decls: seq<PsiVar>, t: Target) returns (r: Option<PsiVar>)
    ensures r.Some? <==> t.ToVariable? && t.v in decls
    ensures r.Some? ==> r.value == t.v
  {
    match t {
      case ToVariable(v) =>
        r := FindDeclaration(decls, v);
      case _ =>
        r := None;
    }
  }

  /** The roots a set of variables rewrites: every composite variable in it, rerooted onto its aliases. */
  method CompositeAliases(original: set<AbstractVariable>, aliases: map<AbstractVariable, set<PsiVar>>)
    returns (added: set<AbstractVariable>)
    ensures added == AliasWidening(original, aliases)
  {
    added := {};
    var rest := original;
    while rest != {}
      invariant rest <= original
      invariant added == AliasWidening(original - rest, aliases)
      decreases |rest|
    {
      var cv :| cv in rest;
      AliasWideningStep(original - rest, cv, aliases);
      if cv.Composite? && cv in aliases {
        var rerooted := Reroot(cv, aliases[cv]);
        added := added + rerooted;
      }
      assert original - (rest - {cv}) == (original - rest) + {cv};
      rest := rest - {cv};
    }
  }

  /** The inner loop: one composite variable rerooted onto each alias. */
  method Reroot(cv: AbstractVariable, aliases: set<PsiVar>) returns (r: set<AbstractVariable>)
    requires cv.Composite?
    ensures r == Rerooted(cv, aliases)
  {
    r := {};
    var rest := aliases;
    while rest != {}
      invariant rest <= aliases
      invariant r == Rerooted(cv, aliases - rest)
      decreases |rest|
    {
      var a :| a in rest;
      assert aliases - (rest - {a}) == (aliases - rest) + {a};
      r := r + {Composite(a, cv.rightPart)};
      rest := rest - {a};
    }
  }

  class PDGNode {
    const id: int
    const statement: Statement
    /** Whether this is the entry node of the method (a PDGMethodEntryNode). */
    const isMethodEntry: bool
    const variableDeclarationsInMethod: seq<PsiVar>
    const fieldsAccessedInMethod: seq<PsiVar>

    var declaredVariables: set<AbstractVariable>
    var definedVariables: set<AbstractVariable>
    var usedVariables: set<AbstractVariable>
    var createdTypes: set<Creation>
    var thrownExceptionTypes: set<string>
    var originalDefinedVariables: Option<set<AbstractVariable>>
    var originalUsedVariables: Option<set<AbstractVariable>>
    var incomingEdges: seq<Dependence>

    /** A node of a control-flow node: all sets empty, no snapshot, no edges yet. */
    constructor (id: int, statement: Statement, isMethodEntry: bool,
                 variableDeclarationsInMethod: seq<PsiVar>, fieldsAccessedInMethod: seq<PsiVar>)
      ensures this.id == id && this.statement == statement && this.isMethodEntry == isMethodEntry
      ensures this.variableDeclarationsInMethod == variableDeclarationsInMethod
      ensures this.fieldsAccessedInMethod == fieldsAccessedInMethod
      ensures declaredVariables == {} && definedVariables == {} && usedVariables == {}
      ensures createdTypes == {} && thrownExceptionTypes == {}
      ensures originalDefinedVariables.None? && originalUsedVariables.None?
      ensures incomingEdges == []
    {
      this.id := id;
      this.statement := statement;
      this.isMethodEntry := isMethodEntry;
      this.variableDeclarationsInMethod := variableDeclarationsInMethod;
      this.fieldsAccessedInMethod := fieldsAccessedInMethod;
      declaredVariables := {};
      definedVariables := {};
      usedVariables := {};
      createdTypes := {};
      thrownExceptionTypes := {};
      originalDefinedVariables := None;
      originalUsedVariables := None;
      incomingEdges := [];
    }

    /** The declarations alias lookups search: the method's variables, then the fields it accesses. */
    function Declarations(): seq<PsiVar> {
      variableDeclarationsInMethod + fieldsAccessedInMethod
    }

    function Sets(): VariableSets
      reads this
    {
      VariableSets(definedVariables, usedVariables, originalDefinedVariables, originalUsedVariables)
    }

    /** The source of the first incoming control dependence, or null when there is none. */
    method GetControlDependenceParent() returns (p: PDGNode?)
      ensures p == null <==> forall i :: 0 <= i < |incomingEdges| ==> incomingEdges[i].kind != ControlDependence
      ensures p != null ==>
        exists i :: (0 <= i < |incomingEdges| && incomingEdges[i].kind == ControlDependence && incomingEdges[i].src == p
                     && forall j :: 0 <= j < i ==> incomingEdges[j].kind != ControlDependence)
    {
      var i := 0;
      while i < |incomingEdges|
        invariant 0 <= i <= |incomingEdges|
        invariant forall j :: 0 <= j < i ==> incomingEdges[j].kind != ControlDependence
      {
        if incomingEdges[i].kind == ControlDependence {
          return incomingEdges[i].src;
        }
        i := i + 1;
      }
      return null;
    }

    /** Whether some incoming control dependence comes from the method entry node. */
    method HasIncomingControlDependenceFromMethodEntryNode() returns (b: bool)
      ensures b <==> exists i :: 0 <= i < |incomingEdges| && incomingEdges[i].kind == ControlDependence
                                 && incomingEdges[i].src.isMethodEntry
    {
      var i := 0;
      while i < |incomingEdges|
        invariant 0 <= i <= |incomingEdges|
        invariant forall j :: 0 <= j < i ==> !(incomingEdges[j].kind == ControlDependence && incomingEdges[j].src.isMethodEntry)
      {
        if incomingEdges[i].kind == ControlDependence && incomingEdges[i].src.isMethodEntry {
          return true;
        }
        i := i + 1;
      }
      return false;
    }

    predicate DeclaresLocalVariable(v: AbstractVariable)
      reads this
    {
      v in declaredVariables
    }

    predicate DefinesLocalVariable(v: AbstractVariable)
      reads this
    {
      v in definedVariables
    }

    predicate UsesLocalVariable(v: AbstractVariable)
      reads this
    {
      v in usedVariables
    }

    function ContainsClassInstanceCreation(): (b: bool)
      reads this
      ensures b <==> exists c :: c in createdTypes
    {
      createdTypes != {}
    }

    function ThrowsException(): (b: bool)
      reads this
      ensures b <==> exists t :: t in thrownExceptionTypes
    {
      thrownExceptionTypes != {}
    }

    /** Integer.compare of the node ids. */
    function CompareTo(other: PDGNode): (r: int)
      ensures r == -1 <==> id < other.id
      ensures r == 0 <==> id == other.id
      ensures r == 1 <==> id > other.id
    {
      if id < other.id then -1 else if id == other.id then 0 else 1
    }

    /** The node order is antisymmetric: comparing the other way round flips the sign. */
    lemma CompareToAntisymmetric(other: PDGNode)
      ensures CompareTo(other) == -other.CompareTo(this)
      ensures CompareTo(other) == 0 <==> other.CompareTo(this) == 0
    {
    }

    /** Whether the node defines some field of `d` (a composite variable rooted at `d`). */
    method ChangesStateOfReference(d: PsiVar) returns (b: bool)
      ensures b <==> exists v :: v in definedVariables && v.Composite? && v.origin == d
    {
      var rest := definedVariables;
      while rest != {}
        invariant rest <= definedVariables
        invariant forall v :: v in definedVariables && v !in rest ==> !(v.Composite? && v.origin == d)
        decreases |rest|
      {
        var v :| v in rest;
        if v.Composite? && v.origin == d {
          return true;
        }
        rest := rest - {v};
      }
      return false;
    }

    /** Whether the node uses `d` itself (the plain variable of `d`). */
    method AccessesReference(d: PsiVar) returns (b: bool)
      ensures b <==> exists v :: v in usedVariables && v.Plain? && v.origin == d
    {
      var rest := usedVariables;
      while rest != {}
        invariant rest <= usedVariables
        invariant forall v :: v in usedVariables && v !in rest ==> !(v.Plain? && v.origin == d)
        decreases |rest|
      {
        var v :| v in rest;
        if v.Plain? && v.origin == d {
          return true;
        }
        rest := rest - {v};
      }
      return false;
    }

    /**
     * Whether the statement copies the reference `d`: some declared variable
     * is initialised with `d`, or some assignment in the expression statement
     * has `d` on its right.
     */
    method AssignsReference(d: PsiVar) returns (b: bool)
      ensures b <==>
        || (statement.DeclarationStmt? && exists el :: el in statement.elements && el.VariableElement?
                                                      && el.initializer == Some(Ref(ToVariable(d))))
        || (statement.ExpressionStmt? && exists a :: a in AssignmentsIn(statement.expression) && a.Assign?
                                                    && a.rhs == Ref(ToVariable(d)))
    {
      match statement {
        case DeclarationStmt(elements) =>
          var i := 0;
          while i < |elements|
            invariant 0 <= i <= |elements|
            invariant forall j :: 0 <= j < i ==> !(elements[j].VariableElement? && elements[j].initializer == Some(Ref(ToVariable(d))))
          {
            var el := elements[i];
            if el.VariableElement? && el.initializer.Some? && el.initializer.value.Ref? {
              var element := el.initializer.value.target;
              if element.ToVariable? && element.v == d {
                return true;
              }
            }
            i := i + 1;
          }
          return false;
        case ExpressionStmt(e) =>
          var assignments := AssignmentsIn(e);
          var i := 0;
          while i < |assignments|
            invariant 0 <= i <= |assignments|
            invariant forall j :: 0 <= j < i ==> assignments[j].rhs != Ref(ToVariable(d))
          {
            var rhs := assignments[i].rhs;
            if rhs.Ref? && rhs.target == ToVariable(d) {
              return true;
            }
            i := i + 1;
          }
          return false;
        case OtherStmt =>
          return false;
      }
    }

    /** updateReachingAliasSet: the alias set receives the calls the node's statement calls for. */
    method UpdateReachingAliasSet(aliasSet: ReachingAliasSet)
      modifies aliasSet
      ensures aliasSet.log == old(aliasSet.log) + UpdateOps(Declarations(), statement)
    {
      var decls := variableDeclarationsInMethod + fieldsAccessedInMethod;
      match statement {
        case DeclarationStmt(elements) =>
          if |elements| > 0 && elements[0].VariableElement? {
            var declared := elements[0].v;
            if !declared.primitive && elements[0].initializer.Some? {
              var initializer := elements[0].initializer.value;
              if initializer.Ref? && !initializer.target.ToNothing? {
                var found := FindTarget(decls, initializer.target);
                if found.Some? {
                  aliasSet.InsertAlias(declared, found.value);
                }
              }
            }
          }
        case ExpressionStmt(e) =>
          if e.Assign? {
            ProcessAssignment(aliasSet, decls, e.lhs, e.rhs);
          }
        case OtherStmt =>
      }
    }

    /**
     * processAssignment, with the left side of a nested assignment resolved
     * like any other reference on the right.
     */
    method ProcessAssignment(aliasSet: ReachingAliasSet, decls: seq<PsiVar>, lhs: Expr, rhs: Expr)
      modifies aliasSet
      ensures aliasSet.log == old(aliasSet.log) + AssignmentOps(decls, lhs, rhs)
      decreases rhs
    {
      if lhs.Ref? && lhs.target.ToVariable? && !lhs.target.v.primitive {
        var lhsDeclaration := FindDeclaration(decls, lhs.target.v);
        var rhsName: Option<Target> := None;
        if rhs.Ref? {
          if !rhs.target.ToNothing? {
            rhsName := Some(rhs.target);
          }
        } else if rhs.Assign? {
          ProcessAssignment(aliasSet, decls, rhs.lhs, rhs.rhs);
          if rhs.lhs.Ref? && !rhs.lhs.target.ToNothing? {
            rhsName := Some(rhs.lhs.target);
          }
        }
        if rhsName.Some? {
          var rhsDeclaration := FindTarget(decls, rhsName.value);
          if lhsDeclaration.Some? && rhsDeclaration.Some? {
            aliasSet.InsertAlias(lhsDeclaration.value, rhsDeclaration.value);
          }
        } else if lhsDeclaration.Some? {
          aliasSet.RemoveAlias(lhsDeclaration.value);
        }
      }
    }

    /**
     * applyReachingAliasSet: the node's defined and used sets become those
     * AliasesApplied gives; nothing else about the node changes.
     * `aliases` holds the alias set's answers to containsAlias/getAliases.
     */
    method ApplyReachingAliasSet(aliases: map<AbstractVariable, set<PsiVar>>)
      modifies this
      ensures Sets() == AliasesApplied(old(Sets()), aliases)
      ensures declaredVariables == old(declaredVariables) && createdTypes == old(createdTypes)
      ensures thrownExceptionTypes == old(thrownExceptionTypes) && incomingEdges == old(incomingEdges)
    {
      if originalDefinedVariables.None? {
        originalDefinedVariables := Some(definedVariables);
      }
      var defAdded := CompositeAliases(originalDefinedVariables.value, aliases);
      definedVariables := definedVariables + defAdded;
      if originalUsedVariables.None? {
        originalUsedVariables := Some(usedVariables);
      }
      var useAdded := CompositeAliases(originalUsedVariables.value, aliases);
      usedVariables := usedVariables + useAdded;
    }
  }
}
