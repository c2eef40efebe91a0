/**
 * Reaching aliases: what a statement of the dependence graph does to the set
 * of aliases that reach it. A declaration `T v = w;` or an assignment
 * `v = w;` between reference-typed variables makes `v` an alias of `w`; an
 * assignment of anything else to `v` clears the aliases of `v`.
 *
 * The syntax tree is not modelled: an expression carries only what the
 * front end answers about it (what a reference resolves to).
 */
module Aliasing {

  import opened Wrappers
  import opened Variables

  /** What `resolve()` returns for a reference expression: a variable, some other element, or null. */
  datatype Target = ToVariable(v: PsiVar) | ToOther(id: nat) | ToNothing

  /** An expression: a reference, an assignment, or anything else with its subexpressions. */
  datatype Expr =
    | Ref(target: Target)
    | Assign(lhs: Expr, rhs: Expr)
    | OtherExpr(parts: seq<Expr>)

  /** A declared element of a declaration statement: a variable with its initializer, or something else. */
  datatype DeclaredElement = VariableElement(v: PsiVar, initializer: Option<Expr>) | OtherElement

  /** The statement of a dependence-graph node, as far as the alias rules look at it. */
  datatype Statement =
    | DeclarationStmt(elements: seq<DeclaredElement>)
    | ExpressionStmt(expression: Expr)
    | OtherStmt

  /**
   * The assignment subexpressions of an expression, outermost first: what
   * the expression extractor collects (the extractor is not part of this model).
   */
  function AssignmentsIn(e: Expr): (r: seq<Expr>)
    ensures forall a :: a in r ==> a.Assign?
    ensures e.Assign? ==> |r| > 0 && r[0] == e
    decreases e
  {
    match e
    case Ref(_) => []
    case Assign(lhs, rhs) => [e] + AssignmentsIn(lhs) + AssignmentsIn(rhs)
    case OtherExpr(parts) => AssignmentsInAll(parts)
  }

  function AssignmentsInAll(es: seq<Expr>): (r: seq<Expr>)
    ensures forall a :: a in r ==> a.Assign?
    decreases es
  {
    if es == [] then [] else AssignmentsIn(es[0]) + AssignmentsInAll(es[1..])
  }

  /** One call on the reaching alias set: insertAlias(variable, alias) or removeAlias(variable). */
  datatype AliasOp = Inserted(variable: PsiVar, alias: PsiVar) | Removed(variable: PsiVar)

  /**
   * The declaration statement rule: only the first declared element is
   * looked at; if it is a reference-typed variable whose initializer is a
   * reference resolving to a variable declared in the method (or a field it
   * accesses), the declared variable becomes an alias of it.
   */
  function DeclarationOps(decls: seq<PsiVar>, elements: seq<DeclaredElement>): seq<AliasOp>
  {
    if elements == [] || !elements[0].VariableElement? then []
    else
      var d := elements[0];
      if d.v.primitive || d.initializer.None? then []
      else
        match d.initializer.value
        case Ref(ToVariable(w)) => if w in decls then [Inserted(d.v, w)] else []
        case _ => []
  }

  /** A right-hand side that is a reference: insert when both sides are found, remove when it resolves to nothing. */
  function ReferenceOps(decls: seq<PsiVar>, l: PsiVar, t: Target): seq<AliasOp>
  {
    match t
    case ToVariable(w) => if l in decls && w in decls then [Inserted(l, w)] else []
    case ToOther(_) => []
    case ToNothing => if l in decls then [Removed(l)] else []
  }

  /** The left-hand side the rule applies to: a reference resolving to a reference-typed variable. */
  predicate TracksLeftSide(lhs: Expr) {
    lhs.Ref? && lhs.target.ToVariable? && !lhs.target.v.primitive
  }

  /**
   * processAssignment as written. For a nested assignment `v = (u = e)` the
   * inner assignment is processed first; then the inner left-hand side is
   * kept as an expression instead of being resolved, so no declaration ever
   * equals it: a reference there adds nothing, anything else removes the
   * aliases of `v`.
   */
  function AssignmentOpsAsWritten(decls: seq<PsiVar>, lhs: Expr, rhs: Expr): seq<AliasOp>
    decreases rhs
  {
    if !TracksLeftSide(lhs) then []
    else
      var l := lhs.target.v;
      match rhs
      case Ref(t) => ReferenceOps(decls, l, t)
      case Assign(innerLhs, innerRhs) =>
        AssignmentOpsAsWritten(decls, innerLhs, innerRhs)
        + (if innerLhs.Ref? then [] else if l in decls then [Removed(l)] else [])
      case OtherExpr(_) => if l in decls then [Removed(l)] else []
  }

  /**
   * processAssignment with the inner left-hand side resolved: `v = (u = e)`
   * treats `u` exactly as a reference `v = u` is treated, so it also makes
   * `v` an alias of `u`.
   */
  function AssignmentOps(decls: seq<PsiVar>, lhs: Expr, rhs: Expr): seq<AliasOp>
    decreases rhs
  {
    if !TracksLeftSide(lhs) then []
    else
      var l := lhs.target.v;
      match rhs
      case Ref(t) => ReferenceOps(decls, l, t)
      case Assign(innerLhs, innerRhs) =>
        AssignmentOps(decls, innerLhs, innerRhs)
        + (if innerLhs.Ref? then ReferenceOps(decls, l, innerLhs.target) else if l in decls then [Removed(l)] else [])
      case OtherExpr(_) => if l in decls then [Removed(l)] else []
  }

  /** updateReachingAliasSet: a declaration, an expression statement that is an assignment, or nothing. */
  function UpdateOps(decls: seq<PsiVar>, s: Statement): seq<AliasOp>
  {
    match s
    case DeclarationStmt(elements) => DeclarationOps(decls, elements)
    case ExpressionStmt(Assign(lhs, rhs)) => AssignmentOps(decls, lhs, rhs)
    case _ => []
  }

  /** An operation mentions only variables the lookup found among the declarations. */
  predicate Declared(decls: seq<PsiVar>, op: AliasOp) {
    match op
    case Inserted(v, a) => v in decls && a in decls
    case Removed(v) => v in decls
  }

  /**
   * A declaration statement changes the alias set by at most one insertion,
   * of the first declared variable, and exactly when it is reference-typed
   * and initialised with a reference to a declared variable; it never removes.
   */
  lemma DeclarationInsertsOnly(decls: seq<PsiVar>, elements: seq<DeclaredElement>)
    ensures |DeclarationOps(decls, elements)| <= 1
    ensures forall op :: op in DeclarationOps(decls, elements) ==>
      && op.Inserted? && elements[0].VariableElement? && op.variable == elements[0].v
      && !op.variable.primitive && elements[0].initializer == Some(Ref(ToVariable(op.alias)))
      && op.alias in decls
    ensures DeclarationOps(decls, elements) != [] <==>
      && elements != [] && elements[0].VariableElement? && !elements[0].v.primitive
      && elements[0].initializer.Some? && elements[0].initializer.value.Ref?
      && elements[0].initializer.value.target.ToVariable? && elements[0].initializer.value.target.v in decls
  {
  }

  /** Only the first declared element counts: what follows it changes nothing. */
  lemma DeclarationFirstElementOnly(decls: seq<PsiVar>, first: DeclaredElement, rest: seq<DeclaredElement>)
    ensures DeclarationOps(decls, [first] + rest) == DeclarationOps(decls, [first])
  {
    assert ([first] + rest)[0] == first;
  }

  /** Every alias operation of an assignment is about variables found among the declarations. */
  lemma {:induction false} AssignmentOpsDeclared(decls: seq<PsiVar>, lhs: Expr, rhs: Expr)
    ensures forall op :: op in AssignmentOps(decls, lhs, rhs) ==> Declared(decls, op)
    decreases rhs
  {
    if TracksLeftSide(lhs) && rhs.Assign? {
      AssignmentOpsDeclared(decls, rhs.lhs, rhs.rhs);
    }
  }

  /**
   * A reference on the right: `v = w` inserts (v -> w) exactly when both are
   * found, `v = <unresolved>` removes the aliases of `v`, and nothing else happens.
   */
  lemma ReferenceAssignment(decls: seq<PsiVar>, l: PsiVar, w: PsiVar)
    requires !l.primitive
    ensures AssignmentOps(decls, Ref(ToVariable(l)), Ref(ToVariable(w)))
         == (if l in decls && w in decls then [Inserted(l, w)] else [])
    ensures AssignmentOps(decls, Ref(ToVariable(l)), Ref(ToNothing))
         == (if l in decls then [Removed(l)] else [])
  {
  }

  /**
   * A nested assignment is processed inner first; when the inner left side
   * resolves to a variable, the outer step adds at most one insertion, of
   * (v -> u), and removes nothing.
   */
  lemma NestedAssignment(decls: seq<PsiVar>, l: PsiVar, innerLhs: Expr, innerRhs: Expr)
    requires !l.primitive && innerLhs.Ref? && innerLhs.target.ToVariable?
    ensures var ops := AssignmentOps(decls, Ref(ToVariable(l)), Assign(innerLhs, innerRhs));
      && var inner := AssignmentOps(decls, innerLhs, innerRhs);
      && |ops| - |inner| <= 1 && ops[..|inner|] == inner
      && forall i :: |inner| <= i < |ops| ==> ops[i] == Inserted(l, innerLhs.target.v)
  {
  }

  /**
   * `a = b = c` with `a`, `b` and `c` reference-typed and declared: as
   * written, only (b -> c) is inserted; the intended rule also inserts (a -> b).
   */
  lemma AsWrittenNestedLosesAlias(a: PsiVar, b: PsiVar, c: PsiVar)
    requires !a.primitive && !b.primitive
    ensures var decls := [a, b, c];
      var rhs := Assign(Ref(ToVariable(b)), Ref(ToVariable(c)));
      && AssignmentOpsAsWritten(decls, Ref(ToVariable(a)), rhs) == [Inserted(b, c)]
      && AssignmentOps(decls, Ref(ToVariable(a)), rhs) == [Inserted(b, c), Inserted(a, b)]
  {
  }

  /**
   * The reaching alias set. Its internals are not part of this model: it is
   * the sequence of insertAlias and removeAlias calls made on it.
   */
  class ReachingAliasSet {
    var log: seq<AliasOp>

    constructor ()
      ensures log == []
    {
      log := [];
    }

    method InsertAlias(v: PsiVar, alias: PsiVar)
      modifies this
      ensures log == old(log) + [Inserted(v, alias)]
    {
      log := log + [Inserted(v, alias)];
    }

    method RemoveAlias(v: PsiVar)
      modifies this
      ensures log == old(log) + [Removed(v)]
    {
      log := log + [Removed(v)];
    }
  }
}
