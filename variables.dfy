/**
 * Variable identity: a plain variable is a declaration (local, parameter or
 * field); a composite variable is an access path rooted at a declaration.
 * Declarations are opaque identities handed out by the syntax front end.
 */
module Variables {

  /** Which kind of declaration a variable name is bound to. */
  datatype VarKind = FieldVar | ParameterVar | LocalVar

  /**
   * A declared variable (a PsiVariable): its identity, its kind and whether
   * its declared type is primitive (the answer of the front end's isPrimitive).
   */
  datatype PsiVar = PsiVar(id: nat, kind: VarKind, primitive: bool)

  /** PlainVariable(origin) | CompositeVariable(origin, rightPart). */
  datatype AbstractVariable =
    | Plain(origin: PsiVar)
    | Composite(origin: PsiVar, rightPart: AbstractVariable)

  type PlainVariable = v: AbstractVariable | v.Plain? witness Plain(PsiVar(0, LocalVar, false))

  /** getInitialVariable: the plain variable at the root of the access path. */
  function InitialVariable(v: AbstractVariable): (r: PlainVariable)
    ensures r.origin == v.origin
    ensures v.Plain? ==> r == v
  {
    Plain(v.origin)
  }

  predicate IsField(v: PlainVariable) { v.origin.kind == FieldVar }

  predicate IsParameter(v: PlainVariable) { v.origin.kind == ParameterVar }
}
