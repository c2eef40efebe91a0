/**
 * A field access record (owner class, field type, field name and the binding
 * key of the accessing name) used as a key in lists, sets and maps. Equality
 * is structural; the hash code is computed on first request and cached.
 */
module FieldInstructions {

  import opened Wrappers

  const TWO_32: int := 0x1_0000_0000

  /** A Java `int`. */
  type Int32 = x: int | -0x8000_0000 <= x < 0x8000_0000

  /** Two's-complement truncation of an integer to 32 bits, as Java's `int` arithmetic does. */
  function Wrap32(x: int): (r: Int32)
    ensures (x - r) % TWO_32 == 0
    ensures -0x8000_0000 <= x < 0x8000_0000 ==> r == x
  {
    (x + 0x8000_0000) % TWO_32 - 0x8000_0000
  }

  /** `String.hashCode()`: h = 31 * h + c over the characters, in 32-bit arithmetic. */
  function StringHash(s: string): Int32
  {
    if s == [] then 0 else Wrap32(31 * StringHash(s[..|s| - 1]) + s[|s| - 1] as int)
  }

  /**
   * A field's type. TypeObject is not part of this model: a type is its
   * canonical text together with the value its own hashCode() returns, so that
   * equal types hash equally as Java's contract demands.
   */
  datatype TypeObject = TypeObject(canonicalText: string, hash: Int32)

  /** A PSI element handed to setSimpleName, with the reference it carries (if any). */
  datatype PsiElementRef = PsiElementRef(id: nat, reference: Option<nat>)

  /** The hash: 17, then 37 * r + h for owner class, name and type; the binding key is left out. */
  function FieldHash(ownerClass: string, name: string, fieldType: TypeObject): Int32
  {
    var r0 := 17;
    var r1 := Wrap32(37 * r0 + StringHash(ownerClass));
    var r2 := Wrap32(37 * r1 + StringHash(name));
    Wrap32(37 * r2 + fieldType.hash)
  }

  /** `ownerClass + "::" + name`. */
  function FieldToString(ownerClass: string, name: string): (r: string)
    ensures |r| == |ownerClass| + 2 + |name|
    ensures r[..|ownerClass|] == ownerClass && r[|ownerClass|..|ownerClass| + 2] == "::"
    ensures r[|ownerClass| + 2..] == name
  {
    ownerClass + "::" + name
  }

  /**
   * The string form loses nothing when the owner class name has no colon:
   * owner and name can be read back from it.
   */
  lemma {:induction false} FieldToStringInjective(o1: string, n1: string, o2: string, n2: string)
    requires ':' !in o1 && ':' !in o2
    requires FieldToString(o1, n1) == FieldToString(o2, n2)
    ensures o1 == o2 && n1 == n2
  {
    if |o1| < |o2| {
      SeparatorAt(o1, n1);
      assert false;
    } else if |o2| < |o1| {
      SeparatorAt(o2, n2);
      assert false;
    }
  }

  lemma SeparatorAt(ownerClass: string, name: string)
    ensures |FieldToString(ownerClass, name)| > |ownerClass|
    ensures FieldToString(ownerClass, name)[|ownerClass|] == ':'
  {
    var r := FieldToString(ownerClass, name);
    assert r[|ownerClass|] == r[|ownerClass|..|ownerClass| + 2][0];
  }

  /** The identity-free state of a field instruction: what a fragment records. */
  datatype FieldInstruction = FieldInstruction(
    ownerClass: string, fieldType: TypeObject, name: string,
    isStatic: bool, bindingKey: Option<nat>)

  /** Owner class, name and type agree: what `equals` compares before the binding keys. */
  predicate SameField(a: FieldInstruction, b: FieldInstruction)
  {
    a.ownerClass == b.ownerClass && a.name == b.name && a.fieldType == b.fieldType
  }

  /**
   * `a.equals(b)` for two distinct objects, read on their values: the static
   * flag plays no part, and `a`'s binding key is dereferenced once owner,
   * name and type agree.
   */
  predicate EqualValues(a: FieldInstruction, b: FieldInstruction)
    requires SameField(a, b) ==> a.bindingKey.Some?
  {
    SameField(a, b) && a.bindingKey == b.bindingKey
  }

  /** On values, `equals` is equality once the static flags are made to agree. */
  lemma EqualValuesIgnoresStatic(a: FieldInstruction, b: FieldInstruction)
    requires SameField(a, b) ==> a.bindingKey.Some?
    ensures EqualValues(a, b) <==> b.(isStatic := a.isStatic) == a
  {
  }

  class FieldInstructionObject {
    const ownerClass: string
    const fieldType: TypeObject
    const name: string
    var isStatic: bool
    /** The recoverable location of the accessing name (ASTInformation). */
    var simpleName: Option<nat>
    /** The cached hash code; 0 means "not computed yet". */
    var hashCache: Int32
    var bindingKey: Option<nat>

    /** The cache is either empty or holds the hash of the final fields. */
    ghost predicate Valid()
      reads this
    {
      hashCache == 0 || hashCache == FieldHash(ownerClass, name, fieldType)
    }

    function Value(): (v: FieldInstruction)
      reads this
      ensures v.ownerClass == ownerClass && v.fieldType == fieldType && v.name == name
      ensures v.isStatic == isStatic && v.bindingKey == bindingKey
    {
      FieldInstruction(ownerClass, fieldType, name, isStatic, bindingKey)
    }

    constructor (ownerClass: string, fieldType: TypeObject, name: string)
      ensures Valid()
      ensures this.ownerClass == ownerClass && this.fieldType == fieldType && this.name == name
      ensures !isStatic && bindingKey == None && simpleName == None && hashCache == 0
    {
      this.ownerClass := ownerClass;
      this.fieldType := fieldType;
      this.name := name;
      this.isStatic := false;
      this.simpleName := None;
      this.hashCache := 0;
      this.bindingKey := None;
    }

    constructor WithBindingKey(ownerClass: string, fieldType: TypeObject, name: string, key: Option<nat>)
      ensures Valid()
      ensures this.ownerClass == ownerClass && this.fieldType == fieldType && this.name == name
      ensures !isStatic && bindingKey == key && simpleName == None && hashCache == 0
    {
      this.ownerClass := ownerClass;
      this.fieldType := fieldType;
      this.name := name;
      this.isStatic := false;
      this.simpleName := None;
      this.hashCache := 0;
      this.bindingKey := key;
    }

    method SetStatic(s: bool)
      modifies this`isStatic
      ensures isStatic == s
    {
      isStatic := s;
    }

    /** Records the accessing name: its reference becomes the binding key. */
    method SetSimpleName(element: PsiElementRef)
      modifies this`bindingKey, this`simpleName
      ensures bindingKey == element.reference && simpleName == Some(element.id)
    {
      bindingKey := element.reference;
      simpleName := Some(element.id);
    }

    /**
     * `equals`: identity, or another field instruction with the same owner,
     * name, type and binding key. The operands of `&&` are evaluated left to
     * right, so this binding key is dereferenced, and must be set, only when
     * owner, name and type are all equal.
     */
    predicate Equals(o: FieldInstructionObject?): (b: bool)
      reads this, o
      requires o != null && o != this && ownerClass == o.ownerClass && name == o.name && fieldType == o.fieldType
               ==> bindingKey.Some?
      ensures this == o ==> b
      ensures b && o != null ==> o.ToString() == ToString() && o.fieldType == fieldType
    {
      this == o ||
      (o != null && ownerClass == o.ownerClass && name == o.name &&
       fieldType == o.fieldType && bindingKey == o.bindingKey)
    }

    /** `hashCode`: computed when the cache is 0, stored, and returned. */
    method HashCode() returns (h: Int32)
      requires Valid()
      modifies this`hashCache
      ensures Valid()
      ensures h == FieldHash(ownerClass, name, fieldType)
      ensures hashCache == h
    {
      if hashCache == 0 {
        var r := 17;
        r := Wrap32(37 * r + StringHash(ownerClass));
        r := Wrap32(37 * r + StringHash(name));
        r := Wrap32(37 * r + fieldType.hash);
        hashCache := r;
      }
      h := hashCache;
    }

    function ToString(): (s: string)
      ensures s == FieldToString(ownerClass, name)
    {
      ownerClass + "::" + name
    }
  }

  /** `equals` on two distinct objects is EqualValues on what they hold. */
  lemma EqualsOnValues(a: FieldInstructionObject, b: FieldInstructionObject)
    requires a != b
    requires SameField(a.Value(), b.Value()) ==> a.bindingKey.Some?
    ensures a.Equals(b) <==> EqualValues(a.Value(), b.Value())
  {
  }

  /** Equal field instructions have equal hash codes. */
  lemma EqualsImpliesEqualHash(a: FieldInstructionObject, b: FieldInstructionObject)
    requires a != b && a.ownerClass == b.ownerClass && a.name == b.name && a.fieldType == b.fieldType
             ==> a.bindingKey.Some?
    requires a.Equals(b)
    ensures FieldHash(a.ownerClass, a.name, a.fieldType) == FieldHash(b.ownerClass, b.name, b.fieldType)
  {
  }

  /** `equals` is symmetric wherever both directions can be evaluated. */
  lemma EqualsSymmetric(a: FieldInstructionObject, b: FieldInstructionObject)
    requires a != b && a.ownerClass == b.ownerClass && a.name == b.name && a.fieldType == b.fieldType
             ==> a.bindingKey.Some? && b.bindingKey.Some?
    ensures a.Equals(b) <==> b.Equals(a)
  {
  }

  /** Two calls of hashCode return the same value, whatever happened to the static flag or binding key in between. */
  method HashCodeIsStable(f: FieldInstructionObject, s: bool, e: PsiElementRef) returns (h1: Int32, h2: Int32)
    requires f.Valid()
    modifies f
    ensures h1 == h2 == FieldHash(f.ownerClass, f.name, f.fieldType)
  {
    h1 := f.HashCode();
    f.SetStatic(s);
    f.SetSimpleName(e);
    h2 := f.HashCode();
  }
}
