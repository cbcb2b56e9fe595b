/**
 * The Java types the handler inspects through reflection: the declared type of a parameter or
 * of a method's return value, the tests isInt, isVoid and isList, and the persistence unit's
 * entity class.
 */
module JavaTypes {
  /**
   * A declared Java type. Integer, int, Void and void have constructors of their own, so the
   * simple name of a `CollectionOf` or `ClassNamed` type is never one of those four.
   */
  datatype JavaType =
    | IntegerClass          // java.lang.Integer
    | IntPrimitive          // int
    | VoidClass             // java.lang.Void
    | VoidPrimitive         // void
    | CollectionOf(simpleName: string)  // a type assignable to java.util.Collection
    | ClassNamed(simpleName: string)    // any other class

  /** isInt: Integer or int (Integer is final, so nothing else is assignable to it). */
  predicate IsInt(t: JavaType) {
    t.IntegerClass? || t.IntPrimitive?
  }

  /** isVoid: Void or void. */
  predicate IsVoid(t: JavaType) {
    t.VoidClass? || t.VoidPrimitive?
  }

  /** isList: the return type is a Collection. */
  predicate IsList(t: JavaType) {
    t.CollectionOf?
  }

  /** Class.getSimpleName. */
  function SimpleName(t: JavaType): string {
    match t
    case IntegerClass => "Integer"
    case IntPrimitive => "int"
    case VoidClass => "Void"
    case VoidPrimitive => "void"
    case CollectionOf(n) => n
    case ClassNamed(n) => n
  }

  /** The one entity class of the persistence unit, whose rows are the session's Store.Entity. */
  const EntityClass := ClassNamed("Book")

  /** The type names an entity class the session knows. */
  predicate IsEntity(t: JavaType) {
    t == EntityClass
  }

  /** Each declared type passes at most one of isInt, isVoid and isList. */
  lemma TypeTestsAreExclusive(t: JavaType)
    ensures !(IsInt(t) && IsVoid(t)) && !(IsInt(t) && IsList(t)) && !(IsVoid(t) && IsList(t))
    ensures IsEntity(t) ==> !IsInt(t) && !IsVoid(t) && !IsList(t)
  {
  }
}
