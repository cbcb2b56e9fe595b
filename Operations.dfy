/**
 * The declared data-access operations: what the Java reflection reads off an abstract method
 * (its annotations, its return type, its parameters and their annotations), written out as an
 * explicit descriptor, and what an invocation returns or raises.
 */
module Operations {
  import opened Wrappers
  import opened Store
  import opened JavaTypes

  /** The annotation on a parameter: @QueryParam(name), @Offset, @MaxResults, or none. */
  datatype Role = QueryParam(name: string) | Offset | MaxResults | Plain

  datatype ParamDecl = ParamDecl(role: Role, declared: JavaType)

  /** @NamedQuery(value = name, update = update). */
  datatype QueryDecl = QueryDecl(name: string, update: bool)

  /**
   * An abstract data-access method: its name, which of the five handler annotations it
   * carries, @Optional, its return type and its parameters.
   */
  datatype Operation = Operation(
    name: string,
    namedQuery: Option<QueryDecl>,
    find: bool,
    merge: bool,
    remove: bool,
    persist: bool,
    optional: bool,
    returnType: JavaType,
    params: seq<ParamDecl>)

  /** The handler an operation is dispatched to. */
  datatype Kind = NamedQueryKind(query: QueryDecl) | FindKind | MergeKind | RemoveKind | PersistKind | NoHandler

  /**
   * The dispatch of invoke: the first annotation present, in the order @NamedQuery, @Find,
   * @Merge, @Remove, @Persist, picks the handler; an operation with none of them has none.
   */
  function Classify(op: Operation): (k: Kind)
    ensures k.NamedQueryKind? <==> op.namedQuery.Some?
    ensures k.NamedQueryKind? ==> k.query == op.namedQuery.value
    ensures k == FindKind <==> op.namedQuery.None? && op.find
    ensures k == MergeKind <==> op.namedQuery.None? && !op.find && op.merge
    ensures k == RemoveKind <==> op.namedQuery.None? && !op.find && !op.merge && op.remove
    ensures k == PersistKind <==> op.namedQuery.None? && !op.find && !op.merge && !op.remove && op.persist
    ensures k == NoHandler <==> op.namedQuery.None? && !op.find && !op.merge && !op.remove && !op.persist
  {
    if op.namedQuery.Some? then NamedQueryKind(op.namedQuery.value)
    else if op.find then FindKind
    else if op.merge then MergeKind
    else if op.remove then RemoveKind
    else if op.persist then PersistKind
    else NoHandler
  }

  /** What an invocation returns (a value or null) or raises. */
  datatype Outcome =
    | Value(v: Obj)
    | Null
    | ValidationError(message: string)
    | NoResult
    | NonUniqueResult
    | IllegalArgument(message: string)
    | AbstractMethod(message: string)

  /** An invocation's outcome and the session state it leaves. */
  datatype Step = Step(outcome: Outcome, db: Db)

  /**
   * What the Java call guarantees of an invocation: one argument per declared parameter, and
   * one at least for the handlers that read the first argument.
   */
  predicate Conforms(op: Operation, args: seq<Option<Obj>>) {
    |args| == |op.params| &&
    (Classify(op) in {FindKind, MergeKind, RemoveKind, PersistKind} ==> |args| >= 1)
  }
}
