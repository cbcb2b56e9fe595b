/**
 * The behaviour of PersistenceHandler as pure functions of the descriptor, the arguments, the
 * named-query catalogue and the session state. The methods of module PersistenceHandler are
 * proved equal to these; the properties of the handler are lemmas about them.
 */
module HandlerSpec {
  import opened Wrappers
  import opened Store
  import opened JavaTypes
  import opened Operations

  /** Bindings and pagination values collected from the parameters of a named query. */
  datatype Extracted = Extracted(bindings: Bindings, offset: Option<int>, maxResults: Option<int>)

  const NothingExtracted := Extracted(map[], None, None)

  /** The value of an Integer-typed argument: a number, or null. */
  function AsInt(v: Option<Obj>): Option<int> {
    if v.Some? && v.value.Number? then Some(v.value.n) else None
  }

  /** A parameter that sets the offset: @Offset on an Integer or int. */
  predicate SetsOffset(d: ParamDecl) {
    d.role.Offset? && IsInt(d.declared)
  }

  /** A parameter that sets the limit: @MaxResults on an Integer or int. */
  predicate SetsMaxResults(d: ParamDecl) {
    d.role.MaxResults? && IsInt(d.declared)
  }

  /**
   * One turn of the parameter loop: a @QueryParam with a null value is a validation error,
   * otherwise it is bound under its name; an Integer @Offset or @MaxResults overwrites the
   * value collected so far (with null, too).
   */
  function BindOne(d: ParamDecl, v: Option<Obj>, acc: Extracted): Result<Extracted> {
    match d.role
    case QueryParam(name) =>
      if v.None? then Err(name + " is null") else Ok(acc.(bindings := acc.bindings[name := v.value]))
    case Offset => Ok(if IsInt(d.declared) then acc.(offset := AsInt(v)) else acc)
    case MaxResults => Ok(if IsInt(d.declared) then acc.(maxResults := AsInt(v)) else acc)
    case Plain => Ok(acc)
  }

  /** The parameter loop from parameter i on, having collected acc before it. */
  function BindFrom(ds: seq<ParamDecl>, vs: seq<Option<Obj>>, i: nat, acc: Extracted): Result<Extracted>
    requires |ds| == |vs| && i <= |ds|
    decreases |ds| - i
  {
    if i == |ds| then Ok(acc)
    else
      match BindOne(ds[i], vs[i], acc)
      case Err(m) => Err(m)
      case Ok(next) => BindFrom(ds, vs, i + 1, next)
  }

  /** The whole parameter loop of invokeNamedQuery. */
  function Bind(ds: seq<ParamDecl>, vs: seq<Option<Obj>>): Result<Extracted>
    requires |ds| == |vs|
  {
    BindFrom(ds, vs, 0, NothingExtracted)
  }

  /** Pagination takes effect only when both values were collected. */
  predicate Paged(x: Extracted) {
    x.offset.Some? && x.maxResults.Some?
  }

  /** The outcome of the chosen read method: getResultList for a Collection, else getSingleResult. */
  function ReadOutcome(op: Operation, rows: seq<Entity>): Outcome {
    if IsList(op.returnType) then Value(Rows(rows))
    else
      match SingleOf(rows)
      case Found(e) => Value(Record(e))
      case NoRow => if op.optional then Null else NoResult
      case SeveralRows => NonUniqueResult
  }

  /** An update always executes; its declared return type then decides the outcome. */
  function UpdateOutcome(op: Operation, count: nat): Outcome {
    if IsInt(op.returnType) then Value(Number(count))
    else if IsVoid(op.returnType) then Null
    else IllegalArgument("Update methods must have a void or int return type")
  }

  /** Running the prepared query, with the window (first, max), against the session. */
  function Execute(op: Operation, q: QueryDecl, b: Bindings, first: nat, max: Option<nat>, cat: Catalogue, db: Db): Step {
    if q.update then
      var (db', count) := Update(cat, q.name, b, db);
      Step(UpdateOutcome(op, count), db')
    else
      Step(ReadOutcome(op, Select(cat, q.name, b, first, max, db)), db)
  }

  /** invokeNamedQuery. */
  function NamedQuery(op: Operation, q: QueryDecl, args: seq<Option<Obj>>, cat: Catalogue, db: Db): Step
    requires |args| == |op.params|
  {
    match Bind(op.params, args)
    case Err(m) => Step(ValidationError(m), db)
    case Ok(x) =>
      if !Paged(x) then Execute(op, q, x.bindings, 0, None, cat, db)
      else if x.offset.value < 0 then Step(IllegalArgument("Negative first result"), db)
      else if x.maxResults.value < 0 then Step(IllegalArgument("Negative max results"), db)
      else Execute(op, q, x.bindings, x.offset.value, Some(x.maxResults.value), cat, db)
  }

  /** The message of the validation error for a null payload. */
  function NullPayload(op: Operation): string
    requires |op.params| >= 1
  {
    SimpleName(op.params[0].declared) + " object is null"
  }

  /** The managed entity a session call gives back, or the IllegalArgumentException it raises. */
  function EntityOutcome(r: Result<Entity>): Outcome {
    match r
    case Ok(e) => Value(Record(e))
    case Err(m) => IllegalArgument(m)
  }

  /** persist: store the payload and return it (with its generated identifier). */
  function Persist(op: Operation, args: seq<Option<Obj>>, db: Db): Step
    requires |op.params| >= 1 && |args| >= 1
  {
    if args[0].None? then Step(ValidationError(NullPayload(op)), db)
    else
      var eff := Store.Persist(db, args[0].value);
      Step(EntityOutcome(eff.result), eff.db)
  }

  /** findByPrimaryKey: what the session's lookup of the return type's entity class gives, a row or null. */
  function FindByPrimaryKey(op: Operation, args: seq<Option<Obj>>, db: Db): Step
    requires |args| >= 1
  {
    if args[0].None? then Step(ValidationError("Invalid id"), db)
    else
      match Store.Find(db, op.returnType, args[0].value)
      case Ok(found) => Step(if found.Some? then Value(Record(found.value)) else Null, db)
      case Err(m) => Step(IllegalArgument(m), db)
  }

  /** merge: return the session's merged entity. */
  function Merge(op: Operation, args: seq<Option<Obj>>, db: Db): Step
    requires |op.params| >= 1 && |args| >= 1
  {
    if args[0].None? then Step(ValidationError(NullPayload(op)), db)
    else
      var eff := Store.Merge(db, args[0].value);
      Step(EntityOutcome(eff.result), eff.db)
  }

  /** remove: merge the payload, remove the managed copy, return null. */
  function Remove(op: Operation, args: seq<Option<Obj>>, db: Db): Step
    requires |op.params| >= 1 && |args| >= 1
  {
    if args[0].None? then Step(ValidationError(NullPayload(op)), db)
    else
      var merged := Store.Merge(db, args[0].value);
      match merged.result
      case Err(m) => Step(IllegalArgument(m), merged.db)
      case Ok(managed) =>
        Step(Null, Store.Remove(merged.db, Record(managed)).db)
  }

  /** invoke: dispatch on the operation's annotations. */
  function Invoke(op: Operation, args: seq<Option<Obj>>, cat: Catalogue, db: Db): Step
    requires Conforms(op, args)
  {
    match Classify(op)
    case NamedQueryKind(q) => NamedQuery(op, q, args, cat, db)
    case FindKind => FindByPrimaryKey(op, args, db)
    case MergeKind => Merge(op, args, db)
    case RemoveKind => Remove(op, args, db)
    case PersistKind => Persist(op, args, db)
    case NoHandler => Step(AbstractMethod("No handler logic for method: " + op.name), db)
  }
}
