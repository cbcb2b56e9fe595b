/**
 * PersistenceHandler: the dispatch of a declared data-access operation to a persistence
 * action against the EntityManager it is handed. Each method is proved to return, and to
 * leave the session in, what the function of the same name in module HandlerSpec says.
 */
module PersistenceHandler {
  import opened Wrappers
  import opened Store
  import opened JavaTypes
  import opened Operations
  import opened Session
  import HandlerSpec

  method Invoke(em: EntityManager, op: Operation, args: seq<Option<Obj>>) returns (r: Outcome)
    requires Conforms(op, args)
    modifies em
    ensures Step(r, em.State()) == HandlerSpec.Invoke(op, args, em.catalogue, old(em.State()))
  {
    if op.namedQuery.Some? {
      r := InvokeNamedQuery(em, op, args);
    } else if op.find {
      r := FindByPrimaryKey(em, op, args);
    } else if op.merge {
      r := Merge(em, op, args);
    } else if op.remove {
      r := Remove(em, op, args);
    } else if op.persist {
      r := Persist(em, op, args);
    } else {
      r := AbstractMethod("No handler logic for method: " + op.name);
    }
  }

  /** CREATE: persist the payload and return it. */
  method Persist(em: EntityManager, op: Operation, args: seq<Option<Obj>>) returns (r: Outcome)
    requires |args| == |op.params| >= 1
    modifies em
    ensures Step(r, em.State()) == HandlerSpec.Persist(op, args, old(em.State()))
  {
    var value := args[0];
    if value.None? {
      return ValidationError(SimpleName(op.params[0].declared) + " object is null");
    }
    var managed := em.Persist(value.value);
    r := HandlerSpec.EntityOutcome(managed);
  }

  /** READ: find an entity by primary key. */
  method FindByPrimaryKey(em: EntityManager, op: Operation, args: seq<Option<Obj>>) returns (r: Outcome)
    requires |args| >= 1
    ensures Step(r, em.State()) == HandlerSpec.FindByPrimaryKey(op, args, em.State())
  {
    var entityClass := op.returnType;
    var primaryKey := args[0];
    if primaryKey.None? {
      return ValidationError("Invalid id");
    }
    var found := em.Find(entityClass, primaryKey.value);
    match found
    case Ok(e) => r := if e.Some? then Value(Record(e.value)) else Null;
    case Err(m) => r := IllegalArgument(m);
  }

  /** READ / bulk UPDATE: execute the operation's named query. */
  method InvokeNamedQuery(em: EntityManager, op: Operation, args: seq<Option<Obj>>) returns (r: Outcome)
    requires |args| == |op.params| && op.namedQuery.Some?
    modifies em
    ensures Step(r, em.State()) == HandlerSpec.NamedQuery(op, op.namedQuery.value, args, em.catalogue, old(em.State()))
  {
    var optional := op.optional;
    var namedQuery := op.namedQuery.value;
    var query := em.CreateNamedQuery(namedQuery.name);
    var offset: Option<int> := None;
    var maxResults: Option<int> := None;
    var i := 0;
    while i < |op.params|
      invariant 0 <= i <= |op.params|
      invariant fresh(query) && query.session == em && query.name == namedQuery.name
      invariant query.firstResult == 0 && query.maxResults == None
      invariant em.State() == old(em.State())
      invariant HandlerSpec.Bind(op.params, args) ==
                HandlerSpec.BindFrom(op.params, args, i, HandlerSpec.Extracted(query.bindings, offset, maxResults))
    {
      var parameter := op.params[i];
      var value := args[i];
      if parameter.role.QueryParam? {
        if value.None? {
          return ValidationError(parameter.role.name + " is null");
        }
        query.SetParameter(parameter.role.name, value.value);
      }
      if parameter.role.Offset? && IsInt(parameter.declared) {
        offset := HandlerSpec.AsInt(value);
      }
      if parameter.role.MaxResults? && IsInt(parameter.declared) {
        maxResults := HandlerSpec.AsInt(value);
      }
      i := i + 1;
    }

    if offset.Some? && maxResults.Some? {
      var ok := query.SetFirstResult(offset.value);
      if !ok {
        return IllegalArgument("Negative first result");
      }
      ok := query.SetMaxResults(maxResults.value);
      if !ok {
        return IllegalArgument("Negative max results");
      }
    }

    if namedQuery.update {
      var recordsUpdated := query.ExecuteUpdate();
      if IsInt(op.returnType) {
        r := Value(Number(recordsUpdated));
      } else if IsVoid(op.returnType) {
        r := Null;
      } else {
        r := IllegalArgument("Update methods must have a void or int return type");
      }
    } else if IsList(op.returnType) {
      var rows := query.GetResultList();
      r := Value(Rows(rows));
    } else {
      var single := query.GetSingleResult();
      match single
      case Found(e) => r := Value(Record(e));
      case NoRow => r := if optional then Null else NoResult;
      case SeveralRows => r := NonUniqueResult;
    }
  }

  /** UPDATE: merge the payload and return the session's merged entity. */
  method Merge(em: EntityManager, op: Operation, args: seq<Option<Obj>>) returns (r: Outcome)
    requires |args| == |op.params| >= 1
    modifies em
    ensures Step(r, em.State()) == HandlerSpec.Merge(op, args, old(em.State()))
  {
    var value := args[0];
    if value.None? {
      return ValidationError(SimpleName(op.params[0].declared) + " object is null");
    }
    var merged := em.Merge(value.value);
    r := HandlerSpec.EntityOutcome(merged);
  }

  /** DELETE: merge the payload, remove the managed copy, return null. */
  method Remove(em: EntityManager, op: Operation, args: seq<Option<Obj>>) returns (r: Outcome)
    requires |args| == |op.params| >= 1
    modifies em
    ensures Step(r, em.State()) == HandlerSpec.Remove(op, args, old(em.State()))
  {
    var value := args[0];
    if value.None? {
      return ValidationError(SimpleName(op.params[0].declared) + " object is null");
    }
    var merged := em.Merge(value.value);
    if merged.Err? {
      return IllegalArgument(merged.message);
    }
    // the merged copy is managed, so the session removes it without raising
    var _ := em.Remove(Record(merged.value));
    r := Null;
  }
}
