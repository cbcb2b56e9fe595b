/**
 * Properties of invoke: dispatch, validation before any session call, what each handler
 * returns and leaves in the session, pagination, update result typing, the no-result policy,
 * and the persist/find round trip.
 */
module HandlerProperties {
  import opened Wrappers
  import opened Store
  import opened JavaTypes
  import opened Operations
  import opened HandlerSpec
  import opened Binding

  /** An operation with none of the five annotations raises AbstractMethodError, and only such a one. */
  lemma AbstractMethodExactlyWithoutHandler(op: Operation, args: seq<Option<Obj>>, cat: Catalogue, db: Db)
    requires Conforms(op, args)
    ensures Invoke(op, args, cat, db).outcome.AbstractMethod? <==> Classify(op) == NoHandler
    ensures Classify(op) == NoHandler ==> Invoke(op, args, cat, db).db == db
  {
  }

  /** A validation error is raised before the session is touched: the session is left as it was. */
  lemma ValidationLeavesSessionUnchanged(op: Operation, args: seq<Option<Obj>>, cat: Catalogue, db: Db)
    requires Conforms(op, args)
    ensures Invoke(op, args, cat, db).outcome.ValidationError? ==> Invoke(op, args, cat, db).db == db
  {
  }

  /** persist, merge and remove reject a null payload, leaving the session unchanged. */
  lemma NullPayloadRejected(op: Operation, args: seq<Option<Obj>>, cat: Catalogue, db: Db)
    requires Conforms(op, args) && Classify(op) in {MergeKind, RemoveKind, PersistKind}
    requires args[0].None?
    ensures Invoke(op, args, cat, db) == Step(ValidationError(NullPayload(op)), db)
  {
  }

  /**
   * persist returns the payload it stored: the same fields, with the generated identifier;
   * exactly that row is added, every other row is untouched.
   */
  lemma PersistReturnsStoredPayload(op: Operation, args: seq<Option<Obj>>, cat: Catalogue, db: Db, e: Entity)
    requires Conforms(op, args) && Classify(op) == PersistKind && args[0] == Some(Record(e))
    ensures var s := Invoke(op, args, cat, db);
      var stored := e.(id := Some(db.nextId));
      s.outcome == Value(Record(stored)) &&
      s.db.rows.Keys == db.rows.Keys + {db.nextId} && s.db.rows[db.nextId] == stored &&
      (forall k :: k in db.rows && k != db.nextId ==> s.db.rows[k] == db.rows[k])
    ensures Valid(db) ==>
      Valid(Invoke(op, args, cat, db).db) && |Invoke(op, args, cat, db).db.rows| == |db.rows| + 1
  {
    if Valid(db) {
      var s := Invoke(op, args, cat, db);
      assert db.nextId !in db.rows;
      assert s.db.rows.Keys == db.rows.Keys + {db.nextId};
      assert |s.db.rows.Keys| == |db.rows.Keys| + 1;
    }
  }

  /**
   * merge returns the session's managed copy: a stored entity overwrites its own row and
   * nothing else; any other entity is inserted under a generated identifier.
   */
  lemma MergeReturnsManagedCopy(op: Operation, args: seq<Option<Obj>>, cat: Catalogue, db: Db, e: Entity)
    requires Conforms(op, args) && Classify(op) == MergeKind && args[0] == Some(Record(e))
    ensures var s := Invoke(op, args, cat, db);
      s.outcome.Value? && s.outcome.v.Record? &&
      SameFields(s.outcome.v.entity, e) && Stored(s.db, s.outcome.v.entity) &&
      s.db.rows[s.outcome.v.entity.id.value] == s.outcome.v.entity
    ensures Stored(db, e) ==>
      Invoke(op, args, cat, db) == Step(Value(Record(e)), Db(db.rows[e.id.value := e], db.nextId))
    ensures !Stored(db, e) ==> Invoke(op, args, cat, db) == HandlerSpec.Persist(op, args, db)
  {
  }

  /** Merging the managed copy that merge returned changes nothing more and returns it again. */
  lemma {:induction false} MergeIsIdempotent(op: Operation, args: seq<Option<Obj>>, cat: Catalogue, db: Db)
    requires Conforms(op, args) && Classify(op) == MergeKind && args[0].Some? && args[0].value.Record?
    ensures var s := Invoke(op, args, cat, db);
      var again := Invoke(op, args[0 := Some(s.outcome.v)], cat, s.db);
      again == s
  {
    var s := Invoke(op, args, cat, db);
    var m := s.outcome.v.entity;
    assert Stored(s.db, m) && s.db.rows[m.id.value] == m;
    assert s.db.rows[m.id.value := m] == s.db.rows;
  }

  /**
   * remove merges, then removes, and returns null: a stored entity's row disappears; a
   * detached new one is inserted and removed again, so no row changes.
   */
  lemma RemoveDeletesRow(op: Operation, args: seq<Option<Obj>>, cat: Catalogue, db: Db, e: Entity)
    requires Conforms(op, args) && Classify(op) == RemoveKind && args[0] == Some(Record(e))
    ensures Invoke(op, args, cat, db).outcome == Null
    ensures Stored(db, e) ==> Invoke(op, args, cat, db).db == Db(db.rows - {e.id.value}, db.nextId)
    ensures !Stored(db, e) && Valid(db) ==> Invoke(op, args, cat, db).db.rows == db.rows
  {
    if Stored(db, e) {
      assert db.rows[e.id.value := e] - {e.id.value} == db.rows - {e.id.value};
    } else if Valid(db) {
      assert db.nextId !in db.rows;
      var m := e.(id := Some(db.nextId));
      assert db.rows[db.nextId := m] - {db.nextId} == db.rows;
    }
  }

  /**
   * findByPrimaryKey rejects a null key; otherwise it returns exactly what the session's
   * lookup for the return type gives: the row or null for the entity class, and an
   * IllegalArgumentException for a return type that is no entity. It never raises no-result
   * and changes nothing.
   */
  lemma FindReturnsLookup(op: Operation, args: seq<Option<Obj>>, cat: Catalogue, db: Db)
    requires Conforms(op, args) && Classify(op) == FindKind
    ensures var s := Invoke(op, args, cat, db);
      s.db == db && !s.outcome.NoResult? &&
      (args[0].None? ==> s.outcome == ValidationError("Invalid id")) &&
      (args[0].Some? && !IsEntity(op.returnType) ==> s.outcome.IllegalArgument?) &&
      (args[0].Some? && IsEntity(op.returnType) && args[0].value.Number? ==>
        s.outcome == if args[0].value.n in db.rows then Value(Record(db.rows[args[0].value.n])) else Null)
  {
  }

  /**
   * A named query raises a validation error exactly when some @QueryParam argument is null;
   * the error names the first one, and the query has not run.
   */
  lemma NamedQueryRejectsNullParam(op: Operation, q: QueryDecl, args: seq<Option<Obj>>, cat: Catalogue, db: Db)
    requires Conforms(op, args) && Classify(op) == NamedQueryKind(q)
    ensures Invoke(op, args, cat, db).outcome.ValidationError? <==>
      exists j :: 0 <= j && NullQueryParam(op.params, args, j)
    ensures Invoke(op, args, cat, db).outcome.ValidationError? ==>
      Invoke(op, args, cat, db).db == db &&
      exists j :: 0 <= j && NullQueryParam(op.params, args, j) &&
        (forall k :: 0 <= k < j ==> !NullQueryParam(op.params, args, k)) &&
        Invoke(op, args, cat, db).outcome.message == op.params[j].role.name + " is null"
  {
    BindRejectsFirstNull(op.params, args, 0, NothingExtracted);
  }

  /**
   * A list-shaped read returns the whole query result unless both pagination values are
   * present; with both, it returns the slice [offset, min(offset + max, n)) of it, and a
   * negative offset or limit is an IllegalArgumentException. The session is unchanged.
   */
  lemma ListReadIsWindowOfQuery(op: Operation, q: QueryDecl, args: seq<Option<Obj>>, cat: Catalogue, db: Db)
    requires Conforms(op, args) && Classify(op) == NamedQueryKind(q) && !q.update && IsList(op.returnType)
    requires Bind(op.params, args).Ok?
    ensures var x := Bind(op.params, args).value;
      var all := cat.select(q.name, x.bindings, db.rows);
      var s := Invoke(op, args, cat, db);
      s.db == db &&
      (!Paged(x) ==> s.outcome == Value(Rows(all))) &&
      (Paged(x) && x.offset.value >= 0 && x.maxResults.value >= 0 ==>
        s.outcome == Value(Rows(all[Min(x.offset.value, |all|)..Min(x.offset.value + x.maxResults.value, |all|)]))) &&
      (Paged(x) && (x.offset.value < 0 || x.maxResults.value < 0) ==> s.outcome.IllegalArgument?)
  {
  }

  /** The window [first, first + max) of n rows holds min(max, n - first) rows. */
  lemma WindowSize(rows: seq<Entity>, first: nat, max: nat)
    ensures |Window(rows, first, Some(max))| ==
      if first >= |rows| then 0 else if first + max <= |rows| then max else |rows| - first
  {
  }

  /**
   * A bulk update always executes; then an int return gives the row count, a void return
   * gives null, and any other return type raises IllegalArgumentException with the update
   * already applied.
   */
  lemma UpdateResultFollowsReturnType(op: Operation, q: QueryDecl, args: seq<Option<Obj>>, cat: Catalogue, db: Db)
    requires Conforms(op, args) && Classify(op) == NamedQueryKind(q) && q.update
    requires Bind(op.params, args).Ok?
    requires var x := Bind(op.params, args).value; !Paged(x) || (x.offset.value >= 0 && x.maxResults.value >= 0)
    ensures var x := Bind(op.params, args).value;
      var updated := Update(cat, q.name, x.bindings, db);
      var s := Invoke(op, args, cat, db);
      s.db == updated.0 &&
      (IsInt(op.returnType) ==> s.outcome == Value(Number(updated.1))) &&
      (IsVoid(op.returnType) ==> s.outcome == Null) &&
      (!IsInt(op.returnType) && !IsVoid(op.returnType) ==> s.outcome.IllegalArgument?)
  {
  }

  /**
   * A single-shaped read takes the rows of the query's window (the whole result when not
   * paged): with none it raises no-result, or returns null when @Optional; with one it
   * returns that row; with more it raises NonUniqueResultException. The session is unchanged.
   */
  lemma SingleReadOutcome(op: Operation, q: QueryDecl, args: seq<Option<Obj>>, cat: Catalogue, db: Db)
    requires Conforms(op, args) && Classify(op) == NamedQueryKind(q) && !q.update && !IsList(op.returnType)
    requires Bind(op.params, args).Ok?
    requires var x := Bind(op.params, args).value; !Paged(x) || (x.offset.value >= 0 && x.maxResults.value >= 0)
    ensures var x := Bind(op.params, args).value;
      var first: nat := if Paged(x) then x.offset.value else 0;
      var max: Option<nat> := if Paged(x) then Some(x.maxResults.value) else None;
      var rows := Select(cat, q.name, x.bindings, first, max, db);
      var s := Invoke(op, args, cat, db);
      s.db == db &&
      (rows == [] ==> s.outcome == if op.optional then Null else NoResult) &&
      (|rows| == 1 ==> s.outcome == Value(Record(rows[0]))) &&
      (|rows| > 1 ==> s.outcome == NonUniqueResult)
  {
  }

  /**
   * No-result is raised only by a single-shaped, non-optional read query: never by find,
   * an update, or a list-shaped read.
   */
  lemma NoResultOnlyFromStrictSingleRead(op: Operation, args: seq<Option<Obj>>, cat: Catalogue, db: Db)
    requires Conforms(op, args)
    ensures Invoke(op, args, cat, db).outcome.NoResult? ==>
      Classify(op).NamedQueryKind? && !Classify(op).query.update && !IsList(op.returnType) && !op.optional
  {
  }

  /** Every invocation keeps the session's rows stored under their own identifiers. */
  lemma InvokePreservesValid(op: Operation, args: seq<Option<Obj>>, cat: Catalogue, db: Db)
    requires Conforms(op, args) && Valid(db)
    ensures Valid(Invoke(op, args, cat, db).db)
  {
  }

  /**
   * Round trip: persisting an entity and then finding by the identifier it was given
   * returns an entity with the same fields, when the finder's return type is the entity
   * class; any other return type makes the lookup raise IllegalArgumentException. Both
   * handlers read the first argument only, so any further arguments are immaterial.
   */
  lemma PersistThenFind(create: Operation, find: Operation, e: Entity, restCreate: seq<Option<Obj>>,
                        restFind: seq<Option<Obj>>, cat: Catalogue, db: Db)
    requires Classify(create) == PersistKind && |create.params| == 1 + |restCreate|
    requires Classify(find) == FindKind && |find.params| == 1 + |restFind|
    ensures var created := Invoke(create, [Some(Record(e))] + restCreate, cat, db);
      created.outcome.Value? && created.outcome.v.Record? && created.outcome.v.entity.id.Some? &&
      var stored := created.outcome.v.entity;
      var found := Invoke(find, [Some(Number(stored.id.value))] + restFind, cat, created.db).outcome;
      SameFields(stored, e) &&
      (IsEntity(find.returnType) ==> found == Value(Record(stored))) &&
      (!IsEntity(find.returnType) ==> found.IllegalArgument?)
  {
  }

  /** An update that overwrites every row reports every row as affected. */
  lemma UpdateOfEveryRowCountsAll(cat: Catalogue, name: string, b: Bindings, db: Db)
    requires forall k :: k in db.rows ==> cat.update(name, b, db.rows[k]).Assign?
    ensures Update(cat, name, b, db).1 == |db.rows|
    ensures Update(cat, name, b, db).0.rows.Keys == db.rows.Keys
  {
    forall k | k in db.rows.Keys
      ensures k in Matched(cat, name, b, db)
    {
      assert cat.update(name, b, db.rows[k]).Assign?;
    }
    assert Matched(cat, name, b, db) == db.rows.Keys;
    var updated := Update(cat, name, b, db).0;
    assert forall k :: k in db.rows.Keys ==> k in updated.rows.Keys;
  }
}
