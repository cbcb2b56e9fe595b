/**
 * The persistence session the handler is handed (a JPA EntityManager), as pure functions
 * over a value of its state. The session is not part of the handler: this module fixes the
 * small, standard behaviour the handler relies on (persist assigns a generated identifier,
 * merge updates a managed row or inserts a new one, remove needs a managed row, find looks a
 * row up by primary key) and treats the named queries as uninterpreted functions.
 */
module Store {
  import opened Wrappers
  import opened JavaTypes

  /** A generated primary key. */
  type Id = int

  /** An entity row, with the fields of the Book record the repository's tests persist. */
  datatype Entity = Entity(id: Option<Id>, title: string, author: string, year: int)

  /** A non-null value passed to or returned by a data-access operation. */
  datatype Obj = Number(n: int) | Text(s: string) | Record(entity: Entity) | Rows(rows: seq<Entity>)

  /** The named parameters bound on a query. */
  type Bindings = map<string, Obj>

  /** What a bulk-update query does to one row: leave it, delete it, or overwrite its fields. */
  datatype RowEffect = Keep | Delete | Assign(fields: Entity)

  /**
   * The precompiled named queries of the persistence unit, uninterpreted: a read query maps
   * its name, its bindings and the stored rows to a result list; an update query decides,
   * row by row, what happens to each row.
   */
  datatype Catalogue = Catalogue(
    select: (string, Bindings, map<Id, Entity>) -> seq<Entity>,
    update: (string, Bindings, Entity) -> RowEffect)

  /** The session's state: the stored rows by primary key and the next identifier to generate. */
  datatype Db = Db(rows: map<Id, Entity>, nextId: Id)

  /** The result of a session call and the state it leaves. */
  datatype Effect<T> = Effect(result: Result<T>, db: Db)

  /** The outcome of getSingleResult. */
  datatype Single = Found(entity: Entity) | NoRow | SeveralRows

  /** Every row is stored under its own identifier, and every identifier is below nextId. */
  ghost predicate Valid(db: Db) {
    forall k :: k in db.rows ==> k < db.nextId && db.rows[k].id == Some(k)
  }

  /** The same entity with every field but the identifier equal. */
  predicate SameFields(a: Entity, b: Entity) {
    a.title == b.title && a.author == b.author && a.year == b.year
  }

  /** persist: a new entity receives the next generated identifier and is stored under it. */
  function Persist(db: Db, v: Obj): (r: Effect<Entity>)
    ensures v.Record? <==> r.result.Ok?
    ensures r.result.Ok? ==> r.result.value.id == Some(db.nextId) && SameFields(r.result.value, v.entity)
    ensures r.result.Ok? ==> r.db.rows.Keys == db.rows.Keys + {db.nextId} && r.db.rows[db.nextId] == r.result.value
    ensures r.result.Ok? ==> forall k :: k in db.rows && k != db.nextId ==> r.db.rows[k] == db.rows[k]
    ensures r.result.Err? ==> r.db == db
    ensures Valid(db) ==> Valid(r.db)
  {
    match v
    case Record(e) =>
      var managed := e.(id := Some(db.nextId));
      Effect(Ok(managed), Db(db.rows[db.nextId := managed], db.nextId + 1))
    case _ => Effect(Err("Object is not an entity"), db)
  }

  /**
   * True when the entity carries the identifier of a stored row. The model keeps no
   * persistence context, so this stands in for JPA's "managed": an entity returned by an
   * earlier call and held since counts as stored as long as its row exists.
   */
  predicate Stored(db: Db, e: Entity) {
    e.id.Some? && e.id.value in db.rows
  }

  /**
   * merge: a detached entity whose identifier is stored overwrites that row; any other entity
   * is inserted as new. The managed copy is returned.
   */
  function Merge(db: Db, v: Obj): (r: Effect<Entity>)
    ensures v.Record? <==> r.result.Ok?
    ensures r.result.Ok? ==> SameFields(r.result.value, v.entity) && Stored(r.db, r.result.value)
    ensures r.result.Ok? ==> r.db.rows[r.result.value.id.value] == r.result.value
    ensures r.result.Err? ==> r.db == db
    ensures v.Record? && Stored(db, v.entity) ==>
              r == Effect(Ok(v.entity), Db(db.rows[v.entity.id.value := v.entity], db.nextId))
    ensures v.Record? && !Stored(db, v.entity) ==> r == Persist(db, v)
    ensures Valid(db) ==> Valid(r.db)
  {
    match v
    case Record(e) =>
      if Stored(db, e) then Effect(Ok(e), Db(db.rows[e.id.value := e], db.nextId))
      else Persist(db, v)
    case _ => Effect(Err("Object is not an entity"), db)
  }

  /** remove: only a managed entity can be removed; its row disappears. */
  function Remove(db: Db, v: Obj): (r: Effect<()>)
    ensures r.result.Ok? <==> v.Record? && Stored(db, v.entity)
    ensures r.result.Ok? ==> r.db == Db(db.rows - {v.entity.id.value}, db.nextId)
    ensures r.result.Err? ==> r.db == db
    ensures Valid(db) ==> Valid(r.db)
  {
    match v
    case Record(e) =>
      if Stored(db, e) then Effect(Ok(()), Db(db.rows - {e.id.value}, db.nextId))
      else Effect(Err("Removing a detached instance"), db)
    case _ => Effect(Err("Object is not an entity"), db)
  }

  /**
   * find: the entity class must be one the session knows, and the key must be of its
   * primary-key type (a number); then the row stored under the key is found, or nothing.
   */
  function Find(db: Db, entityClass: JavaType, key: Obj): (r: Result<Option<Entity>>)
    ensures r.Ok? <==> IsEntity(entityClass) && key.Number?
    ensures r.Ok? ==> (r.value.Some? <==> key.n in db.rows)
    ensures r.Ok? && r.value.Some? ==> r.value.value == db.rows[key.n]
  {
    if !IsEntity(entityClass) then Err("Unknown entity: " + SimpleName(entityClass))
    else
      match key
      case Number(k) => Ok(if k in db.rows then Some(db.rows[k]) else None)
      case _ => Err("Key is not of the primary-key type")
  }

  function Min(a: int, b: int): int {
    if a <= b then a else b
  }

  /**
   * The result window of a query: at most `max` rows (no limit when None), starting at the
   * zero-based row `first`.
   */
  function Window(rows: seq<Entity>, first: nat, max: Option<nat>): (r: seq<Entity>)
    ensures |r| == if max.None? then |rows| - Min(first, |rows|)
                   else Min(first + max.value, |rows|) - Min(first, |rows|)
    ensures forall i :: 0 <= i < |r| ==> r[i] == rows[first + i]
    ensures first == 0 && max.None? ==> r == rows
  {
    var lo := Min(first, |rows|);
    var hi := if max.None? then |rows| else Min(first + max.value, |rows|);
    rows[lo..hi]
  }

  /** getResultList: the named read query over the stored rows, cut to the window. */
  function Select(cat: Catalogue, name: string, b: Bindings, first: nat, max: Option<nat>, db: Db): seq<Entity> {
    Window(cat.select(name, b, db.rows), first, max)
  }

  /** getSingleResult: exactly one row, or NoResultException, or NonUniqueResultException. */
  function SingleOf(rows: seq<Entity>): (r: Single)
    ensures r.NoRow? <==> rows == []
    ensures r.Found? <==> |rows| == 1
    ensures r.Found? ==> r.entity == rows[0]
  {
    if |rows| == 0 then NoRow else if |rows| == 1 then Found(rows[0]) else SeveralRows
  }

  /** The row that an update effect leaves under identifier k, when it leaves one. */
  function Applied(k: Id, row: Entity, eff: RowEffect): Entity {
    match eff
    case Assign(fields) => fields.(id := Some(k))
    case _ => row
  }

  /** The identifiers of the rows an update query matches. */
  function Matched(cat: Catalogue, name: string, b: Bindings, db: Db): set<Id> {
    set k | k in db.rows.Keys && !cat.update(name, b, db.rows[k]).Keep?
  }

  /**
   * executeUpdate: every row is kept, deleted or overwritten as the query decides; the
   * result counts the rows it matched.
   */
  function Update(cat: Catalogue, name: string, b: Bindings, db: Db): (r: (Db, nat))
    ensures r.1 == |Matched(cat, name, b, db)|
    ensures r.0.nextId == db.nextId && r.0.rows.Keys <= db.rows.Keys
    ensures forall k :: k in db.rows ==> (k in r.0.rows <==> !cat.update(name, b, db.rows[k]).Delete?)
    ensures forall k :: k in db.rows && cat.update(name, b, db.rows[k]).Keep? ==> r.0.rows[k] == db.rows[k]
    ensures forall k :: k in db.rows && cat.update(name, b, db.rows[k]).Assign? ==>
              r.0.rows[k] == cat.update(name, b, db.rows[k]).fields.(id := Some(k))
    ensures Valid(db) ==> Valid(r.0)
  {
    var rows := map k | k in db.rows.Keys && !cat.update(name, b, db.rows[k]).Delete? ::
                  Applied(k, db.rows[k], cat.update(name, b, db.rows[k]));
    (Db(rows, db.nextId), |Matched(cat, name, b, db)|)
  }
}
