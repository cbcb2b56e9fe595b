/**
 * The persistence session as objects whose state changes in place: an EntityManager holding
 * the stored rows and the identifier generator, and the Query objects it creates. Each method
 * is proved against the functions of module Store.
 */
module Session {
  import opened Wrappers
  import opened Store
  import opened JavaTypes

  class EntityManager {
    /** The persistence unit's named queries. */
    const catalogue: Catalogue
    var rows: map<Id, Entity>
    var nextId: Id

    /** The session's state as a value. */
    function State(): Db
      reads this
    {
      Db(rows, nextId)
    }

    constructor (catalogue: Catalogue, initial: Db)
      ensures this.catalogue == catalogue && State() == initial
    {
      this.catalogue := catalogue;
      rows := initial.rows;
      nextId := initial.nextId;
    }

    method Persist(v: Obj) returns (r: Result<Entity>)
      modifies this
      ensures Effect(r, State()) == Store.Persist(old(State()), v)
    {
      if v.Record? {
        var managed := v.entity.(id := Some(nextId));
        rows := rows[nextId := managed];
        nextId := nextId + 1;
        r := Ok(managed);
      } else {
        r := Err("Object is not an entity");
      }
    }

    method Merge(v: Obj) returns (r: Result<Entity>)
      modifies this
      ensures Effect(r, State()) == Store.Merge(old(State()), v)
    {
      if v.Record? && Stored(State(), v.entity) {
        rows := rows[v.entity.id.value := v.entity];
        r := Ok(v.entity);
      } else {
        r := Persist(v);
      }
    }

    method Remove(v: Obj) returns (r: Result<()>)
      modifies this
      ensures Effect(r, State()) == Store.Remove(old(State()), v)
    {
      if !v.Record? {
        r := Err("Object is not an entity");
      } else if Stored(State(), v.entity) {
        rows := rows - {v.entity.id.value};
        r := Ok(());
      } else {
        r := Err("Removing a detached instance");
      }
    }

    method Find(entityClass: JavaType, key: Obj) returns (r: Result<Option<Entity>>)
      ensures r == Store.Find(State(), entityClass, key)
    {
      if !IsEntity(entityClass) {
        r := Err("Unknown entity: " + SimpleName(entityClass));
      } else if !key.Number? {
        r := Err("Key is not of the primary-key type");
      } else if key.n in rows {
        r := Ok(Some(rows[key.n]));
      } else {
        r := Ok(None);
      }
    }

    /** createNamedQuery: a new query with nothing bound and no result window. */
    method CreateNamedQuery(name: string) returns (q: Query)
      ensures fresh(q) && q.session == this && q.name == name
      ensures q.bindings == map[] && q.firstResult == 0 && q.maxResults == None
    {
      q := new Query(this, name);
    }
  }

  class Query {
    const session: EntityManager
    const name: string
    var bindings: Bindings
    var firstResult: nat
    /** None: no limit. */
    var maxResults: Option<nat>

    constructor (session: EntityManager, name: string)
      ensures this.session == session && this.name == name
      ensures bindings == map[] && firstResult == 0 && maxResults == None
    {
      this.session := session;
      this.name := name;
      bindings := map[];
      firstResult := 0;
      maxResults := None;
    }

    method SetParameter(param: string, v: Obj)
      modifies this
      ensures bindings == old(bindings)[param := v]
      ensures firstResult == old(firstResult) && maxResults == old(maxResults)
    {
      bindings := bindings[param := v];
    }

    /** setFirstResult: a negative position raises IllegalArgumentException (ok false). */
    method SetFirstResult(position: int) returns (ok: bool)
      modifies this
      ensures ok <==> position >= 0
      ensures firstResult == if ok then position else old(firstResult)
      ensures bindings == old(bindings) && maxResults == old(maxResults)
    {
      ok := position >= 0;
      if ok {
        firstResult := position;
      }
    }

    /** setMaxResults: a negative limit raises IllegalArgumentException (ok false). */
    method SetMaxResults(limit: int) returns (ok: bool)
      modifies this
      ensures ok <==> limit >= 0
      ensures maxResults == if ok then Some(limit) else old(maxResults)
      ensures bindings == old(bindings) && firstResult == old(firstResult)
    {
      ok := limit >= 0;
      if ok {
        maxResults := Some(limit);
      }
    }

    method GetResultList() returns (result: seq<Entity>)
      ensures result == Select(session.catalogue, name, bindings, firstResult, maxResults, session.State())
    {
      result := Window(session.catalogue.select(name, bindings, session.rows), firstResult, maxResults);
    }

    method GetSingleResult() returns (r: Single)
      ensures r == SingleOf(Select(session.catalogue, name, bindings, firstResult, maxResults, session.State()))
    {
      var result := GetResultList();
      if |result| == 0 {
        r := NoRow;
      } else if |result| == 1 {
        r := Found(result[0]);
      } else {
        r := SeveralRows;
      }
    }

    method ExecuteUpdate() returns (count: nat)
      modifies session
      ensures (session.State(), count) == Update(session.catalogue, name, bindings, old(session.State()))
    {
      var updated := Update(session.catalogue, name, bindings, session.State());
      session.rows := updated.0.rows;
      count := updated.1;
    }
  }
}
