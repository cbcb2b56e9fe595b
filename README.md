# Petstore persistence handler, modelled in Dafny

The petstore's data-access layer declares its data-access operations as abstract methods
carrying annotations. A dynamic proxy hands every call to `PersistenceHandler.invoke`. That
method looks at the annotations and runs one of five actions against the JPA `EntityManager`
it is given:

- run a named query (`@NamedQuery`, optionally `update = true`), with `@QueryParam`,
  `@Offset`, `@MaxResults` and `@Optional`;
- look an entity up by primary key (`@Find`);
- merge an entity (`@Merge`);
- remove an entity (`@Remove`);
- persist an entity (`@Persist`).

A method with none of these annotations raises `AbstractMethodError`. `ExceptionUtils` finds
the root cause of a throwable and recognises the application's `ValidationException`.

The model has two layers.

- Reference definitions as pure functions:
  - module `Store` describes the persistence session;
  - module `HandlerSpec` describes the handler.
- Imperative code over objects whose state changes in place:
  - module `Session` has the `EntityManager` and `Query` classes;
  - module `PersistenceHandler` has the handler's methods, including the parameter loop of
    `invokeNamedQuery`;
  - module `ExceptionUtils` has the `getRootCause` loop.

Each method is proved to give the result and leave the state that its function says. The
properties the handler promises are lemmas about those functions:

- `Binding` covers the parameter loop;
- `HandlerProperties` covers dispatch, validation, each action, paging, update typing, the
  no-result policy and the persist/find round trip;
- `BookCrud` replays the scenarios of the test interface and its tests on the interface's
  own descriptors.

Reflection is replaced by an explicit descriptor (`Operations.Operation`). It carries:

- the name;
- the five annotation flags, plus `@Optional`;
- the return type;
- each parameter's role (`@QueryParam(name)`, `@Offset`, `@MaxResults` or none) and its
  declared type.

An argument is `Option<Obj>`, where `None` is Java's `null`. A raised exception is an
`Outcome` alternative.

## Model

| member | source | states |
|---|---|---|
| Operations.Classify | src/main/java/org/agoncal/application/petstore/persistence/PersistenceHandler.java:40-73 | The handler chosen, in the source's priority order (named query, find, merge, remove, persist): each kind is chosen exactly when its annotation is present and no earlier one is. No handler exactly when none is present. |
| JavaTypes.IsInt | src/main/java/org/agoncal/application/petstore/persistence/PersistenceHandler.java:250-253 | Integer or int, decided on the declared type. |
| JavaTypes.IsVoid | src/main/java/org/agoncal/application/petstore/persistence/PersistenceHandler.java:260-262 | Void or void. |
| JavaTypes.IsList | src/main/java/org/agoncal/application/petstore/persistence/PersistenceHandler.java:241-243 | A return type assignable to `Collection`. |
| JavaTypes.SimpleName | src/main/java/org/agoncal/application/petstore/persistence/PersistenceHandler.java:91 | `getSimpleName` of a declared type, used in the null-payload message. |
| JavaTypes.TypeTestsAreExclusive | src/main/java/org/agoncal/application/petstore/persistence/PersistenceHandler.java:241-262 | A declared type passes at most one of the three tests, and the entity class passes none of them. |
| HandlerSpec.Invoke | src/main/java/org/agoncal/application/petstore/persistence/PersistenceHandler.java:40-73 | Reference definition of `invoke`: the handler that `Classify` picks, or `AbstractMethodError` naming the method. |
| HandlerSpec.Persist | src/main/java/org/agoncal/application/petstore/persistence/PersistenceHandler.java:86-96 | Reference definition of `persist`: the null-payload validation error, otherwise `Store.Persist` and its result. |
| HandlerSpec.FindByPrimaryKey | src/main/java/org/agoncal/application/petstore/persistence/PersistenceHandler.java:109-117 | Reference definition of `findByPrimaryKey`: "Invalid id" for a null key, otherwise `Store.Find` with the return type as the entity class. |
| HandlerSpec.BindOne | src/main/java/org/agoncal/application/petstore/persistence/PersistenceHandler.java:141-158 | One turn of the parameter loop: a null `@QueryParam` is the validation error "<name> is null", otherwise the value is bound. An Integer or int `@Offset`/`@MaxResults` overwrites the value collected so far. |
| HandlerSpec.BindFrom | src/main/java/org/agoncal/application/petstore/persistence/PersistenceHandler.java:140-159 | The parameter loop from parameter i on, as a fold of `BindOne` that stops at the first error. |
| HandlerSpec.Bind | src/main/java/org/agoncal/application/petstore/persistence/PersistenceHandler.java:137-159 | The whole parameter loop, starting with nothing bound and both paging values null. |
| HandlerSpec.Paged | src/main/java/org/agoncal/application/petstore/persistence/PersistenceHandler.java:161 | Paging applies when both the offset and the limit are non-null. |
| HandlerSpec.ReadOutcome | src/main/java/org/agoncal/application/petstore/persistence/PersistenceHandler.java:178-189 | `getResultList` for a Collection return type, else `getSingleResult`; no row gives null under `@Optional`, else no-result. |
| HandlerSpec.UpdateOutcome | src/main/java/org/agoncal/application/petstore/persistence/PersistenceHandler.java:169-176 | The count for an int return type, null for void, else `IllegalArgumentException`. |
| HandlerSpec.Execute | src/main/java/org/agoncal/application/petstore/persistence/PersistenceHandler.java:166-189 | An update runs `Store.Update` and then `UpdateOutcome`; a read selects the window and then applies `ReadOutcome`. |
| HandlerSpec.NamedQuery | src/main/java/org/agoncal/application/petstore/persistence/PersistenceHandler.java:131-190 | Reference definition of `invokeNamedQuery`: a binding error, or the window (a negative offset or limit raises `IllegalArgumentException`), then `Execute`. |
| HandlerSpec.Merge | src/main/java/org/agoncal/application/petstore/persistence/PersistenceHandler.java:202-211 | Reference definition of `merge`: the null-payload validation error, otherwise `Store.Merge` and its result. |
| HandlerSpec.Remove | src/main/java/org/agoncal/application/petstore/persistence/PersistenceHandler.java:224-234 | Reference definition of `remove`: the null-payload validation error, otherwise `Store.Merge`, then `Store.Remove` of the merged copy, returning null. |
| PersistenceHandler.Invoke | src/main/java/org/agoncal/application/petstore/persistence/PersistenceHandler.java:40-73 | The dispatching method returns, and leaves the session in, what `HandlerSpec.Invoke` gives for the old session state. |
| HandlerProperties.AbstractMethodExactlyWithoutHandler | src/main/java/org/agoncal/application/petstore/persistence/PersistenceHandler.java:40-73 | `AbstractMethodError` is raised if and only if no handler annotation is present, and then the session is untouched. |
| PersistenceHandler.Persist | src/main/java/org/agoncal/application/petstore/persistence/PersistenceHandler.java:86-96 | A null payload is a validation error naming the parameter type; otherwise the method persists the payload and returns it. The step equals `HandlerSpec.Persist`. |
| HandlerProperties.PersistReturnsStoredPayload | src/main/java/org/agoncal/application/petstore/persistence/PersistenceHandler.java:86-96 | persist returns the payload with the generated identifier. Exactly that row is added and every other row is untouched. On a well-formed session the row count grows by one. |
| HandlerProperties.NullPayloadRejected | src/main/java/org/agoncal/application/petstore/persistence/PersistenceHandler.java:86-234 | persist, merge and remove turn a null payload into "<SimpleName> object is null" and leave the session unchanged. |
| PersistenceHandler.FindByPrimaryKey | src/main/java/org/agoncal/application/petstore/persistence/PersistenceHandler.java:109-117 | A null key is the validation error "Invalid id". Otherwise the result is the session's lookup for the method's return type as the entity class. The session is not modified. |
| HandlerProperties.FindReturnsLookup | src/main/java/org/agoncal/application/petstore/persistence/PersistenceHandler.java:109-117 | find never raises no-result and never changes the session. A null key gives "Invalid id". A return type that is not an entity class raises `IllegalArgumentException`. For the entity class, a numeric key gives the stored row, or null when there is none. |
| PersistenceHandler.InvokeNamedQuery | src/main/java/org/agoncal/application/petstore/persistence/PersistenceHandler.java:131-190 | The parameter loop, the paging, and the update or read with its no-result policy, on a fresh `Query`. Result and new session state equal `HandlerSpec.NamedQuery`. |
| Binding.BindRejectsFirstNull | src/main/java/org/agoncal/application/petstore/persistence/PersistenceHandler.java:140-148 | The loop fails if and only if some `@QueryParam` argument is null. The message names the first such parameter. |
| Binding.BindBindsDeclaredNames | src/main/java/org/agoncal/application/petstore/persistence/PersistenceHandler.java:140-148 | Exactly the declared `@QueryParam` names (and those bound before) are bound on the query. |
| Binding.BindTakesLastValue | src/main/java/org/agoncal/application/petstore/persistence/PersistenceHandler.java:140-148 | Each name is bound to the non-null argument of the last parameter declared with it. |
| Binding.BindKeepsUndeclared | src/main/java/org/agoncal/application/petstore/persistence/PersistenceHandler.java:140-148 | A name not declared again keeps the value already bound to it. |
| Binding.BindTakesLastOffset | src/main/java/org/agoncal/application/petstore/persistence/PersistenceHandler.java:150-153 | The offset is the value (null included) of the last `@Offset` parameter of Integer or int type. With none, the earlier value is kept. |
| Binding.BindTakesLastMaxResults | src/main/java/org/agoncal/application/petstore/persistence/PersistenceHandler.java:155-158 | The limit is the value (null included) of the last `@MaxResults` parameter of Integer or int type. With none, the earlier value is kept. |
| Binding.ExistsLastOffset | src/main/java/org/agoncal/application/petstore/persistence/PersistenceHandler.java:150-153 | When some parameter sets the offset, a last such parameter exists. |
| Binding.ExistsLastMaxResults | src/main/java/org/agoncal/application/petstore/persistence/PersistenceHandler.java:155-158 | When some parameter sets the limit, a last such parameter exists. |
| Binding.PagedExactlyWithBothValues | src/main/java/org/agoncal/application/petstore/persistence/PersistenceHandler.java:161-164 | Paging applies if and only if the last offset and the last limit parameter exist and are both non-null. |
| HandlerProperties.NamedQueryRejectsNullParam | src/main/java/org/agoncal/application/petstore/persistence/PersistenceHandler.java:140-148 | A named query raises a validation error if and only if some `@QueryParam` argument is null. The message names the first one, and the session is unchanged. |
| HandlerProperties.ListReadIsWindowOfQuery | src/main/java/org/agoncal/application/petstore/persistence/PersistenceHandler.java:161-179 | A list read without both paging values returns the whole query result. With both values it returns the slice [offset, min(offset+max, n)). A negative value raises `IllegalArgumentException`. The session is unchanged. |
| HandlerProperties.WindowSize | src/main/java/org/agoncal/application/petstore/persistence/PersistenceHandler.java:161-164 | The page holds min(max, n - offset) rows, and none when the offset is past the end. |
| HandlerProperties.UpdateResultFollowsReturnType | src/main/java/org/agoncal/application/petstore/persistence/PersistenceHandler.java:167-176 | An update always executes. Then an int return gives the count, a void return gives null, and any other type raises `IllegalArgumentException` with the update already applied. |
| HandlerProperties.SingleReadOutcome | src/main/java/org/agoncal/application/petstore/persistence/PersistenceHandler.java:161-189 | A single-row read looks at the rows of its window (the whole result when not paged). With no row it raises no-result, or returns null under `@Optional`. With one row it returns that row; with more it raises `NonUniqueResultException`. The session is unchanged. |
| HandlerProperties.NoResultOnlyFromStrictSingleRead | src/main/java/org/agoncal/application/petstore/persistence/PersistenceHandler.java:181-189 | No-result escapes only from a non-optional, single-row read query. |
| PersistenceHandler.Merge | src/main/java/org/agoncal/application/petstore/persistence/PersistenceHandler.java:202-211 | A null payload is a validation error; otherwise the method returns the session's merged entity. The step equals `HandlerSpec.Merge`. |
| HandlerProperties.MergeReturnsManagedCopy | src/main/java/org/agoncal/application/petstore/persistence/PersistenceHandler.java:202-211 | merge returns a managed copy with the payload's fields. A stored entity overwrites exactly its own row; any other entity behaves as persist. |
| HandlerProperties.MergeIsIdempotent | src/main/java/org/agoncal/application/petstore/persistence/PersistenceHandler.java:202-211 | Merging the returned copy again returns it and changes nothing. |
| PersistenceHandler.Remove | src/main/java/org/agoncal/application/petstore/persistence/PersistenceHandler.java:224-234 | A null payload is a validation error; otherwise the method merges, removes the merged copy and returns null. The step equals `HandlerSpec.Remove`. |
| HandlerProperties.RemoveDeletesRow | src/main/java/org/agoncal/application/petstore/persistence/PersistenceHandler.java:224-234 | remove returns null. A stored entity's row is deleted and nothing else changes. On a well-formed session, a new entity is inserted and removed again, leaving the rows as they were. |
| HandlerProperties.ValidationLeavesSessionUnchanged | src/main/java/org/agoncal/application/petstore/persistence/PersistenceHandler.java:86-234 | A validation error never leaves a change in the session. |
| HandlerProperties.InvokePreservesValid | src/main/java/org/agoncal/application/petstore/persistence/PersistenceHandler.java:40-73 | Every invocation keeps each row under its own identifier, below the next generated one. |
| HandlerProperties.PersistThenFind | src/main/java/org/agoncal/application/petstore/persistence/PersistenceHandler.java:86-117 | Round trip: find with the identifier that persist generated returns the stored entity, with the payload's fields, when the finder returns the entity class. Any other return type raises `IllegalArgumentException`. Arguments after the first do not matter to either call. |
| HandlerProperties.UpdateOfEveryRowCountsAll | src/main/java/org/agoncal/application/petstore/persistence/PersistenceHandler.java:167-170 | An update that overwrites every row counts every row and keeps every row. |
| Store.Persist | src/main/java/org/agoncal/application/petstore/persistence/PersistenceHandler.java:93 | `em.persist`: an entity gets the next identifier and is stored under it, and nothing else changes. A non-entity is refused with the session unchanged. Well-formedness is kept. |
| Store.Merge | src/main/java/org/agoncal/application/petstore/persistence/PersistenceHandler.java:210 | `em.merge` of a stored entity (one whose identifier has a row) overwrites exactly its row and returns the entity, leaving the identifier generator alone. Any other entity is persisted as new. Either way the result is stored, with the payload's fields. A non-entity is refused with the session unchanged. Well-formedness is kept. |
| Store.Remove | src/main/java/org/agoncal/application/petstore/persistence/PersistenceHandler.java:231 | `em.remove` succeeds if and only if the entity is stored (its identifier has a row), and then deletes exactly its row. Well-formedness is kept. |
| Store.Find | src/main/java/org/agoncal/application/petstore/persistence/PersistenceHandler.java:110-116 | `em.find(entityClass, key)` succeeds if and only if the class is the entity class and the key is a number. It finds a row if and only if one is stored under the key, and that row is returned. |
| Store.Window | src/main/java/org/agoncal/application/petstore/persistence/PersistenceHandler.java:161-164 | `setFirstResult`/`setMaxResults`: the length of the window, and element i is row first+i. Without a window the rows are unchanged. |
| Store.SingleOf | src/main/java/org/agoncal/application/petstore/persistence/PersistenceHandler.java:178-179 | `getSingleResult`: no row if and only if the result is empty, found if and only if there is exactly one row (and it is that row), otherwise non-unique. |
| Store.Update | src/main/java/org/agoncal/application/petstore/persistence/PersistenceHandler.java:168 | `executeUpdate`: each row is kept, deleted or overwritten as the query decides. The count is the number of matched rows. Well-formedness is kept. |
| Session.EntityManager.Persist | src/main/java/org/agoncal/application/petstore/persistence/PersistenceHandler.java:93 | Result and new state equal `Store.Persist` of the old state. |
| Session.EntityManager.Merge | src/main/java/org/agoncal/application/petstore/persistence/PersistenceHandler.java:210 | Result and new state equal `Store.Merge` of the old state. |
| Session.EntityManager.Remove | src/main/java/org/agoncal/application/petstore/persistence/PersistenceHandler.java:231 | Result and new state equal `Store.Remove` of the old state. |
| Session.EntityManager.Find | src/main/java/org/agoncal/application/petstore/persistence/PersistenceHandler.java:116 | The result equals `Store.Find` of the state for the given entity class and key. |
| Session.EntityManager.CreateNamedQuery | src/main/java/org/agoncal/application/petstore/persistence/PersistenceHandler.java:135 | A fresh query on this session, with nothing bound and no window. |
| Session.Query.SetParameter | src/main/java/org/agoncal/application/petstore/persistence/PersistenceHandler.java:147 | Binds the name to the value and changes nothing else. |
| Session.Query.SetFirstResult | src/main/java/org/agoncal/application/petstore/persistence/PersistenceHandler.java:162 | Succeeds if and only if the position is non-negative, and then sets it. |
| Session.Query.SetMaxResults | src/main/java/org/agoncal/application/petstore/persistence/PersistenceHandler.java:163 | Succeeds if and only if the limit is non-negative, and then sets it. |
| Session.Query.GetResultList | src/main/java/org/agoncal/application/petstore/persistence/PersistenceHandler.java:178 | The query's rows cut to the window. |
| Session.Query.GetSingleResult | src/main/java/org/agoncal/application/petstore/persistence/PersistenceHandler.java:178-179 | `SingleOf` of the windowed rows. |
| Session.Query.ExecuteUpdate | src/main/java/org/agoncal/application/petstore/persistence/PersistenceHandler.java:168 | New session state and count equal `Store.Update` of the old state. |
| BookCrud.DummyHasNoHandler | src/test/java/org/agoncal/application/petstore/persistence/BookCrud.java:54 | `dummy()` raises `AbstractMethodError` naming the method, with the session unchanged. |
| BookCrud.NullArgumentsAreRejected | src/test/java/org/agoncal/application/petstore/persistence/PersistenceHandlerTest.java:262-296 | create(null), find(null), update(null) and findBooksByTitle(null, 0, 50) give the exact validation messages. |
| BookCrud.FinderPages | src/test/java/org/agoncal/application/petstore/persistence/PersistenceHandlerTest.java:117-133 | Of ten books, findAll(0, 5) returns the first five and findAll(0, 10) all ten. |
| BookCrud.PartialPaginationIsIgnored | src/test/java/org/agoncal/application/petstore/persistence/BookCrud.java:30-32 | findAll(null, 5) returns the whole query result. |
| BookCrud.BadUpdateFailsAfterUpdating | src/test/java/org/agoncal/application/petstore/persistence/PersistenceHandlerTest.java:298-316 | badUpdate raises `IllegalArgumentException` after the update has been applied. |
| BookCrud.UpdaterSetsEveryYear | src/test/java/org/agoncal/application/petstore/persistence/PersistenceHandlerTest.java:135-152 | setYearOnAllBooks(2014) returns null and leaves every book with year 2014 and its other fields. |
| BookCrud.DeleteAllThenCreate | src/test/java/org/agoncal/application/petstore/persistence/BookCrud.java:56-61 | deleteAll returns the number of stored rows. A create after it leaves exactly the new book. |
| BookCrud.NonOptionalFinder | src/test/java/org/agoncal/application/petstore/persistence/PersistenceHandlerTest.java:224-249 | findById on a missing id raises no-result, and optionalFindById returns null. |
| BookCrud.FindByPrimaryKeyAfterCreate | src/test/java/org/agoncal/application/petstore/persistence/PersistenceHandlerTest.java:207-222 | find with the created book's identifier returns the created book. |
| ExceptionUtils.FirstCause | src/main/java/org/agoncal/application/petstore/util/ExceptionUtils.java:23-27 | `getCausedByException` for an EJBException, `getCause` otherwise. |
| ExceptionUtils.RootCause | src/main/java/org/agoncal/application/petstore/util/ExceptionUtils.java:20-36 | Reference definition of the root cause: null without a first cause, else the last throwable on the getCause chain from the first cause. |
| ExceptionUtils.IsApplicationException | src/main/java/org/agoncal/application/petstore/util/ExceptionUtils.java:38-44 | True exactly for a non-null ValidationException; false for null. |
| ExceptionUtils.CauseChain | src/main/java/org/agoncal/application/petstore/util/ExceptionUtils.java:31-33 | The getCause chain starts at the throwable, links each element to its cause, and ends at one without a cause. |
| ExceptionUtils.GetRootCause | src/main/java/org/agoncal/application/petstore/util/ExceptionUtils.java:20-36 | The loop returns `RootCause`: the first cause (getCausedByException for an EJBException), followed along getCause to its end. |
| ExceptionUtils.ChainIsNoHigher | src/main/java/org/agoncal/application/petstore/util/ExceptionUtils.java:31-33 | No throwable on a cause chain is higher than where the chain starts. `RootCauseProperties` uses this to prove that the root cause is never the argument. |
| ExceptionUtils.RootCauseProperties | src/main/java/org/agoncal/application/petstore/util/ExceptionUtils.java:20-36 | null is returned if and only if the first cause is null. Otherwise the result has no cause, lies on the first cause's chain, is never the argument, and is the first cause when that one has no cause. |
| ExceptionUtils.LaterHopsUseGetCause | src/main/java/org/agoncal/application/petstore/util/ExceptionUtils.java:29-34 | Example: the root cause of an EJBException wrapping an EJBException that was itself constructed with another exception. After the first hop, the inner getCausedByException is not followed; its getCause is. |
| ExceptionUtils.ApplicationExceptionAfterUnwrapping | src/main/java/org/agoncal/application/petstore/util/ExceptionUtils.java:38-44 | An EJBException wrapping a ValidationException is not an application exception, but its root cause is. A null root cause, which is what a throwable without a first cause has, is not an application exception. |

## Left out

- Reflection, annotations and the dynamic proxy: these are replaced by the `Operation`
  descriptor. A parameter carries one role, so a parameter annotated both `@QueryParam` and
  `@Offset` is not modelled.
- The message of `AbstractMethodError`: it carries the operation's name rather than
  `Method.toString()` (the full signature).
- `Reflection.params(...).iterator().next()` on an operation without parameters
  (`NoSuchElementException`), and `args[0]` on a `@Find` without arguments: callers must pass
  at least one argument, as the `Conforms` precondition says.
- The cast `(Integer) parameter.getValue()`: in Java it cannot fail, because the parameter is
  declared Integer or int. A non-number value is read as null (`HandlerSpec.AsInt`).
- Object identity: persist returns the payload value with its generated identifier rather
  than the same mutated reference. Merge returns a copy.
- The meaning of JPQL: named queries are uninterpreted functions of the name, the bindings
  and the rows (`Catalogue`). An unknown query name and a parameter a query does not declare
  raise nothing in the model.
- Paging of update queries: `executeUpdate` ignores the window, but a negative offset or
  limit still raises first, as `setFirstResult`/`setMaxResults` do.
- Other session failures: `EntityExistsException`, transaction-required errors, optimistic
  locking, flush and rollback are not modelled. The modelled failures are a non-entity payload, a non-entity class or non-numeric key for find, and a
  non-entity passed to merge. Remove only ever receives the copy that merge has just made
  managed, so its detached-entity failure cannot occur.
- The EJB container: transactions, wrapping of exceptions in `EJBException`, and subclasses
  of `EJBException` and `ValidationException` are not distinguished by the model.
- Cycles in a cause chain: a Java throwable's cause chain is finite and acyclic here, because
  `Throwable` is an inductive datatype.
- PersistenceHandler.FindByPrimaryKey: the session knows one entity class (`EntityClass`, the
  Book of the tests). A finder for any other class raises `IllegalArgumentException` rather
  than reading a table of its own.
- ExceptionUtils.GetRootCause: it takes a non-null throwable. `getRootCause(null)` raises
  `NullPointerException` at ExceptionUtils.java:26, and that path is not modelled.
- The persistence context: the session does not track which instances are attached.
  `Store.Stored` (the entity's identifier has a row) stands in for JPA's "managed", so an
  entity held from an earlier call can still be merged in place or removed.
