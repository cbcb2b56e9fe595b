/**
 * The data-access interface of the repository's tests (BookCrud), written as descriptors, and
 * the scenarios its tests exercise, stated for every catalogue and session state that give
 * the named queries the behaviour the scenario needs.
 */
module BookCrud {
  import opened Wrappers
  import opened Store
  import opened JavaTypes
  import opened Operations
  import opened HandlerSpec
  import HandlerProperties

  const FindByTitleQuery := "FIND_BY_TITLE"
  const FindAllQuery := "FIND_ALL"
  const SetYearQuery := "UPDATE_BOOKS_SET_YEAR"
  const DeleteAllQuery := "DELETE_ALL"
  const FindByIdQuery := "FIND_BY_ID"

  const BookType := ClassNamed("Book")
  const LongType := ClassNamed("Long")

  function Annotated(name: string, returnType: JavaType, params: seq<ParamDecl>): Operation {
    Operation(name, None, false, false, false, false, false, returnType, params)
  }

  /** @Persist Book create(Book book) */
  const Create := Annotated("create", BookType, [ParamDecl(Plain, BookType)]).(persist := true)

  /** @Merge Book update(Book book) */
  const UpdateBook := Annotated("update", BookType, [ParamDecl(Plain, BookType)]).(merge := true)

  /** @NamedQuery(FIND_BY_TITLE) @Optional List<Book> findBooksByTitle(@QueryParam("title") String, @Offset Integer, @MaxResults Integer) */
  const FindBooksByTitle :=
    Annotated("findBooksByTitle", CollectionOf("List"),
      [ParamDecl(QueryParam("title"), ClassNamed("String")), ParamDecl(Offset, IntegerClass), ParamDecl(MaxResults, IntegerClass)])
    .(namedQuery := Some(QueryDecl(FindByTitleQuery, false)), optional := true)

  /** @NamedQuery(FIND_ALL) @Optional List<Book> findAll(@Offset Integer, @MaxResults Integer) */
  const FindAll :=
    Annotated("findAll", CollectionOf("List"), [ParamDecl(Offset, IntegerClass), ParamDecl(MaxResults, IntegerClass)])
    .(namedQuery := Some(QueryDecl(FindAllQuery, false)), optional := true)

  /** @NamedQuery(update = true, UPDATE_BOOKS_SET_YEAR) void setYearOnAllBooks(@QueryParam("year") Long) */
  const SetYearOnAllBooks :=
    Annotated("setYearOnAllBooks", VoidPrimitive, [ParamDecl(QueryParam("year"), LongType)])
    .(namedQuery := Some(QueryDecl(SetYearQuery, true)))

  /** @NamedQuery(update = true, UPDATE_BOOKS_SET_YEAR) String badUpdate(@QueryParam("year") Long) */
  const BadUpdate :=
    Annotated("badUpdate", ClassNamed("String"), [ParamDecl(QueryParam("year"), LongType)])
    .(namedQuery := Some(QueryDecl(SetYearQuery, true)))

  /** @NamedQuery(update = true, DELETE_ALL) int deleteAll() */
  const DeleteAll := Annotated("deleteAll", IntPrimitive, []).(namedQuery := Some(QueryDecl(DeleteAllQuery, true)))

  /** @Find Book find(Long id) */
  const Find := Annotated("find", BookType, [ParamDecl(Plain, LongType)]).(find := true)

  /** @NamedQuery(FIND_BY_ID) Book findById(@QueryParam("id") Long id) */
  const FindById :=
    Annotated("findById", BookType, [ParamDecl(QueryParam("id"), LongType)])
    .(namedQuery := Some(QueryDecl(FindByIdQuery, false)))

  /** @NamedQuery(FIND_BY_ID) @Optional Book optionalFindById(@QueryParam("id") Long id) */
  const OptionalFindById := FindById.(name := "optionalFindById", optional := true)

  /** List<Book> dummy(), with no annotation */
  const Dummy := Annotated("dummy", CollectionOf("List"), [])

  function Num(n: int): Option<Obj> {
    Some(Number(n))
  }

  /** The parameter loop over a single @QueryParam binds its one argument. */
  lemma BindOneQueryParam(name: string, declared: JavaType, v: Obj)
    ensures Bind([ParamDecl(QueryParam(name), declared)], [Some(v)]) == Ok(Extracted(map[name := v], None, None))
  {
    var x := Extracted(map[name := v], None, None);
    assert BindOne(ParamDecl(QueryParam(name), declared), Some(v), NothingExtracted) == Ok(x);
    assert BindFrom([ParamDecl(QueryParam(name), declared)], [Some(v)], 1, x) == Ok(x);
  }

  /** dummy() has no handler and raises AbstractMethodError. */
  lemma DummyHasNoHandler(cat: Catalogue, db: Db)
    ensures Invoke(Dummy, [], cat, db) == Step(AbstractMethod("No handler logic for method: dummy"), db)
  {
    assert Classify(Dummy) == NoHandler;
    assert "No handler logic for method: " + Dummy.name == "No handler logic for method: dummy";
  }

  /** create(null), find(null), update(null) and findBooksByTitle(null, 0, 50) are validation errors. */
  lemma NullArgumentsAreRejected(cat: Catalogue, db: Db)
    ensures Invoke(Create, [None], cat, db) == Step(ValidationError("Book object is null"), db)
    ensures Invoke(Find, [None], cat, db) == Step(ValidationError("Invalid id"), db)
    ensures Invoke(UpdateBook, [None], cat, db) == Step(ValidationError("Book object is null"), db)
    ensures Invoke(FindBooksByTitle, [None, Num(0), Num(50)], cat, db) == Step(ValidationError("title is null"), db)
  {
    assert NullPayload(Create) == "Book object is null";
    assert NullPayload(UpdateBook) == "Book object is null";
    assert Bind(FindBooksByTitle.params, [None, Num(0), Num(50)]) == Err("title is null");
  }

  /** Of ten stored books, findAll(0, 5) gives the first five and findAll(0, 10) all ten. */
  lemma FinderPages(cat: Catalogue, db: Db)
    requires |cat.select(FindAllQuery, map[], db.rows)| == 10
    ensures var all := cat.select(FindAllQuery, map[], db.rows);
      Invoke(FindAll, [Num(0), Num(5)], cat, db) == Step(Value(Rows(all[..5])), db) &&
      Invoke(FindAll, [Num(0), Num(10)], cat, db) == Step(Value(Rows(all)), db)
  {
    var all := cat.select(FindAllQuery, map[], db.rows);
    assert Bind(FindAll.params, [Num(0), Num(5)]) == Ok(Extracted(map[], Some(0), Some(5)));
    assert Bind(FindAll.params, [Num(0), Num(10)]) == Ok(Extracted(map[], Some(0), Some(10)));
    assert all[0..10] == all;
  }

  /** findAll(null, 5) pages nothing: the whole query result is returned. */
  lemma PartialPaginationIsIgnored(cat: Catalogue, db: Db)
    ensures Invoke(FindAll, [None, Num(5)], cat, db) == Step(Value(Rows(cat.select(FindAllQuery, map[], db.rows))), db)
  {
    assert Bind(FindAll.params, [None, Num(5)]) == Ok(Extracted(map[], None, Some(5)));
  }

  /** badUpdate(2014) runs the update, then raises IllegalArgumentException for its String return. */
  lemma BadUpdateFailsAfterUpdating(cat: Catalogue, db: Db)
    ensures Invoke(BadUpdate, [Num(2014)], cat, db) ==
      Step(IllegalArgument("Update methods must have a void or int return type"),
           Update(cat, SetYearQuery, map["year" := Number(2014)], db).0)
  {
    BindOneQueryParam("year", LongType, Number(2014));
  }

  /** setYearOnAllBooks(2014), with a query that sets the year of every row, leaves every book with year 2014. */
  lemma UpdaterSetsEveryYear(cat: Catalogue, db: Db)
    requires forall row :: cat.update(SetYearQuery, map["year" := Number(2014)], row) == Assign(row.(year := 2014))
    ensures var s := Invoke(SetYearOnAllBooks, [Num(2014)], cat, db);
      s.outcome == Null && s.db.rows.Keys == db.rows.Keys &&
      forall k :: k in s.db.rows ==> s.db.rows[k].year == 2014 && SameFields(s.db.rows[k].(year := db.rows[k].year), db.rows[k])
  {
    var b := map["year" := Number(2014)];
    BindOneQueryParam("year", LongType, Number(2014));
    HandlerProperties.UpdateOfEveryRowCountsAll(cat, SetYearQuery, b, db);
  }

  /** deleteAll() reports every row as deleted; a create after it leaves exactly the new book. */
  lemma DeleteAllThenCreate(cat: Catalogue, db: Db, book: Entity)
    requires forall row :: cat.update(DeleteAllQuery, map[], row) == Delete
    ensures var deleted := Invoke(DeleteAll, [], cat, db);
      var created := Invoke(Create, [Some(Record(book))], cat, deleted.db);
      deleted.outcome == Value(Number(|db.rows|)) &&
      created.db.rows == map[db.nextId := book.(id := Some(db.nextId))]
  {
    var deleted := Invoke(DeleteAll, [], cat, db);
    assert Bind(DeleteAll.params, []) == Ok(NothingExtracted);
    assert Matched(cat, DeleteAllQuery, map[], db) == db.rows.Keys;
    assert deleted.db.rows == map[];
  }

  /** findById(99999) with no such row raises no-result; optionalFindById(99999) returns null. */
  lemma NonOptionalFinder(cat: Catalogue, db: Db)
    requires cat.select(FindByIdQuery, map["id" := Number(99999)], db.rows) == []
    ensures Invoke(FindById, [Num(99999)], cat, db) == Step(NoResult, db)
    ensures Invoke(OptionalFindById, [Num(99999)], cat, db) == Step(Null, db)
  {
    BindOneQueryParam("id", LongType, Number(99999));
  }

  /** find(create(book).id) returns a book with the created book's identifier and fields. */
  lemma FindByPrimaryKeyAfterCreate(cat: Catalogue, db: Db, book: Entity)
    ensures var created := Invoke(Create, [Some(Record(book))], cat, db);
      created.outcome.Value? && created.outcome.v.Record? && created.outcome.v.entity.id.Some? &&
      Invoke(Find, [Num(created.outcome.v.entity.id.value)], cat, created.db) == Step(created.outcome, created.db)
  {
    HandlerProperties.PersistThenFind(Create, Find, book, [], [], cat, db);
    assert [Some(Record(book))] + [] == [Some(Record(book))];
    var created := Invoke(Create, [Some(Record(book))], cat, db);
    assert [Num(created.outcome.v.entity.id.value)] + [] == [Num(created.outcome.v.entity.id.value)];
  }
}
