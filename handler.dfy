/**
 * The request handlers: each endpoint parses its body, calls its store, and turns the
 * store's outcome into a status code and a JSON body. The parse outcome, the path
 * parameters, the generated id and the driver outcomes of the store calls are inputs.
 */
module Handler {
  import opened Model
  import opened Sql
  import opened Text
  import opened Store

  const StatusOK := 200
  const StatusCreated := 201
  const StatusBadRequest := 400
  const StatusNotFound := 404
  const StatusInternalServerError := 500

  /** A JSON response body. */
  datatype Json =
    | Message(key: string, text: string)       // {"<key>": "<text>"}
    | IdMessage(id: string, message: string)   // {"id": ..., "message": ...}
    | AuthorList(authors: seq<Author>)
    | BookList(books: seq<Book>)
    | MemberList(members: seq<Member>)
    | TitleList(titles: seq<string>)

  datatype Response = Response(status: int, body: Json)

  /** The outcome of `c.BodyParser(&v)`. */
  datatype Parsed<+T> = Parsed(value: T) | ParseErr

  const ServerError := Response(StatusInternalServerError, Message("error", "server error"))

  /** The text the driver puts in the error of a statement that a foreign key refuses. */
  const ForeignKeyViolation := "violates foreign key constraint"

  predicate IsForeignKeyViolation(e: Error)
  {
    Contains(e.text, ForeignKeyViolation)
  }

  // ---------------------------------------------------------------------------
  // Response decisions

  /**
   * The shape of every list endpoint: 500 with the server error exactly when the store
   * fails, 404 with `none` exactly when it returns no rows, 200 with the rows otherwise.
   */
  function ListResponse<E>(r: Fetched<E>, none: Json, payload: seq<E> -> Json): (resp: Response)
    ensures resp.status == StatusInternalServerError <==> r.FetchErr?
    ensures r.FetchErr? ==> resp == ServerError
    ensures resp.status == StatusNotFound <==> r == Fetched([])
    ensures r == Fetched([]) ==> resp.body == none
    ensures resp.status == StatusOK <==> r.Fetched? && r.items != []
    ensures resp.status == StatusOK ==> resp.body == payload(r.items)
  {
    match r
    case FetchErr(_) => ServerError
    case Fetched(items) => if items == [] then Response(StatusNotFound, none) else Response(StatusOK, payload(items))
  }

  /**
   * The shape of the Delete endpoints guarded by foreign keys: 200 with `deleted` exactly
   * on success, 400 with `refused` exactly when the error is a foreign-key violation,
   * the server error on any other error.
   */
  function GuardedDeleteResponse(err: Option<Error>, refused: string, deleted: string): (resp: Response)
    ensures resp.status == StatusOK <==> err.None?
    ensures err.None? ==> resp.body == Message("message", deleted)
    ensures resp.status == StatusBadRequest <==> err.Some? && IsForeignKeyViolation(err.value)
    ensures resp.status == StatusBadRequest ==> resp.body == Message("message", refused)
    ensures err.Some? && !IsForeignKeyViolation(err.value) ==> resp == ServerError
  {
    match err
    case None => Response(StatusOK, Message("message", deleted))
    case Some(e) =>
      if IsForeignKeyViolation(e) then Response(StatusBadRequest, Message("message", refused)) else ServerError
  }

  /** GET /authors. */
  function AuthorsResponse(r: Fetched<Author>): (resp: Response)
    ensures r == Fetched([]) ==> resp == Response(StatusNotFound, Message("message", "authors not found"))
    ensures r.Fetched? && r.items != [] ==> resp == Response(StatusOK, AuthorList(r.items))
  {
    ListResponse(r, Message("message", "authors not found"), xs => AuthorList(xs))
  }

  /** GET /author/:id/books: its 404 carries the key "error". */
  function AuthorBooksResponse(r: Fetched<string>): (resp: Response)
    ensures r == Fetched([]) ==> resp == Response(StatusNotFound, Message("error", "book not found"))
    ensures r.Fetched? && r.items != [] ==> resp == Response(StatusOK, TitleList(r.items))
  {
    ListResponse(r, Message("error", "book not found"), xs => TitleList(xs))
  }

  /** GET /books. */
  function BooksResponse(r: Fetched<Book>): (resp: Response)
    ensures r == Fetched([]) ==> resp == Response(StatusNotFound, Message("message", "no books found"))
    ensures r.Fetched? && r.items != [] ==> resp == Response(StatusOK, BookList(r.items))
  {
    ListResponse(r, Message("message", "no books found"), xs => BookList(xs))
  }

  /** GET /members. */
  function MembersResponse(r: Fetched<Member>): (resp: Response)
    ensures r == Fetched([]) ==> resp == Response(StatusNotFound, Message("message", "no members found"))
    ensures r.Fetched? && r.items != [] ==> resp == Response(StatusOK, MemberList(r.items))
  {
    ListResponse(r, Message("message", "no members found"), xs => MemberList(xs))
  }

  /** GET /member/:id/borrowed. */
  function BorrowedBooksResponse(r: Fetched<Book>): (resp: Response)
    ensures r == Fetched([]) ==> resp == Response(StatusNotFound, Message("message", "no books found for this member"))
    ensures r.Fetched? && r.items != [] ==> resp == Response(StatusOK, BookList(r.items))
  {
    ListResponse(r, Message("message", "no books found for this member"), xs => BookList(xs))
  }

  /** DELETE /author/:id. */
  function AuthorDeleteResponse(err: Option<Error>): (resp: Response)
    ensures err.None? ==> resp == Response(StatusOK, Message("message", "author deleted"))
    ensures resp.status == StatusBadRequest ==>
      resp.body == Message("message", "author has related recordings and cannot be deleted")
  {
    GuardedDeleteResponse(err, "author has related recordings and cannot be deleted", "author deleted")
  }

  /** DELETE /book/:id. */
  function BookDeleteResponse(err: Option<Error>): (resp: Response)
    ensures err.None? ==> resp == Response(StatusOK, Message("message", "book deleted"))
    ensures resp.status == StatusBadRequest ==>
      resp.body == Message("message", "book has related recordings and cannot be deleted")
  {
    GuardedDeleteResponse(err, "book has related recordings and cannot be deleted", "book deleted")
  }

  /** DELETE /member/:id. */
  function MemberDeleteResponse(err: Option<Error>): (resp: Response)
    ensures err.None? ==> resp == Response(StatusOK, Message("message", "member deleted"))
    ensures resp.status == StatusBadRequest ==>
      resp.body == Message("message", "member still has books, all books must be returned")
  {
    GuardedDeleteResponse(err, "member still has books, all books must be returned", "member deleted")
  }

  /** DELETE /member/:id/borrowed/:book_id: every store error is a server error. */
  function LoanDeleteResponse(err: Option<Error>): (resp: Response)
    ensures resp.status == StatusOK <==> err.None?
    ensures err.None? ==> resp.body == Message("message", "borrowed book deleted")
    ensures err.Some? <==> resp == ServerError
  {
    if err.None? then Response(StatusOK, Message("message", "borrowed book deleted")) else ServerError
  }

  /**
   * A Delete guarded by foreign keys answers 400 exactly when the marker text occurs
   * somewhere in the error's text, at any position.
   */
  lemma ForeignKeyRefusal(e: Error)
    ensures AuthorDeleteResponse(Some(e)).status == StatusBadRequest
      <==> exists i :: OccursAt(e.text, ForeignKeyViolation, i)
    ensures BookDeleteResponse(Some(e)).status == StatusBadRequest
      <==> exists i :: OccursAt(e.text, ForeignKeyViolation, i)
    ensures MemberDeleteResponse(Some(e)).status == StatusBadRequest
      <==> exists i :: OccursAt(e.text, ForeignKeyViolation, i)
  {
    ContainsIffOccurs(e.text, ForeignKeyViolation);
  }

  // ---------------------------------------------------------------------------
  // Cross-endpoint properties

  /**
   * After POST /author stored `body` under the fresh id, GET /authors on the database's
   * answer answers 200 and lists it, among one more author than before.
   */
  lemma CreatedAuthorIsListed(before: Tables, body: Author, freshId: string, ks: seq<string>, rows: seq<Row<Author>>)
    requires freshId !in before.authors
    requires SelectsAll(before.authors[freshId := body.(id := freshId)], ks, rows)
    ensures var resp := AuthorsResponse(Collect(Rows(rows), Identity));
      && resp.status == StatusOK
      && body.(id := freshId) in resp.body.authors
      && |resp.body.authors| == |before.authors| + 1
  {
    var table := before.authors[freshId := body.(id := freshId)];
    ListingYields(ks, table.Keys, rows, Identity);
    assert freshId in table.Keys;
    var i :| 0 <= i < |ks| && ks[i] == freshId;
    assert Collect(Rows(rows), Identity).items[i] == Identity(body.(id := freshId));
  }

  /**
   * After POST /book stored `body` under the fresh id, GET /books on the database's
   * answer lists it with an empty Author, among one more book than before.
   */
  lemma CreatedBookIsListed(before: Tables, body: Book, freshId: string, ks: seq<string>, rows: seq<Row<BookRow>>)
    requires freshId !in before.books
    requires SelectsAll(before.books[freshId := RowOf(body.(id := freshId))], ks, rows)
    ensures var resp := BooksResponse(Collect(Rows(rows), BookFromRow));
      && resp.status == StatusOK
      && body.(id := freshId, author := NoAuthor) in resp.body.books
      && |resp.body.books| == |before.books| + 1
  {
    var table := before.books[freshId := RowOf(body.(id := freshId))];
    ListingYields(ks, table.Keys, rows, BookFromRow);
    assert freshId in table.Keys;
    var i :| 0 <= i < |ks| && ks[i] == freshId;
    assert Collect(Rows(rows), BookFromRow).items[i] == BookFromRow(RowOf(body.(id := freshId)));
    assert BookFromRow(RowOf(body.(id := freshId))) == body.(id := freshId, author := NoAuthor);
  }

  /**
   * After POST /member stored `body` under the fresh id, GET /members on the database's
   * answer lists it, among one more member than before.
   */
  lemma CreatedMemberIsListed(before: Tables, body: Member, freshId: string, ks: seq<string>, rows: seq<Row<Member>>)
    requires freshId !in before.members
    requires SelectsAll(before.members[freshId := body.(id := freshId)], ks, rows)
    ensures var resp := MembersResponse(Collect(Rows(rows), Identity));
      && resp.status == StatusOK
      && body.(id := freshId) in resp.body.members
      && |resp.body.members| == |before.members| + 1
  {
    var table := before.members[freshId := body.(id := freshId)];
    ListingYields(ks, table.Keys, rows, Identity);
    assert freshId in table.Keys;
    var i :| 0 <= i < |ks| && ks[i] == freshId;
    assert Collect(Rows(rows), Identity).items[i] == Identity(body.(id := freshId));
  }

  /** GET /member/:id/borrowed for a member without loans answers 404 on the database's answer. */
  lemma NoLoansIsNotFound(t: Tables, memberId: string, ks: seq<string>, rows: seq<Row<LoanRow>>)
    requires forall l :: l in t.loans ==> l.memberId != memberId
    requires Enumerates(ks, LoanedBooks(t, memberId))
    requires |rows| == |ks| && forall i :: 0 <= i < |ks| ==> ks[i] in LoanedBooks(t, memberId) && rows[i] == Scanned(JoinRow(t, ks[i]))
    ensures BorrowedBooksResponse(Collect(Rows(rows), BookFromLoanRow))
      == Response(StatusNotFound, Message("message", "no books found for this member"))
  {
    assert LoanedBooks(t, memberId) == {};
    EnumerationSize(ks, LoanedBooks(t, memberId));
  }

  // ---------------------------------------------------------------------------
  // The handlers

  class AuthorHandler {
    const store: AuthorStore

    constructor (store: AuthorStore)
      ensures this.store == store
    {
      this.store := store;
    }

    /** POST /author: the body's id is replaced by the generated `freshId`. */
    method Create(body: Parsed<Author>, freshId: string, fault: Option<Error>) returns (resp: Response)
      requires Keyed(store.db.tables)
      requires freshId != "" && freshId !in store.db.tables.authors
      modifies store.db
      ensures Keyed(store.db.tables)
      ensures body.ParseErr? ==>
        resp == Response(StatusBadRequest, Message("error", "author creation failed")) && unchanged(store.db)
      ensures body.Parsed? ==>
        var author := body.value.(id := freshId);
        && store.db.executed == old(store.db.executed) + [InsertAuthor(author)]
        && (fault.None? ==>
              && resp == Response(StatusCreated, Message("message", "author created"))
              && store.db.tables == old(store.db.tables).(authors := old(store.db.tables).authors[freshId := author])
              && |store.db.tables.authors| == |old(store.db.tables).authors| + 1)
        && (fault.Some? ==>
              && resp == Response(StatusBadRequest, Message("error", "author creation failed"))
              && store.db.tables == old(store.db.tables))
    {
      if body.ParseErr? {
        return Response(StatusBadRequest, Message("error", "author creation failed"));
      }
      var author := body.value.(id := freshId);
      var err := store.Create(author, fault);
      if err.Some? {
        return Response(StatusBadRequest, Message("error", "author creation failed"));
      }
      return Response(StatusCreated, Message("message", "author created"));
    }

    /** GET /authors. */
    method Get(q: Query<Author>) returns (resp: Response)
      ensures resp == AuthorsResponse(Collect(q, Identity))
      ensures q.QueryErr? ==> resp == ServerError
    {
      var r := store.Get(q);
      resp := AuthorsResponse(r);
    }

    /** PATCH /author/:id: existence check on the path id, then the update. */
    method Update(body: Parsed<Author>, id: string, probe: Query<bool>, fault: Option<Error>)
      returns (resp: Response)
      requires Keyed(store.db.tables)
      modifies store.db
      ensures Keyed(store.db.tables)
      ensures body.ParseErr? ==>
        resp == Response(StatusBadRequest, Message("error", "author update failed")) && unchanged(store.db)
      ensures body.Parsed? && probe == ExistsAnswer(old(store.db.tables).authors, id) ==>
        && (resp.status == StatusNotFound <==> id !in old(store.db.tables).authors)
        && (id !in old(store.db.tables).authors ==> unchanged(store.db))
      ensures body.Parsed? && Probe(probe, AuthorMissing).Some? ==>
        resp == Response(StatusNotFound, Message("error", "author not found")) && unchanged(store.db)
      ensures body.Parsed? && Probe(probe, AuthorMissing).None? ==>
        && store.db.executed == old(store.db.executed) + [UpdateAuthor(id, body.value)]
        && (fault.None? ==>
              && resp == Response(StatusOK, Message("message", "author updated"))
              && store.db.tables == old(store.db.tables).(authors := AuthorsUpdated(old(store.db.tables).authors, id, body.value)))
        && (fault.Some? ==>
              && resp == Response(StatusBadRequest, Message("error", "author update failed"))
              && store.db.tables == old(store.db.tables))
    {
      if body.ParseErr? {
        return Response(StatusBadRequest, Message("error", "author update failed"));
      }
      ProbeReflectsTable(store.db.tables.authors, id, AuthorMissing);
      var err := store.Exists(id, probe);
      if err.Some? {
        return Response(StatusNotFound, Message("error", "author not found"));
      }
      err := store.Update(id, body.value, fault);
      if err.Some? {
        return Response(StatusBadRequest, Message("error", "author update failed"));
      }
      return Response(StatusOK, Message("message", "author updated"));
    }

    /** DELETE /author/:id. */
    method Delete(id: string, fault: Option<Error>) returns (resp: Response)
      requires Keyed(store.db.tables)
      modifies store.db
      ensures Keyed(store.db.tables)
      ensures resp == AuthorDeleteResponse(fault)
      ensures store.db.executed == old(store.db.executed) + [DeleteAuthor(id)]
      ensures store.db.tables == if fault.None?
        then old(store.db.tables).(authors := old(store.db.tables).authors - {id})
        else old(store.db.tables)
    {
      var err := store.Delete(id, fault);
      resp := AuthorDeleteResponse(err);
    }

    /** GET /author/:id/books. */
    method GetAuthorBooks(id: string, q: Query<string>) returns (resp: Response)
      ensures resp == AuthorBooksResponse(Collect(q, Identity))
      ensures q.QueryErr? ==> resp == ServerError
    {
      var r := store.GetAuthorsBooks(id, q);
      resp := AuthorBooksResponse(r);
    }
  }

  class BookHandler {
    const store: BookStore

    constructor (store: BookStore)
      ensures this.store == store
    {
      this.store := store;
    }

    /** POST /book: stored under the generated `freshId`, which the 201 body echoes. */
    method Create(body: Parsed<Book>, freshId: string, fault: Option<Error>) returns (resp: Response)
      requires Keyed(store.db.tables)
      requires freshId != "" && freshId !in store.db.tables.books
      modifies store.db
      ensures Keyed(store.db.tables)
      ensures body.ParseErr? ==>
        resp == Response(StatusBadRequest, Message("error", "book creation failed")) && unchanged(store.db)
      ensures body.Parsed? ==>
        var book := body.value.(id := freshId);
        && store.db.executed == old(store.db.executed) + [InsertBook(book)]
        && (fault.None? ==>
              && resp == Response(StatusCreated, IdMessage(freshId, "book created"))
              && store.db.tables == old(store.db.tables).(books := old(store.db.tables).books[freshId := RowOf(book)])
              && |store.db.tables.books| == |old(store.db.tables).books| + 1)
        && (fault.Some? ==>
              && resp == Response(StatusBadRequest, Message("error", "book creation failed"))
              && store.db.tables == old(store.db.tables))
    {
      if body.ParseErr? {
        return Response(StatusBadRequest, Message("error", "book creation failed"));
      }
      var book := body.value.(id := freshId);
      var err := store.Create(book, fault);
      if err.Some? {
        return Response(StatusBadRequest, Message("error", "book creation failed"));
      }
      return Response(StatusCreated, IdMessage(book.id, "book created"));
    }

    /** GET /books. */
    method Get(q: Query<BookRow>) returns (resp: Response)
      ensures resp == BooksResponse(Collect(q, BookFromRow))
      ensures q.QueryErr? ==> resp == ServerError
    {
      var r := store.Get(q);
      resp := BooksResponse(r);
    }

    /** PATCH /book/:id: existence check on the path id, then the update. */
    method Update(body: Parsed<Book>, id: string, probe: Query<bool>, fault: Option<Error>)
      returns (resp: Response)
      requires Keyed(store.db.tables)
      modifies store.db
      ensures Keyed(store.db.tables)
      ensures body.ParseErr? ==>
        resp == Response(StatusBadRequest, Message("error", "book update failed")) && unchanged(store.db)
      ensures body.Parsed? && probe == ExistsAnswer(old(store.db.tables).books, id) ==>
        && (resp.status == StatusNotFound <==> id !in old(store.db.tables).books)
        && (id !in old(store.db.tables).books ==> unchanged(store.db))
      ensures body.Parsed? && Probe(probe, BookMissing).Some? ==>
        resp == Response(StatusNotFound, Message("error", "book not found")) && unchanged(store.db)
      ensures body.Parsed? && Probe(probe, BookMissing).None? ==>
        && store.db.executed == old(store.db.executed) + [UpdateBook(id, body.value)]
        && (fault.None? ==>
              && resp == Response(StatusOK, Message("message", "book updated"))
              && store.db.tables == old(store.db.tables).(books := BooksUpdated(old(store.db.tables).books, id, body.value)))
        && (fault.Some? ==>
              && resp == Response(StatusBadRequest, Message("error", "book update failed"))
              && store.db.tables == old(store.db.tables))
    {
      if body.ParseErr? {
        return Response(StatusBadRequest, Message("error", "book update failed"));
      }
      ProbeReflectsTable(store.db.tables.books, id, BookMissing);
      var err := store.Exists(id, probe);
      if err.Some? {
        return Response(StatusNotFound, Message("error", "book not found"));
      }
      err := store.Update(id, body.value, fault);
      if err.Some? {
        return Response(StatusBadRequest, Message("error", "book update failed"));
      }
      return Response(StatusOK, Message("message", "book updated"));
    }

    /** DELETE /book/:id. */
    method Delete(id: string, fault: Option<Error>) returns (resp: Response)
      requires Keyed(store.db.tables)
      modifies store.db
      ensures Keyed(store.db.tables)
      ensures resp == BookDeleteResponse(fault)
      ensures store.db.executed == old(store.db.executed) + [DeleteBook(id)]
      ensures store.db.tables == if fault.None?
        then old(store.db.tables).(books := old(store.db.tables).books - {id})
        else old(store.db.tables)
    {
      var err := store.Delete(id, fault);
      resp := BookDeleteResponse(err);
    }
  }

  class MemberHandler {
    const store: MemberStore

    constructor (store: MemberStore)
      ensures this.store == store
    {
      this.store := store;
    }

    /** POST /member: stored under the generated `freshId`; the 201 body carries no id. */
    method Create(body: Parsed<Member>, freshId: string, fault: Option<Error>) returns (resp: Response)
      requires Keyed(store.db.tables)
      requires freshId != "" && freshId !in store.db.tables.members
      modifies store.db
      ensures Keyed(store.db.tables)
      ensures body.ParseErr? ==>
        resp == Response(StatusBadRequest, Message("error", "member creation failed")) && unchanged(store.db)
      ensures body.Parsed? ==>
        var member := body.value.(id := freshId);
        && store.db.executed == old(store.db.executed) + [InsertMember(member)]
        && (fault.None? ==>
              && resp == Response(StatusCreated, Message("message", "member created"))
              && store.db.tables == old(store.db.tables).(members := old(store.db.tables).members[freshId := member])
              && |store.db.tables.members| == |old(store.db.tables).members| + 1)
        && (fault.Some? ==>
              && resp == Response(StatusBadRequest, Message("error", "member creation failed"))
              && store.db.tables == old(store.db.tables))
    {
      if body.ParseErr? {
        return Response(StatusBadRequest, Message("error", "member creation failed"));
      }
      var member := body.value.(id := freshId);
      var err := store.Create(member, fault);
      if err.Some? {
        return Response(StatusBadRequest, Message("error", "member creation failed"));
      }
      return Response(StatusCreated, Message("message", "member created"));
    }

    /** GET /members. */
    method Get(q: Query<Member>) returns (resp: Response)
      ensures resp == MembersResponse(Collect(q, Identity))
      ensures q.QueryErr? ==> resp == ServerError
    {
      var r := store.Get(q);
      resp := MembersResponse(r);
    }

    /** PATCH /member/:id: its 404 carries the key "message", not "error". */
    method Update(body: Parsed<Member>, id: string, probe: Query<bool>, fault: Option<Error>)
      returns (resp: Response)
      requires Keyed(store.db.tables)
      modifies store.db
      ensures Keyed(store.db.tables)
      ensures body.ParseErr? ==>
        resp == Response(StatusBadRequest, Message("error", "member update failed")) && unchanged(store.db)
      ensures body.Parsed? && probe == ExistsAnswer(old(store.db.tables).members, id) ==>
        && (resp.status == StatusNotFound <==> id !in old(store.db.tables).members)
        && (id !in old(store.db.tables).members ==> unchanged(store.db))
      ensures body.Parsed? && Probe(probe, MemberMissing).Some? ==>
        resp == Response(StatusNotFound, Message("message", "member not found")) && unchanged(store.db)
      ensures body.Parsed? && Probe(probe, MemberMissing).None? ==>
        && store.db.executed == old(store.db.executed) + [UpdateMember(id, body.value)]
        && (fault.None? ==>
              && resp == Response(StatusOK, Message("message", "member updated"))
              && store.db.tables == old(store.db.tables).(members := MembersUpdated(old(store.db.tables).members, id, body.value)))
        && (fault.Some? ==>
              && resp == Response(StatusBadRequest, Message("error", "member update failed"))
              && store.db.tables == old(store.db.tables))
    {
      if body.ParseErr? {
        return Response(StatusBadRequest, Message("error", "member update failed"));
      }
      ProbeReflectsTable(store.db.tables.members, id, MemberMissing);
      var err := store.Exists(id, probe);
      if err.Some? {
        return Response(StatusNotFound, Message("message", "member not found"));
      }
      err := store.Update(id, body.value, fault);
      if err.Some? {
        return Response(StatusBadRequest, Message("error", "member update failed"));
      }
      return Response(StatusOK, Message("message", "member updated"));
    }

    /** DELETE /member/:id. */
    method Delete(id: string, fault: Option<Error>) returns (resp: Response)
      requires Keyed(store.db.tables)
      modifies store.db
      ensures Keyed(store.db.tables)
      ensures resp == MemberDeleteResponse(fault)
      ensures store.db.executed == old(store.db.executed) + [DeleteMember(id)]
      ensures store.db.tables == if fault.None?
        then old(store.db.tables).(members := old(store.db.tables).members - {id})
        else old(store.db.tables)
    {
      var err := store.Delete(id, fault);
      resp := MemberDeleteResponse(err);
    }
  }

  class BorrowedHandler {
    const store: BorrowedStore

    constructor (store: BorrowedStore)
      ensures this.store == store
    {
      this.store := store;
    }

    /** POST /member/borrowed: the parsed pair goes to the store as it is; no id is generated. */
    method Create(body: Parsed<Borrowed>, fault: Option<Error>) returns (resp: Response)
      requires Keyed(store.db.tables)
      modifies store.db
      ensures Keyed(store.db.tables)
      ensures body.ParseErr? ==>
        resp == Response(StatusBadRequest, Message("error", "borrowed book creation failed")) && unchanged(store.db)
      ensures body.Parsed? ==>
        && store.db.executed == old(store.db.executed) + [InsertLoan(body.value)]
        && (fault.None? ==>
              && resp == Response(StatusCreated, Message("message", "borrowed book created"))
              && store.db.tables == old(store.db.tables).(loans := old(store.db.tables).loans + {body.value}))
        && (fault.Some? ==>
              && resp == Response(StatusBadRequest, Message("error", "borrowed book creation failed"))
              && store.db.tables == old(store.db.tables))
    {
      if body.ParseErr? {
        return Response(StatusBadRequest, Message("error", "borrowed book creation failed"));
      }
      var err := store.Create(body.value, fault);
      if err.Some? {
        return Response(StatusBadRequest, Message("error", "borrowed book creation failed"));
      }
      return Response(StatusCreated, Message("message", "borrowed book created"));
    }

    /** GET /member/:id/borrowed. */
    method Get(id: string, q: Query<LoanRow>) returns (resp: Response)
      ensures resp == BorrowedBooksResponse(Collect(q, BookFromLoanRow))
      ensures q.QueryErr? ==> resp == ServerError
    {
      var r := store.Get(id, q);
      resp := BorrowedBooksResponse(r);
    }

    /** DELETE /member/:id/borrowed/:book_id. */
    method Delete(memberId: string, bookId: string, fault: Option<Error>) returns (resp: Response)
      requires Keyed(store.db.tables)
      modifies store.db
      ensures Keyed(store.db.tables)
      ensures resp == LoanDeleteResponse(fault)
      ensures store.db.executed == old(store.db.executed) + [DeleteLoan(memberId, bookId)]
      ensures store.db.tables == if fault.None?
        then old(store.db.tables).(loans := old(store.db.tables).loans - {Borrowed(memberId, bookId)})
        else old(store.db.tables)
    {
      var err := store.Delete(memberId, bookId, fault);
      resp := LoanDeleteResponse(err);
    }

    /** DELETE /member/:id/borrowed with a JSON array of book ids. */
    method DeleteList(body: Parsed<seq<string>>, id: string, fault: Option<Error>) returns (resp: Response)
      requires Keyed(store.db.tables)
      modifies store.db
      ensures Keyed(store.db.tables)
      ensures body.ParseErr? ==>
        resp == Response(StatusBadRequest, Message("error", "borrowed book delete failed")) && unchanged(store.db)
      ensures body.Parsed? ==>
        && store.db.executed == old(store.db.executed) + [DeleteLoans(id, body.value)]
        && (fault.None? ==>
              && resp == Response(StatusOK, Message("message", "borrowed books deleted"))
              && store.db.tables == old(store.db.tables).(loans := LoansReturned(old(store.db.tables).loans, id, body.value)))
        && (fault.Some? ==> resp == ServerError && store.db.tables == old(store.db.tables))
    {
      if body.ParseErr? {
        return Response(StatusBadRequest, Message("error", "borrowed book delete failed"));
      }
      var err := store.DeleteList(id, body.value, fault);
      if err.Some? {
        return ServerError;
      }
      return Response(StatusOK, Message("message", "borrowed books deleted"));
    }
  }
}
