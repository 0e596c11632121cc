/**
 * The data access layer: one store per table. Each mutating operation issues one
 * statement through Exec, whose outcome (`fault`) is supplied by the driver; each
 * read operation folds the rows of one query into entities.
 */
module Store {
  import opened Model
  import opened Sql

  /** What a read operation returns: the entities, in row order, or `(nil, err)`. */
  datatype Fetched<+E> = Fetched(items: seq<E>) | FetchErr(err: Error)

  /** The identity, for rows that scan straight into the entity. */
  function Identity<T>(x: T): T { x }

  // ---------------------------------------------------------------------------
  // The row-folding loop shared by every read operation

  /** `xs` in front of the entities of `r`; an error stays an error. */
  function Prepend<E>(xs: seq<E>, r: Fetched<E>): Fetched<E>
  {
    match r
    case Fetched(ys) => Fetched(xs + ys)
    case FetchErr(e) => FetchErr(e)
  }

  /** One entity per row, in order; the first scan error discards everything. */
  function CollectRows<C, E>(rows: seq<Row<C>>, build: C -> E): Fetched<E>
  {
    if rows == [] then Fetched([])
    else
      match rows[0]
      case ScanErr(e) => FetchErr(e)
      case Scanned(c) => Prepend([build(c)], CollectRows(rows[1..], build))
  }

  /** The result of a read operation on the outcome `q` of its query. */
  function Collect<C, E>(q: Query<C>, build: C -> E): Fetched<E>
  {
    match q
    case QueryErr(e) => FetchErr(e)
    case Rows(rows) => CollectRows(rows, build)
  }

  /** The `for rows.Next() { rows.Scan(...); append }` loop with its early exits. */
  method ScanAll<C, E>(q: Query<C>, build: C -> E) returns (r: Fetched<E>)
    ensures r == Collect(q, build)
  {
    if q.QueryErr? {
      return FetchErr(q.err);
    }
    var rows := q.rows;
    var acc: seq<E> := [];
    var i := 0;
    while i < |rows|
      invariant 0 <= i <= |rows|
      invariant CollectRows(rows, build) == Prepend(acc, CollectRows(rows[i..], build))
    {
      assert rows[i..][1..] == rows[i + 1..];
      match rows[i]
      case ScanErr(e) =>
        return FetchErr(e);
      case Scanned(c) =>
        var rest := CollectRows(rows[i + 1..], build);
        assert Prepend(acc, Prepend([build(c)], rest)) == Prepend(acc + [build(c)], rest) by {
          if rest.Fetched? {
            assert acc + ([build(c)] + rest.items) == (acc + [build(c)]) + rest.items;
          }
        }
        acc := acc + [build(c)];
      i := i + 1;
    }
    r := Fetched(acc);
  }

  /** When every row scans, the result holds one entity per row, built from that row. */
  lemma {:induction false} CollectAllScanned<C, E>(rows: seq<Row<C>>, build: C -> E)
    requires forall k :: 0 <= k < |rows| ==> rows[k].Scanned?
    ensures CollectRows(rows, build).Fetched?
    ensures |CollectRows(rows, build).items| == |rows|
    ensures forall k :: 0 <= k < |rows| ==> CollectRows(rows, build).items[k] == build(rows[k].cols)
  {
    if rows != [] {
      CollectAllScanned(rows[1..], build);
    }
  }

  /** The first scan error is the result, whatever came before or after it. */
  lemma {:induction false} CollectStopsAtScanError<C, E>(rows: seq<Row<C>>, build: C -> E, j: nat)
    requires j < |rows| && rows[j].ScanErr?
    requires forall k :: 0 <= k < j ==> rows[k].Scanned?
    ensures CollectRows(rows, build) == FetchErr(rows[j].err)
  {
    if j > 0 {
      CollectStopsAtScanError(rows[1..], build, j - 1);
    }
  }

  /** The rows yield entities exactly when every row scans. */
  lemma {:induction false} CollectSucceedsIffAllScanned<C, E>(rows: seq<Row<C>>, build: C -> E)
    ensures CollectRows(rows, build).Fetched? <==> forall k :: 0 <= k < |rows| ==> rows[k].Scanned?
  {
    if rows != [] {
      CollectSucceedsIffAllScanned(rows[1..], build);
      if rows[0].Scanned? {
        forall k | 0 < k < |rows| ensures rows[k] == rows[1..][k - 1] { }
      }
    }
  }

  /**
   * A query that selects the rows with the keys `keys`, returned in the order `ks`,
   * yields one entity per selected row: as many entities as keys, the i-th built from
   * the i-th row.
   */
  lemma ListingYields<C, E>(ks: seq<string>, keys: set<string>, rows: seq<Row<C>>, build: C -> E)
    requires Enumerates(ks, keys)
    requires |rows| == |ks| && forall i :: 0 <= i < |rows| ==> rows[i].Scanned?
    ensures Collect(Rows(rows), build).Fetched?
    ensures var items := Collect(Rows(rows), build).items;
      && |items| == |rows| == |keys|
      && (forall i :: 0 <= i < |items| ==> items[i] == build(rows[i].cols))
  {
    CollectAllScanned(rows, build);
    EnumerationSize(ks, keys);
  }

  // ---------------------------------------------------------------------------
  // The existence probe shared by the three Exists operations

  /** The loop over the EXISTS rows: a `false` row or a scan error stops it. */
  function ProbeRows(rows: seq<Row<bool>>, missing: Error): Option<Error>
  {
    if rows == [] then None
    else
      match rows[0]
      case ScanErr(e) => Some(e)
      case Scanned(present) => if !present then Some(missing) else ProbeRows(rows[1..], missing)
  }

  /** The result of an Exists operation on the outcome `q` of its query. */
  function Probe(q: Query<bool>, missing: Error): Option<Error>
  {
    match q
    case QueryErr(e) => Some(e)
    case Rows(rows) => ProbeRows(rows, missing)
  }

  /** `for rows.Next() { rows.Scan(&exists); if !exists { return missing } }; return nil`. */
  method CheckExists(q: Query<bool>, missing: Error) returns (err: Option<Error>)
    ensures err == Probe(q, missing)
  {
    if q.QueryErr? {
      return Some(q.err);
    }
    var rows := q.rows;
    var i := 0;
    while i < |rows|
      invariant 0 <= i <= |rows|
      invariant ProbeRows(rows, missing) == ProbeRows(rows[i..], missing)
    {
      assert rows[i..][1..] == rows[i + 1..];
      match rows[i]
      case ScanErr(e) =>
        return Some(e);
      case Scanned(present) =>
        if !present {
          return Some(missing);
        }
      i := i + 1;
    }
    return None;
  }

  /** The probe succeeds exactly when every row says `true`; in particular on no rows at all. */
  lemma {:induction false} ProbeSucceedsIffAllTrue(rows: seq<Row<bool>>, missing: Error)
    ensures ProbeRows(rows, missing).None? <==> forall k :: 0 <= k < |rows| ==> rows[k] == Scanned(true)
  {
    if rows != [] {
      ProbeSucceedsIffAllTrue(rows[1..], missing);
      if rows[0] == Scanned(true) {
        forall k | 0 < k < |rows| ensures rows[k] == rows[1..][k - 1] { }
      }
    }
  }

  /** The first row that is not `true` decides the error: its scan error, or `missing`. */
  lemma {:induction false} ProbeStopsAtFirstFailure(rows: seq<Row<bool>>, missing: Error, j: nat)
    requires j < |rows| && rows[j] != Scanned(true)
    requires forall k :: 0 <= k < j ==> rows[k] == Scanned(true)
    ensures ProbeRows(rows, missing) == if rows[j].ScanErr? then Some(rows[j].err) else Some(missing)
  {
    if j > 0 {
      ProbeStopsAtFirstFailure(rows[1..], missing, j - 1);
    }
  }

  /** On the database's own answer, the probe fails with `missing` exactly when the id is not a key. */
  lemma ProbeReflectsTable<V>(table: map<string, V>, id: string, missing: Error)
    ensures Probe(ExistsAnswer(table, id), missing) == if id in table then None else Some(missing)
  {
    var rows := [Scanned(id in table)];
    assert ExistsAnswer(table, id) == Rows(rows);
    assert rows[1..] == [];
    assert ProbeRows(rows[1..], missing) == None;
  }

  // ---------------------------------------------------------------------------
  // Effects of the UPDATE and DELETE statements on the tables

  /** `UPDATE authors SET full_name, nick_name, specialization WHERE ID = id`. */
  function AuthorsUpdated(table: map<string, Author>, id: string, a: Author): (r: map<string, Author>)
    ensures r.Keys == table.Keys
    ensures forall k :: k in table && k != id ==> r[k] == table[k]
    ensures id in table ==>
      && r[id].id == table[id].id
      && r[id].fullName == a.fullName
      && r[id].nickName == a.nickName
      && r[id].specialization == a.specialization
  {
    if id in table then
      table[id := table[id].(fullName := a.fullName, nickName := a.nickName, specialization := a.specialization)]
    else table
  }

  /** `UPDATE books SET authors_id, title, genre, isbn WHERE id = id`. */
  function BooksUpdated(table: map<string, BookRow>, id: string, b: Book): (r: map<string, BookRow>)
    ensures r.Keys == table.Keys
    ensures forall k :: k in table && k != id ==> r[k] == table[k]
    ensures id in table ==> r[id] == BookRow(table[id].id, b.authorsId, b.title, b.genre, b.isbn)
  {
    if id in table then
      table[id := table[id].(authorsId := b.authorsId, title := b.title, genre := b.genre, isbn := b.isbn)]
    else table
  }

  /** `UPDATE members SET full_name WHERE id = id`. */
  function MembersUpdated(table: map<string, Member>, id: string, m: Member): (r: map<string, Member>)
    ensures r.Keys == table.Keys
    ensures forall k :: k in table && k != id ==> r[k] == table[k]
    ensures id in table ==> r[id] == Member(table[id].id, m.fullName)
  {
    if id in table then table[id := table[id].(fullName := m.fullName)] else table
  }

  /** `DELETE FROM borrowed_books WHERE member_id = id AND book_id = ANY(bookIds)`. */
  function LoansReturned(loans: set<Borrowed>, memberId: string, bookIds: seq<string>): (r: set<Borrowed>)
    ensures r <= loans
    ensures r == loans - (set b | b in bookIds :: Borrowed(memberId, b))
  {
    set l | l in loans && !(l.memberId == memberId && l.bookId in bookIds)
  }

  /**
   * Returning a list of one book is the single DELETE of that loan, returning an empty
   * list changes nothing, and returning two lists in turn is returning both at once.
   */
  lemma LoansReturnedAgreesWithDelete(loans: set<Borrowed>, memberId: string, bookId: string, xs: seq<string>, ys: seq<string>)
    ensures LoansReturned(loans, memberId, [bookId]) == loans - {Borrowed(memberId, bookId)}
    ensures LoansReturned(loans, memberId, []) == loans
    ensures LoansReturned(LoansReturned(loans, memberId, xs), memberId, ys) == LoansReturned(loans, memberId, xs + ys)
  {
  }

  // ---------------------------------------------------------------------------
  // Row shapes of the books queries

  /** The five columns the books table stores for a book; its embedded Author is not stored. */
  function RowOf(b: Book): BookRow
  {
    BookRow(b.id, b.authorsId, b.title, b.genre, b.isbn)
  }

  /** A book scanned from `SELECT * FROM books`: the row's columns and an empty Author. */
  function BookFromRow(r: BookRow): (b: Book)
    ensures b.author == NoAuthor
    ensures RowOf(b) == r
  {
    Book(r.id, r.authorsId, r.title, r.genre, r.isbn, NoAuthor)
  }

  /** The columns of the borrowed-books join: title, authors.full_name, genre, isbn. */
  datatype LoanRow = LoanRow(title: string, authorFullName: Option<string>, genre: string, isbn: string)

  /** A book scanned from the borrowed-books join: no id, no authors_id, an Author with only full_name. */
  function BookFromLoanRow(r: LoanRow): (b: Book)
    ensures b.id == "" && b.authorsId == ""
    ensures b.author == NoAuthor.(fullName := r.authorFullName)
    ensures LoanRow(b.title, b.author.fullName, b.genre, b.isbn) == r
  {
    Book("", "", r.title, r.genre, r.isbn, Author("", r.authorFullName, "", ""))
  }

  /** The keys of the books `SELECT title FROM books WHERE authors_id = $1` selects. */
  ghost function BooksBy(books: map<string, BookRow>, authorId: string): set<string>
  {
    set k | k in books && books[k].authorsId == authorId
  }

  /**
   * GetAuthorsBooks on the database's answer, which returns the title of each selected
   * book once, in some order `ks`: one title per book whose authors_id is the id, the
   * i-th being the title of the i-th selected book, so every such book's title is there.
   */
  lemma AuthorsBooksAreTitles(books: map<string, BookRow>, authorId: string, ks: seq<string>, rows: seq<Row<string>>)
    requires Enumerates(ks, BooksBy(books, authorId))
    requires |rows| == |ks| && forall i :: 0 <= i < |ks| ==> ks[i] in books && rows[i] == Scanned(books[ks[i]].title)
    ensures Collect(Rows(rows), Identity).Fetched?
    ensures var titles := Collect(Rows(rows), Identity).items;
      && |titles| == |ks| == |BooksBy(books, authorId)|
      && (forall i :: 0 <= i < |titles| ==> books[ks[i]].authorsId == authorId && titles[i] == books[ks[i]].title)
      && (forall k :: k in books && books[k].authorsId == authorId ==> books[k].title in titles)
  {
    ListingYields(ks, BooksBy(books, authorId), rows, Identity);
    var titles := Collect(Rows(rows), Identity).items;
    forall i | 0 <= i < |ks| ensures books[ks[i]].authorsId == authorId {
      assert ks[i] in BooksBy(books, authorId);
    }
    forall k | k in books && books[k].authorsId == authorId ensures books[k].title in titles {
      assert k in BooksBy(books, authorId);
      var i :| 0 <= i < |ks| && ks[i] == k;
      assert titles[i] == Identity(books[k].title);
    }
  }

  /**
   * The keys of the books the three-way join selects for a member: the book's id has a
   * loan of the member, and its authors_id names an author row.
   */
  ghost function LoanedBooks(t: Tables, memberId: string): set<string>
  {
    set k | k in t.books && Borrowed(memberId, t.books[k].id) in t.loans && t.books[k].authorsId in t.authors
  }

  /** The joined row of a selected book: its title, its author's full_name, its genre and isbn. */
  ghost function JoinRow(t: Tables, k: string): LoanRow
    requires k in t.books && t.books[k].authorsId in t.authors
  {
    LoanRow(t.books[k].title, t.authors[t.books[k].authorsId].fullName, t.books[k].genre, t.books[k].isbn)
  }

  /**
   * Get on the database's answer to the join, which returns each selected book once,
   * in some order `ks`: one book per loan of the member whose book and author rows
   * exist, carrying that book's title, genre and isbn with its author's full_name and
   * no id or authors_id; every such loan shows up.
   */
  lemma BorrowedBooksAreLoans(t: Tables, memberId: string, ks: seq<string>, rows: seq<Row<LoanRow>>)
    requires Keyed(t)
    requires Enumerates(ks, LoanedBooks(t, memberId))
    requires |rows| == |ks| && forall i :: 0 <= i < |ks| ==> ks[i] in LoanedBooks(t, memberId) && rows[i] == Scanned(JoinRow(t, ks[i]))
    ensures Collect(Rows(rows), BookFromLoanRow).Fetched?
    ensures var books := Collect(Rows(rows), BookFromLoanRow).items;
      && |books| == |ks| == |LoanedBooks(t, memberId)|
      && (forall i :: 0 <= i < |books| ==>
            && Borrowed(memberId, ks[i]) in t.loans
            && books[i].id == "" && books[i].authorsId == ""
            && LoanRow(books[i].title, books[i].author.fullName, books[i].genre, books[i].isbn) == JoinRow(t, ks[i]))
      && (forall l :: l in t.loans && l.memberId == memberId && l.bookId in t.books && t.books[l.bookId].authorsId in t.authors ==>
            BookFromLoanRow(JoinRow(t, l.bookId)) in books)
  {
    ListingYields(ks, LoanedBooks(t, memberId), rows, BookFromLoanRow);
    var books := Collect(Rows(rows), BookFromLoanRow).items;
    forall l | l in t.loans && l.memberId == memberId && l.bookId in t.books && t.books[l.bookId].authorsId in t.authors
      ensures BookFromLoanRow(JoinRow(t, l.bookId)) in books
    {
      assert l == Borrowed(memberId, t.books[l.bookId].id);
      assert l.bookId in LoanedBooks(t, memberId);
      var i :| 0 <= i < |ks| && ks[i] == l.bookId;
      assert books[i] == BookFromLoanRow(JoinRow(t, l.bookId));
    }
  }

  // ---------------------------------------------------------------------------
  // The stores

  const AuthorMissing := Error("author does not exist")
  const BookMissing := Error("book does not exist")
  const MemberMissing := Error("member does not exist")

  class AuthorStore {
    const db: Database

    constructor (db: Database)
      ensures this.db == db
    {
      this.db := db;
    }

    /** `SELECT * FROM authors`, one Author per row. */
    method Get(q: Query<Author>) returns (r: Fetched<Author>)
      ensures r == Collect(q, Identity)
      ensures q.QueryErr? ==> r == FetchErr(q.err)
    {
      r := ScanAll(q, Identity);
    }

    /** `INSERT INTO authors (id, full_name, nick_name, specialization)`. */
    method Create(author: Author, fault: Option<Error>) returns (err: Option<Error>)
      requires Keyed(db.tables)
      modifies db
      ensures Keyed(db.tables)
      ensures err == fault
      ensures db.executed == old(db.executed) + [InsertAuthor(author)]
      ensures db.tables == if fault.None?
        then old(db.tables).(authors := old(db.tables).authors[author.id := author])
        else old(db.tables)
    {
      db.executed := db.executed + [InsertAuthor(author)];
      if fault.None? {
        db.tables := db.tables.(authors := db.tables.authors[author.id := author]);
      }
      err := fault;
    }

    /** `SELECT EXISTS (SELECT 1 FROM authors WHERE id = $1)`; `q` is its outcome for `id`. */
    method Exists(id: string, q: Query<bool>) returns (err: Option<Error>)
      ensures err == Probe(q, AuthorMissing)
      ensures q == Rows([Scanned(false)]) ==> err == Some(Error("author does not exist"))
      ensures q == Rows([Scanned(true)]) || q == Rows([]) ==> err == None
    {
      err := CheckExists(q, AuthorMissing);
    }

    /** `UPDATE authors ... WHERE ID = id`: the path id selects the row, `author` supplies the fields. */
    method Update(id: string, author: Author, fault: Option<Error>) returns (err: Option<Error>)
      requires Keyed(db.tables)
      modifies db
      ensures Keyed(db.tables)
      ensures err == fault
      ensures db.executed == old(db.executed) + [UpdateAuthor(id, author)]
      ensures db.tables == if fault.None?
        then old(db.tables).(authors := AuthorsUpdated(old(db.tables).authors, id, author))
        else old(db.tables)
    {
      db.executed := db.executed + [UpdateAuthor(id, author)];
      if fault.None? {
        db.tables := db.tables.(authors := AuthorsUpdated(db.tables.authors, id, author));
      }
      err := fault;
    }

    /** `DELETE FROM authors WHERE ID = id`. */
    method Delete(id: string, fault: Option<Error>) returns (err: Option<Error>)
      requires Keyed(db.tables)
      modifies db
      ensures Keyed(db.tables)
      ensures err == fault
      ensures db.executed == old(db.executed) + [DeleteAuthor(id)]
      ensures db.tables == if fault.None?
        then old(db.tables).(authors := old(db.tables).authors - {id})
        else old(db.tables)
    {
      db.executed := db.executed + [DeleteAuthor(id)];
      if fault.None? {
        db.tables := db.tables.(authors := db.tables.authors - {id});
      }
      err := fault;
    }

    /** `SELECT title FROM books WHERE authors_id = $1`, one title per row. */
    method GetAuthorsBooks(id: string, q: Query<string>) returns (r: Fetched<string>)
      ensures r == Collect(q, Identity)
      ensures q.QueryErr? ==> r == FetchErr(q.err)
    {
      r := ScanAll(q, Identity);
    }
  }

  class BookStore {
    const db: Database

    constructor (db: Database)
      ensures this.db == db
    {
      this.db := db;
    }

    /** `INSERT INTO books (id, authors_id, title, genre, isbn)`. */
    method Create(book: Book, fault: Option<Error>) returns (err: Option<Error>)
      requires Keyed(db.tables)
      modifies db
      ensures Keyed(db.tables)
      ensures err == fault
      ensures db.executed == old(db.executed) + [InsertBook(book)]
      ensures db.tables == if fault.None?
        then old(db.tables).(books := old(db.tables).books[book.id := RowOf(book)])
        else old(db.tables)
    {
      db.executed := db.executed + [InsertBook(book)];
      if fault.None? {
        db.tables := db.tables.(books := db.tables.books[book.id := RowOf(book)]);
      }
      err := fault;
    }

    /** `SELECT * FROM books`, one Book per row with an empty Author. */
    method Get(q: Query<BookRow>) returns (r: Fetched<Book>)
      ensures r == Collect(q, BookFromRow)
      ensures q.QueryErr? ==> r == FetchErr(q.err)
    {
      r := ScanAll(q, BookFromRow);
    }

    /** `SELECT EXISTS (SELECT 1 FROM books WHERE id = $1)`; `q` is its outcome for `id`. */
    method Exists(id: string, q: Query<bool>) returns (err: Option<Error>)
      ensures err == Probe(q, BookMissing)
      ensures q == Rows([Scanned(false)]) ==> err == Some(Error("book does not exist"))
      ensures q == Rows([Scanned(true)]) || q == Rows([]) ==> err == None
    {
      err := CheckExists(q, BookMissing);
    }

    /** `UPDATE books ... WHERE id = id`: the path id selects the row, `book` supplies the fields. */
    method Update(id: string, book: Book, fault: Option<Error>) returns (err: Option<Error>)
      requires Keyed(db.tables)
      modifies db
      ensures Keyed(db.tables)
      ensures err == fault
      ensures db.executed == old(db.executed) + [UpdateBook(id, book)]
      ensures db.tables == if fault.None?
        then old(db.tables).(books := BooksUpdated(old(db.tables).books, id, book))
        else old(db.tables)
    {
      db.executed := db.executed + [UpdateBook(id, book)];
      if fault.None? {
        db.tables := db.tables.(books := BooksUpdated(db.tables.books, id, book));
      }
      err := fault;
    }

    /** `DELETE FROM books WHERE ID = id`. */
    method Delete(id: string, fault: Option<Error>) returns (err: Option<Error>)
      requires Keyed(db.tables)
      modifies db
      ensures Keyed(db.tables)
      ensures err == fault
      ensures db.executed == old(db.executed) + [DeleteBook(id)]
      ensures db.tables == if fault.None?
        then old(db.tables).(books := old(db.tables).books - {id})
        else old(db.tables)
    {
      db.executed := db.executed + [DeleteBook(id)];
      if fault.None? {
        db.tables := db.tables.(books := db.tables.books - {id});
      }
      err := fault;
    }
  }

  class MemberStore {
    const db: Database

    constructor (db: Database)
      ensures this.db == db
    {
      this.db := db;
    }

    /** `SELECT * FROM members`, one Member per row. */
    method Get(q: Query<Member>) returns (r: Fetched<Member>)
      ensures r == Collect(q, Identity)
      ensures q.QueryErr? ==> r == FetchErr(q.err)
    {
      r := ScanAll(q, Identity);
    }

    /** `INSERT INTO members (id, full_name)`. */
    method Create(member: Member, fault: Option<Error>) returns (err: Option<Error>)
      requires Keyed(db.tables)
      modifies db
      ensures Keyed(db.tables)
      ensures err == fault
      ensures db.executed == old(db.executed) + [InsertMember(member)]
      ensures db.tables == if fault.None?
        then old(db.tables).(members := old(db.tables).members[member.id := member])
        else old(db.tables)
    {
      db.executed := db.executed + [InsertMember(member)];
      if fault.None? {
        db.tables := db.tables.(members := db.tables.members[member.id := member]);
      }
      err := fault;
    }

    /** `SELECT EXISTS (SELECT 1 FROM members WHERE id = $1)`; `q` is its outcome for `id`. */
    method Exists(id: string, q: Query<bool>) returns (err: Option<Error>)
      ensures err == Probe(q, MemberMissing)
      ensures q == Rows([Scanned(false)]) ==> err == Some(Error("member does not exist"))
      ensures q == Rows([Scanned(true)]) || q == Rows([]) ==> err == None
    {
      err := CheckExists(q, MemberMissing);
    }

    /** `UPDATE members SET full_name = $1 WHERE id = $2`. */
    method Update(id: string, member: Member, fault: Option<Error>) returns (err: Option<Error>)
      requires Keyed(db.tables)
      modifies db
      ensures Keyed(db.tables)
      ensures err == fault
      ensures db.executed == old(db.executed) + [UpdateMember(id, member)]
      ensures db.tables == if fault.None?
        then old(db.tables).(members := MembersUpdated(old(db.tables).members, id, member))
        else old(db.tables)
    {
      db.executed := db.executed + [UpdateMember(id, member)];
      if fault.None? {
        db.tables := db.tables.(members := MembersUpdated(db.tables.members, id, member));
      }
      err := fault;
    }

    /** `DELETE FROM members WHERE id = $1`. */
    method Delete(id: string, fault: Option<Error>) returns (err: Option<Error>)
      requires Keyed(db.tables)
      modifies db
      ensures Keyed(db.tables)
      ensures err == fault
      ensures db.executed == old(db.executed) + [DeleteMember(id)]
      ensures db.tables == if fault.None?
        then old(db.tables).(members := old(db.tables).members - {id})
        else old(db.tables)
    {
      db.executed := db.executed + [DeleteMember(id)];
      if fault.None? {
        db.tables := db.tables.(members := db.tables.members - {id});
      }
      err := fault;
    }
  }

  class BorrowedStore {
    const db: Database

    constructor (db: Database)
      ensures this.db == db
    {
      this.db := db;
    }

    /** `INSERT INTO borrowed_books (member_id, book_id)`. */
    method Create(loan: Borrowed, fault: Option<Error>) returns (err: Option<Error>)
      requires Keyed(db.tables)
      modifies db
      ensures Keyed(db.tables)
      ensures err == fault
      ensures db.executed == old(db.executed) + [InsertLoan(loan)]
      ensures db.tables == if fault.None?
        then old(db.tables).(loans := old(db.tables).loans + {loan})
        else old(db.tables)
    {
      db.executed := db.executed + [InsertLoan(loan)];
      if fault.None? {
        db.tables := db.tables.(loans := db.tables.loans + {loan});
      }
      err := fault;
    }

    /** The join of books, authors and borrowed_books for member `id`, one Book per row. */
    method Get(id: string, q: Query<LoanRow>) returns (r: Fetched<Book>)
      ensures r == Collect(q, BookFromLoanRow)
      ensures q.QueryErr? ==> r == FetchErr(q.err)
    {
      r := ScanAll(q, BookFromLoanRow);
    }

    /** `DELETE FROM borrowed_books WHERE member_id = $1 AND book_id = $2`. */
    method Delete(memberId: string, bookId: string, fault: Option<Error>) returns (err: Option<Error>)
      requires Keyed(db.tables)
      modifies db
      ensures Keyed(db.tables)
      ensures err == fault
      ensures db.executed == old(db.executed) + [DeleteLoan(memberId, bookId)]
      ensures db.tables == if fault.None?
        then old(db.tables).(loans := old(db.tables).loans - {Borrowed(memberId, bookId)})
        else old(db.tables)
    {
      db.executed := db.executed + [DeleteLoan(memberId, bookId)];
      if fault.None? {
        db.tables := db.tables.(loans := db.tables.loans - {Borrowed(memberId, bookId)});
      }
      err := fault;
    }

    /** One DELETE for all of `books`: it removes them all or, on error, none. */
    method DeleteList(id: string, books: seq<string>, fault: Option<Error>) returns (err: Option<Error>)
      requires Keyed(db.tables)
      modifies db
      ensures Keyed(db.tables)
      ensures err == fault
      ensures db.executed == old(db.executed) + [DeleteLoans(id, books)]
      ensures db.tables == if fault.None?
        then old(db.tables).(loans := LoansReturned(old(db.tables).loans, id, books))
        else old(db.tables)
    {
      db.executed := db.executed + [DeleteLoans(id, books)];
      if fault.None? {
        db.tables := db.tables.(loans := LoansReturned(db.tables.loans, id, books));
      }
      err := fault;
    }
  }
}
