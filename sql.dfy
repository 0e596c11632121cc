/**
 * The relational database behind the stores, reduced to what the stores rely on:
 * the four tables as values, the outcome of a query as a sequence of row outcomes,
 * and the log of the statements the stores send through Exec.
 */
module Sql {
  import opened Model

  /** An error value; `text` is what `err.Error()` returns. */
  datatype Error = Error(text: string)

  /** One step of `rows.Next()`/`rows.Scan(...)`: the scanned columns, or the scan error. */
  datatype Row<+C> = Scanned(cols: C) | ScanErr(err: Error)

  /** The outcome of `db.Query(...)`: the error it returned, or the rows it produced, in order. */
  datatype Query<+C> = QueryErr(err: Error) | Rows(rows: seq<Row<C>>)

  /** A row of the books table: id, authors_id, title, genre, isbn. */
  datatype BookRow = BookRow(id: string, authorsId: string, title: string, genre: string, isbn: string)

  /** The contents of the tables authors, books, members and borrowed_books. */
  datatype Tables = Tables(
    authors: map<string, Author>,
    books: map<string, BookRow>,
    members: map<string, Member>,
    loans: set<Borrowed>)

  /** Every row is stored under its own id, the primary key of its table. */
  predicate Keyed(t: Tables)
  {
    && (forall id :: id in t.authors ==> t.authors[id].id == id)
    && (forall id :: id in t.books ==> t.books[id].id == id)
    && (forall id :: id in t.members ==> t.members[id].id == id)
  }

  /** A statement sent through Exec, with the arguments the store passed to it. */
  datatype Statement =
    | InsertAuthor(author: Author)
    | UpdateAuthor(id: string, author: Author)
    | DeleteAuthor(id: string)
    | InsertBook(book: Book)
    | UpdateBook(id: string, book: Book)
    | DeleteBook(id: string)
    | InsertMember(member: Member)
    | UpdateMember(id: string, member: Member)
    | DeleteMember(id: string)
    | InsertLoan(loan: Borrowed)
    | DeleteLoan(memberId: string, bookId: string)
    | DeleteLoans(memberId: string, bookIds: seq<string>)

  /**
   * The answer to `SELECT EXISTS (SELECT 1 FROM <table> WHERE id = $1)` when the
   * query goes through: one row holding whether the id is a key of the table.
   */
  function ExistsAnswer<V>(table: map<string, V>, id: string): Query<bool>
  {
    Rows([Scanned(id in table)])
  }

  /**
   * `ks` lists the keys `keys` each exactly once, in some order: the order in which a
   * query that selects the rows with those keys returns them.
   */
  ghost predicate Enumerates(ks: seq<string>, keys: set<string>)
  {
    && (forall i, j :: 0 <= i < j < |ks| ==> ks[i] != ks[j])
    && (forall k :: k in keys <==> k in ks)
  }

  /** `rows` is the answer of `SELECT * FROM <table>`: every row once, in the order `ks`. */
  ghost predicate SelectsAll<V>(table: map<string, V>, ks: seq<string>, rows: seq<Row<V>>)
  {
    && Enumerates(ks, table.Keys)
    && |rows| == |ks|
    && (forall i :: 0 <= i < |ks| ==> ks[i] in table && rows[i] == Scanned(table[ks[i]]))
  }

  /** A query returns one row per selected key. */
  lemma {:induction false} EnumerationSize(ks: seq<string>, keys: set<string>)
    requires Enumerates(ks, keys)
    ensures |ks| == |keys|
  {
    if ks == [] {
      assert keys == {};
    } else {
      var rest := keys - {ks[0]};
      forall i, j | 0 <= i < j < |ks[1..]| ensures ks[1..][i] != ks[1..][j] {
        assert ks[1..][i] == ks[i + 1] && ks[1..][j] == ks[j + 1];
      }
      forall k ensures k in rest <==> k in ks[1..] {
        if k in ks[1..] {
          var j :| 0 <= j < |ks[1..]| && ks[1..][j] == k;
          assert ks[j + 1] == k;
        }
        if k in ks && k != ks[0] {
          var j :| 0 <= j < |ks| && ks[j] == k;
          assert ks[1..][j - 1] == k;
        }
      }
      EnumerationSize(ks[1..], rest);
    }
  }

  /** The shared connection: the tables it holds and the statements executed on it. */
  class Database {
    var tables: Tables
    ghost var executed: seq<Statement>

    constructor ()
      ensures tables == Tables(map[], map[], map[], {})
      ensures executed == []
    {
      tables := Tables(map[], map[], map[], {});
      executed := [];
    }
  }
}
