# library-api in Dafny

A model of the request-handling and persistence core of a library-management REST
API: authors, books, members and loans ("borrowed books"), each with a store that
issues one SQL statement per operation and a handler that turns the store's outcome
into an HTTP status code and a JSON body.

- `model.dfy` (module `Model`): the entities `Author`, `Book`, `Member`, `Borrowed`.
- `sql.dfy` (module `Sql`): the database as the stores see it. The four tables are one
  value (`Tables`): authors, books and members as maps from id to row, and loans as a
  set of `(member_id, book_id)` pairs. The outcome of a query is `QueryErr(e)` or a
  sequence of row outcomes `Scanned(cols)` / `ScanErr(e)`. `Database` is the shared
  connection; its ghost `executed` log records every statement sent through Exec, so
  that "the store is never called" and "Update is called with the path id" can be
  stated.
- `text.dfy` (module `Text`): the substring test behind `strings.Contains`, proved equal
  to "occurs at some index".
- `store.dfy` (module `Store`): the shared row-folding loop (`ScanAll`, proved against
  `Collect`), the shared EXISTS loop (`CheckExists`, proved against `Probe`), the effect
  of every UPDATE/DELETE statement, and the classes `AuthorStore`, `BookStore`,
  `MemberStore`, `BorrowedStore`.
- `handler.dfy` (module `Handler`): one response function per read or delete endpoint,
  the classes `AuthorHandler`, `BookHandler`, `MemberHandler`, `BorrowedHandler`, and
  lemmas that connect the endpoints to the database state.

Inputs that come from outside the program are parameters: the body-parse outcome
(`Parsed(v)` / `ParseErr`), path parameters, the generated uuid (`freshId`, required not
to be a key yet), the outcome of each query (`Query<C>`) and of each Exec (`fault`:
`None` for success, `Some(e)` for the driver's error).

`Exists` succeeds on a result with no rows: the loop body never runs, so only a `false`
row, a scan error or a query error makes it fail. `Store.ProbeSucceedsIffAllTrue` states
this.

The database's answer to a query that selects rows by key is modelled as a list `ks`
that names every selected key exactly once, in an order the model leaves open, since
none of the queries has an ORDER BY (`Sql.Enumerates`, `Sql.SelectsAll`). The i-th row
holds the columns of the row with key `ks[i]`.

## Model

| member | source | states |
|---|---|---|
| Store.ScanAll | internal/store/author.go:16-28 | the row loop returns exactly `Collect(q, build)`: a query error or the first scan error as `(nil, err)`, otherwise one entity per row in order |
| Store.CollectAllScanned | internal/store/author.go:16-28 | when every row scans, the result has one entity per row, the k-th built from the k-th row |
| Store.CollectStopsAtScanError | internal/store/author.go:19-23 | the first scan error is the result, and the rows appended before it are discarded |
| Store.CollectSucceedsIffAllScanned | internal/store/book.go:28-40 | a read yields entities exactly when every row scans |
| Store.ListingYields | internal/store/member.go:16-28 | a query that selects a set of keys, each once, yields exactly as many entities as keys, the i-th built from the i-th row |
| Store.CheckExists | internal/store/author.go:49-63 | the EXISTS loop returns exactly `Probe(q, missing)` |
| Store.ProbeSucceedsIffAllTrue | internal/store/book.go:50-64 | Exists returns nil exactly when every row says true, so also when there are no rows |
| Store.ProbeStopsAtFirstFailure | internal/store/member.go:49-61 | the first row that is not true decides: its scan error, or the "does not exist" error for a false row |
| Store.ProbeReflectsTable | internal/store/author.go:43-63 | on the database's own one-row answer, Exists fails with "does not exist" exactly when the id is not a key |
| Store.AuthorsUpdated | internal/store/author.go:66-68 | the UPDATE keeps the key set and every other row; the row with the path id keeps its id and takes full_name, nick_name and specialization from the body |
| Store.BooksUpdated | internal/store/book.go:67-69 | the UPDATE keeps the key set, every other row and the id; the row takes authors_id, title, genre and isbn from the body |
| Store.MembersUpdated | internal/store/member.go:66-67 | the UPDATE keeps the key set, every other row and the id; only full_name changes |
| Store.LoansReturned | internal/store/borrowed.go:74-76 | only loans are removed, and the result is the loan set minus the pairs (member id, b) for every b in the list |
| Store.LoansReturnedAgreesWithDelete | internal/store/borrowed.go:60-76 | returning a one-id list is the single DELETE of that loan (borrowed.go:61), an empty list changes nothing, and two lists in turn equal their concatenation at once |
| Store.BookFromRow | internal/store/book.go:30-31 | a book read from the books table has an empty Author and carries the row's five columns unchanged |
| Store.BookFromLoanRow | internal/store/borrowed.go:39-52 | a borrowed book has empty id and authors_id, an Author with only full_name, and the row's title, genre and isbn |
| Store.AuthorsBooksAreTitles | internal/store/author.go:87-106 | on the database's answer, GetAuthorsBooks returns one title per book whose authors_id is the id (duplicate titles included), the i-th being the i-th selected book's title, so every such title is there |
| Store.BorrowedBooksAreLoans | internal/store/borrowed.go:24-57 | on the database's answer to the join, one book per loan of the member whose book and author rows exist, the i-th carrying its book's title, genre, isbn and its author's full_name, none with an id or authors_id, and every such loan shows up |
| Store.AuthorStore.Get | internal/store/author.go:8-29 | returns `Collect(q, Identity)`; a query error comes back unchanged with no authors |
| Store.AuthorStore.Create | internal/store/author.go:31-40 | inserts the author under its id when the statement succeeds, leaves the tables unchanged and returns the driver error otherwise |
| Store.AuthorStore.Exists | internal/store/author.go:42-64 | returns `Probe(q, "author does not exist")`: a false row gives that error, a true row or no rows give nil |
| Store.AuthorStore.Update | internal/store/author.go:66-75 | applies `AuthorsUpdated` with the path id on success; nothing changes on error |
| Store.AuthorStore.Delete | internal/store/author.go:77-85 | removes only the author with the id on success; nothing changes on error |
| Store.AuthorStore.GetAuthorsBooks | internal/store/author.go:87-107 | returns the titles row by row, or `(nil, err)` on a query or scan error |
| Store.BookStore.Create | internal/store/book.go:8-18 | inserts the five columns of the book under its id on success; returns the driver error unchanged otherwise |
| Store.BookStore.Get | internal/store/book.go:20-41 | returns one Book per row with an empty Author, or `(nil, err)` |
| Store.BookStore.Exists | internal/store/book.go:43-65 | returns `Probe(q, "book does not exist")` |
| Store.BookStore.Update | internal/store/book.go:67-76 | applies `BooksUpdated` with the path id on success; nothing changes on error |
| Store.BookStore.Delete | internal/store/book.go:78-85 | removes only the book with the id on success |
| Store.MemberStore.Get | internal/store/member.go:8-29 | returns one Member `(id, full_name)` per row, or `(nil, err)` |
| Store.MemberStore.Create | internal/store/member.go:31-39 | inserts exactly `(id, full_name)` on success |
| Store.MemberStore.Exists | internal/store/member.go:41-64 | returns `Probe(q, "member does not exist")` |
| Store.MemberStore.Update | internal/store/member.go:66-74 | changes only full_name of the member with the path id on success |
| Store.MemberStore.Delete | internal/store/member.go:76-84 | removes only the member with the id on success |
| Store.BorrowedStore.Create | internal/store/borrowed.go:9-21 | adds exactly the pair `(member_id, book_id)` on success; returns the error unchanged otherwise |
| Store.BorrowedStore.Get | internal/store/borrowed.go:23-58 | returns one `BookFromLoanRow` per joined row, or `(nil, err)` |
| Store.BorrowedStore.Delete | internal/store/borrowed.go:60-72 | removes only the pair `(memberId, bookId)` on success |
| Store.BorrowedStore.DeleteList | internal/store/borrowed.go:74-84 | one statement: on success the loans become `LoansReturned`, on error the loan set is unchanged |
| Text.ContainsIffOccurs | internal/handler/author.go:97 | the substring test holds exactly when the marker occurs at some index of the error text |
| Handler.ListResponse | internal/handler/book.go:43-59 | every list endpoint: 500 with the server error exactly on a store error, 404 with the endpoint's body exactly on no rows, otherwise 200 with the rows unchanged |
| Handler.GuardedDeleteResponse | internal/handler/author.go:93-111 | every foreign-key-guarded delete: 200 exactly on success, 400 with the endpoint's refusal exactly when the error is a foreign-key violation, 500 on any other error |
| Handler.AuthorsResponse | internal/handler/author.go:43-59 | 404 `{"message":"authors not found"}` on an empty list, otherwise 200 with the list; 500 on a store error by `ListResponse` |
| Handler.AuthorBooksResponse | internal/handler/author.go:113-130 | 404 `{"error":"book not found"}` on no titles, otherwise 200 with the titles; 500 on a store error by `ListResponse` |
| Handler.BooksResponse | internal/handler/book.go:43-59 | 404 `{"message":"no books found"}` on an empty list, otherwise 200 with the list; 500 on a store error by `ListResponse` |
| Handler.MembersResponse | internal/handler/member.go:42-58 | 404 `{"message":"no members found"}` on an empty list, otherwise 200 with the list; 500 on a store error by `ListResponse` |
| Handler.BorrowedBooksResponse | internal/handler/borrowed.go:38-55 | 404 `{"message":"no books found for this member"}` on no books, otherwise 200 with the books; 500 on a store error by `ListResponse` |
| Handler.AuthorDeleteResponse | internal/handler/author.go:93-111 | 200 `{"message":"author deleted"}` on success, and a 400 carries `{"message":"author has related recordings and cannot be deleted"}`; when each status occurs is `GuardedDeleteResponse` |
| Handler.BookDeleteResponse | internal/handler/book.go:91-109 | 200 `{"message":"book deleted"}` on success, and a 400 carries `{"message":"book has related recordings and cannot be deleted"}`; when each status occurs is `GuardedDeleteResponse` |
| Handler.MemberDeleteResponse | internal/handler/member.go:93-112 | 200 `{"message":"member deleted"}` on success, and a 400 carries `{"message":"member still has books, all books must be returned"}`; when each status occurs is `GuardedDeleteResponse` |
| Handler.LoanDeleteResponse | internal/handler/borrowed.go:57-70 | 200 `{"message":"borrowed book deleted"}` exactly on success, 500 on every error with no foreign-key distinction |
| Handler.ForeignKeyRefusal | internal/handler/book.go:95 | the three guarded deletes answer 400 exactly when "violates foreign key constraint" occurs at some index of the error text |
| Handler.CreatedAuthorIsListed | internal/handler/author.go:30-40 | after a successful create under a fresh id, GET /authors on the database's answer answers 200, lists the body with that id, and lists one more author than before |
| Handler.CreatedBookIsListed | internal/handler/book.go:29-40 | after a successful create under a fresh id, GET /books on the database's answer answers 200, lists the book with that id and an empty Author, and lists one more book than before |
| Handler.CreatedMemberIsListed | internal/handler/member.go:29-39 | after a successful create under a fresh id, GET /members on the database's answer answers 200, lists the member with that id, and lists one more member than before |
| Handler.NoLoansIsNotFound | internal/handler/borrowed.go:47-52 | a member with no loans gets 404 `{"message":"no books found for this member"}` |
| Handler.AuthorHandler.Create | internal/handler/author.go:20-41 | parse failure: 400 `{"error":"author creation failed"}` and no statement; otherwise the store gets the body with its id replaced by the fresh id; store failure: 400 with the same message; success: 201 `{"message":"author created"}` and one more author |
| Handler.AuthorHandler.Get | internal/handler/author.go:43-59 | the response is `AuthorsResponse` of the store's read |
| Handler.AuthorHandler.Update | internal/handler/author.go:61-91 | parse failure: 400 `{"error":"author update failed"}` before Exists; Exists failure: 404 `{"error":"author not found"}` and no UPDATE; otherwise UPDATE with the path id and the body, then 400 on failure or 200 `{"message":"author updated"}`; when the probe is the database's own answer, the response is 404 exactly when the id is not a key, and then nothing is executed |
| Handler.AuthorHandler.Delete | internal/handler/author.go:93-111 | issues DELETE with the path id and answers `AuthorDeleteResponse` of its outcome |
| Handler.AuthorHandler.GetAuthorBooks | internal/handler/author.go:113-130 | the response is `AuthorBooksResponse` of the store's read |
| Handler.BookHandler.Create | internal/handler/book.go:19-41 | parse or store failure: 400 `{"error":"book creation failed"}`; success: the book is stored under the fresh id and 201 carries `"id"` equal to that id with `"message":"book created"` |
| Handler.BookHandler.Get | internal/handler/book.go:43-59 | the response is `BooksResponse` of the store's read |
| Handler.BookHandler.Update | internal/handler/book.go:61-89 | parse failure: 400; Exists failure: 404 `{"error":"book not found"}` and no UPDATE; UPDATE failure: 400 `{"error":"book update failed"}`; success: 200 `{"message":"book updated"}`; when the probe is the database's own answer, the response is 404 exactly when the id is not a key, and then nothing is executed |
| Handler.BookHandler.Delete | internal/handler/book.go:91-109 | issues DELETE with the path id and answers `BookDeleteResponse` of its outcome |
| Handler.MemberHandler.Create | internal/handler/member.go:19-40 | parse or store failure: 400 `{"error":"member creation failed"}`; success: stored under the fresh id and 201 `{"message":"member created"}` with no id |
| Handler.MemberHandler.Get | internal/handler/member.go:42-58 | the response is `MembersResponse` of the store's read |
| Handler.MemberHandler.Update | internal/handler/member.go:60-91 | Exists failure: 404 with key "message" `"member not found"` and no UPDATE; UPDATE failure: 400 `{"error":"member update failed"}`; success: 200 `{"message":"member updated"}`; when the probe is the database's own answer, the response is 404 exactly when the id is not a key, and then nothing is executed |
| Handler.MemberHandler.Delete | internal/handler/member.go:93-112 | issues DELETE with the path id and answers `MemberDeleteResponse` of its outcome |
| Handler.BorrowedHandler.Create | internal/handler/borrowed.go:16-36 | parse failure: 400 `{"error":"borrowed book creation failed"}` and no statement; otherwise the parsed pair goes to the store unchanged; 400 on store failure, 201 `{"message":"borrowed book created"}` on success |
| Handler.BorrowedHandler.Get | internal/handler/borrowed.go:38-55 | the response is `BorrowedBooksResponse` of the store's join read |
| Handler.BorrowedHandler.Delete | internal/handler/borrowed.go:57-70 | issues DELETE with `(id, book_id)` from the path and answers `LoanDeleteResponse` of its outcome |
| Handler.BorrowedHandler.DeleteList | internal/handler/borrowed.go:72-93 | parse failure: 400 `{"error":"borrowed book delete failed"}` and no statement; otherwise one DELETE with the path id and the list; 500 on failure, 200 `{"message":"borrowed books deleted"}` on success |

## Left out

- JSON decoding and encoding (`c.BodyParser`, `c.JSON`): a body is `Parsed(v)` or `ParseErr`, a response is a status with a `Json` value.
- uuid generation: the generated id is the parameter `freshId`, required to be non-empty and not yet a key.
- The SQL driver and Postgres: each query's rows and each Exec's error are parameters. The primary-key and foreign-key checks the database performs are not modelled; a refused statement is an error whose text may contain the foreign-key marker.
- `rows.Close()`, including the missing `defer rows.Close()` in the author and book `Exists` and in `GetAuthorsBooks`: resource release is not modelled.
- Go's nil slice and empty slice are both `Fetched([])`; the handlers only look at the length.
- Logging (hclog), the constructors in internal/handler/handler.go and internal/store/store.go, routing, middleware, the health check, configuration and shutdown: I/O and wiring with no decisions of their own.
- Concurrency and the window between `Exists` and `Update`: requests are modelled one at a time.
