/** The entities of the library API, as the JSON bodies and table rows carry them. */
module Model {

  /** A value that may be absent: the `*string` of a nullable column. */
  datatype Option<+T> = None | Some(value: T)

  /** An author; `full_name` is the one nullable column. */
  datatype Author = Author(id: string, fullName: Option<string>, nickName: string, specialization: string)

  /** The zero Author value that a Book carries when no author was joined in. */
  const NoAuthor: Author := Author("", None, "", "")

  /** A book; `author` is filled in only by the borrowed-books join. */
  datatype Book = Book(id: string, authorsId: string, title: string, genre: string, isbn: string, author: Author)

  /** A library member. */
  datatype Member = Member(id: string, fullName: string)

  /** A loan: the pair (member_id, book_id) is its whole identity. */
  datatype Borrowed = Borrowed(memberId: string, bookId: string)
}
