/**
 * The Book and Patron entities. Both are classes: the services change their
 * fields in place through setters, and in the model the same object is reachable from the
 * store and from a cache at once.
 */
module Entities {
  import opened Wrappers
  import opened Validation

  /** The columns of a stored book, without its id. */
  datatype BookRow = BookRow(title: string, author: string, publicationYear: int, isbn: string, borrowed: bool)
  {
    /** The field constraints declared on Book; the flag carries none. */
    predicate HasValidFields() {
      ValidBookFields(title, author, publicationYear, isbn)
    }
  }

  /** The columns of a stored patron, without its id. */
  datatype PatronRow = PatronRow(name: string, phoneNumber: string, emailAddress: string)
  {
    /** The field constraints declared on Patron. */
    predicate HasValidFields() {
      ValidPatronFields(name, phoneNumber, emailAddress)
    }
  }

  /**
   * A book. The id is None until the store generates one on the first save.
   *
   * Modelling assumption: a Book is held BY REFERENCE. In the model the
   * store and the books cache hold the very same object for an id, so a
   * setter called on the object a lookup returned is seen by every later
   * lookup of that id, and borrowBook's flag flip reaches the save that
   * updateBook makes after re-reading the book. A cached book that came
   * from an earlier transaction is a detached copy instead; that case is
   * not modelled.
   */
  class Book {
    var id: Option<int>
    var title: string
    var author: string
    var publicationYear: int
    var isbn: string
    var borrowed: bool

    /** The no-argument constructor; absent strings are modelled as "". */
    constructor Empty()
      ensures id.None? && Row() == BookRow("", "", 0, "", false)
    {
      id := None;
      title, author, publicationYear, isbn := "", "", 0, "";
      borrowed := false;
    }

    /** The five-argument constructor leaves the book not borrowed. */
    constructor (id: Option<int>, title: string, author: string, publicationYear: int, isbn: string)
      ensures this.id == id && Row() == BookRow(title, author, publicationYear, isbn, false)
    {
      this.id := id;
      this.title, this.author, this.publicationYear, this.isbn := title, author, publicationYear, isbn;
      this.borrowed := false;
    }

    /** The six-argument constructor sets every field, the flag included. */
    constructor WithBorrowed(id: Option<int>, title: string, author: string, publicationYear: int, isbn: string, borrowed: bool)
      ensures this.id == id && Row() == BookRow(title, author, publicationYear, isbn, borrowed)
    {
      this.id := id;
      this.title, this.author, this.publicationYear, this.isbn := title, author, publicationYear, isbn;
      this.borrowed := borrowed;
    }

    function Row(): BookRow
      reads this
    {
      BookRow(title, author, publicationYear, isbn, borrowed)
    }

    /** The setter of the borrowed flag. */
    method SetBorrowed(borrowed: bool)
      modifies this
      ensures id == old(id) && Row() == old(Row()).(borrowed := borrowed)
    {
      this.borrowed := borrowed;
    }

    /** The field constraints declared on the entity. */
    predicate HasValidFields()
      reads this
    {
      ValidBookFields(title, author, publicationYear, isbn)
    }
  }

  /**
   * A patron. Its borrowing records are not a field here: a record carries
   * the id of its patron, and the cascade on deletion is modelled by the
   * store (see Ledger.WithoutPatron).
   */
  class Patron {
    var id: Option<int>
    var name: string
    var phoneNumber: string
    var emailAddress: string

    /** The no-argument constructor; absent strings are modelled as "". */
    constructor Empty()
      ensures id.None? && Row() == PatronRow("", "", "")
    {
      id := None;
      name, phoneNumber, emailAddress := "", "", "";
    }

    function Row(): PatronRow
      reads this
    {
      PatronRow(name, phoneNumber, emailAddress)
    }

    /** The field constraints declared on the entity. */
    predicate HasValidFields()
      reads this
    {
      ValidPatronFields(name, phoneNumber, emailAddress)
    }
  }
}
