/**
 * BookMapper and PatronMapper: field-for-field copies between the entities
 * and their DTOs. The entity side is a fresh object with no id.
 */
module Mappers {
  import opened Wrappers
  import opened Validation
  import opened Entities
  import opened Dto

  /** toBookDTO copies title, author, publicationYear, isbn and borrowed. */
  function ToBookDto(book: Book): (d: BookDto)
    reads book
    ensures d.Valid() <==> book.HasValidFields()
    ensures BookRow(d.title, d.author, d.publicationYear, d.isbn, d.borrowed) == book.Row()
  {
    BookDto(book.title, book.author, book.publicationYear, book.isbn, book.borrowed)
  }

  /** toBook builds a fresh Book with the same five fields and no id. */
  method ToBook(d: BookDto) returns (book: Book)
    ensures fresh(book) && book.id.None?
    ensures ToBookDto(book) == d
  {
    book := new Book.Empty();
    book.title := d.title;
    book.author := d.author;
    book.publicationYear := d.publicationYear;
    book.isbn := d.isbn;
    book.borrowed := d.borrowed;
  }

  /** toBook(toBookDTO(b)) agrees with b on every field except the id. */
  method CopyBookThroughDto(b: Book) returns (copy: Book)
    ensures fresh(copy) && copy.id.None? && copy.Row() == b.Row()
  {
    copy := ToBook(ToBookDto(b));
  }

  /** toPatronDTO copies name, phoneNumber and emailAddress. */
  function ToPatronDto(patron: Patron): (d: PatronDto)
    reads patron
    ensures d.Valid() <==> patron.HasValidFields()
    ensures PatronRow(d.name, d.phoneNumber, d.emailAddress) == patron.Row()
  {
    PatronDto(patron.name, patron.phoneNumber, patron.emailAddress)
  }

  /** toPatron builds a fresh Patron with the same three fields, no id and so no records. */
  method ToPatron(d: PatronDto) returns (patron: Patron)
    ensures fresh(patron) && patron.id.None?
    ensures ToPatronDto(patron) == d
  {
    patron := new Patron.Empty();
    patron.name := d.name;
    patron.phoneNumber := d.phoneNumber;
    patron.emailAddress := d.emailAddress;
  }

  /** toPatron(toPatronDTO(p)) agrees with p on name, phoneNumber and emailAddress. */
  method CopyPatronThroughDto(p: Patron) returns (copy: Patron)
    ensures fresh(copy) && copy.id.None? && copy.Row() == p.Row()
  {
    copy := ToPatron(ToPatronDto(p));
  }
}
