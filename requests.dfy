/**
 * BookController.addBook, the one request path from a JSON body to the
 * store: the body is read into a BookDTO, @Valid checks it, BookMapper.toBook
 * turns it into a fresh Book and addBook stores it; the response body is
 * the stored book mapped back to a BookDTO.
 */
module Requests {
  import opened Wrappers
  import opened Errors
  import opened Validation
  import opened Entities
  import opened Dto
  import opened Mappers
  import opened Catalog

  /**
   * POST /api/books with the given JSON fields. Whatever flag the client
   * sends, the book is stored lent to no one, so a new book never breaks
   * the agreement between the flags and the open records.
   */
  method AddBookFromBody(service: BookService, title: string, author: string, publicationYear: int, isbn: string, sentBorrowed: bool)
    returns (result: Result<BookDto, Error>)
    requires service.Valid()
    modifies service.store
    ensures service.Valid() && service.cache == old(service.cache)
    ensures !ValidBookFields(title, author, publicationYear, isbn) ==> result == Failure(InvalidRequestBody)
    ensures ValidBookFields(title, author, publicationYear, isbn) && old(service.store.IsbnTaken(isbn, None)) ==>
              result == Failure(BookIsbnAlreadyExists)
    ensures result.Success? <==> ValidBookFields(title, author, publicationYear, isbn) && !old(service.store.IsbnTaken(isbn, None))
    ensures result.Success? ==> result.value == BookDto(title, author, publicationYear, isbn, false)
    ensures result.Success? ==> service.store.Rows() == old(service.store.Rows())[old(service.store.nextBookId) := BookRow(title, author, publicationYear, isbn, false)]
    ensures result.Failure? ==> service.store.Rows() == old(service.store.Rows()) && service.store.books == old(service.store.books)
    ensures service.store.patrons == old(service.store.patrons) && service.store.records == old(service.store.records)
    ensures old(service.store.LoansConsistent()) ==> service.store.LoansConsistent()
  {
    var body := ReceivedBookDto(title, author, publicationYear, isbn, sentBorrowed);
    if !body.Valid() {
      return Failure(InvalidRequestBody);
    }
    var book := ToBook(body);
    assert book.Row() == BookRow(title, author, publicationYear, isbn, false) && book.HasValidFields();
    var added := service.AddBook(book);
    if added.Failure? {
      return Failure(added.error);
    }
    result := Success(ToBookDto(added.value));
  }
}
