/**
 * The exceptions the service layer throws, one constructor per exception
 * class, and the HTTP status each class is annotated with.
 */
module Errors {

  datatype Error =
    | BookNotFound(bookId: int)                            // BookNotFoundException
    | PatronNotFound(patronId: int)                        // PatronNotFoundException
    | BorrowingRecordNotFound(bookId: int, patronId: int)  // BorrowingRecordNotFoundException
    | BookAlreadyBorrowed(bookId: int)                     // BookAlreadyBorrowedException
    | BookIsbnAlreadyExists                                // BookISBNAlreadyExistsException
    | DataIntegrityViolation                               // the store's unique-key violation, not caught
    | ConstraintViolation                                  // the entity constraints checked before a write, not caught
    | InvalidRequestBody                                   // a request body that fails @Valid

  const BAD_REQUEST := 400
  const NOT_FOUND := 404
  const CONFLICT := 409
  const INTERNAL_SERVER_ERROR := 500

  /**
   * The @ResponseStatus of each exception class. BookAlreadyBorrowedException
   * is annotated NOT_FOUND, although the borrowing controller's integration
   * test expects CONFLICT for it; the model keeps the annotation. An
   * exception without an annotation surfaces as 500, and a body rejected by
   * @Valid as 400.
   */
  function Status(e: Error): (code: int)
    ensures code == CONFLICT <==> e.BookIsbnAlreadyExists?
    ensures code == INTERNAL_SERVER_ERROR <==> e.DataIntegrityViolation? || e.ConstraintViolation?
    ensures code == BAD_REQUEST <==> e.InvalidRequestBody?
    ensures code == NOT_FOUND <==> e.BookNotFound? || e.PatronNotFound? || e.BorrowingRecordNotFound? || e.BookAlreadyBorrowed?
  {
    match e
    case BookNotFound(_) => NOT_FOUND
    case PatronNotFound(_) => NOT_FOUND
    case BorrowingRecordNotFound(_, _) => NOT_FOUND
    case BookAlreadyBorrowed(_) => NOT_FOUND
    case BookIsbnAlreadyExists => CONFLICT
    case DataIntegrityViolation => INTERNAL_SERVER_ERROR
    case ConstraintViolation => INTERNAL_SERVER_ERROR
    case InvalidRequestBody => BAD_REQUEST
  }
}
