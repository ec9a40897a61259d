# Library Management System — a Dafny model of the service layer

This project models the service layer of a Spring Boot library management
system. It covers books, patrons and borrowing records, and the operations
the book, patron and borrowing services offer over them:

- adding, reading, updating and deleting books and patrons;
- borrowing a book, which sets its `borrowed` flag and opens a borrowing
  record dated today;
- returning a book, which closes the open record of the (book, patron) pair
  and clears the flag.

The services are classes over one `EntityStore`. The store stands for the
three JPA repositories:

- books and patrons are maps from generated id to object;
- the ledger is the sequence of borrowing records in insertion order.

The "books" and "patrons" caches are maps from id to object, with their
Spring meaning:

- `@Cacheable` answers a hit from the cache, fills it on a miss and caches
  nothing on a failure;
- `@CachePut` stores the saved object;
- `@CacheEvict` removes the entry;
- a call through `this` bypasses the proxy and reads the store.

Book and Patron are classes held by reference. In the model the store and a
cache share the same object for an id, so a setter called on a looked-up
book is seen by the next lookup, and `borrowBook`'s flag flip reaches the
save that `updateBook` makes after re-reading the book. In the running
application a book cached by an earlier transaction is a detached copy, and
that flip can be lost (see "Left out").

The cross-entity property proved throughout the model is the loan
invariant (`Ledger.LoanInvariant`): a stored book is borrowed exactly when
it has one open record, and has none otherwise. In the model, borrowing,
returning, adding and deleting books keep it. Deleting a patron keeps it only when the patron has
no open loan; `Ledger.CascadeCanBreakLoanInvariant` exhibits the state in
which the cascade breaks it.

Validation constraints (`@NotBlank`, `@NotEmpty`, `@Pattern`, `@Min`,
`@Max`) are predicates with Java's meaning:

- a pattern must match the whole value;
- `\s` is `[ \t\n\x0B\f\r]`;
- `\d` is `[0-9]`.

Before every insert and update the store checks the entity constraints
(Bean Validation through JPA) and refuses the write with a constraint
violation; `@Valid` on a request body refuses it earlier, with 400.

Errors are one datatype, `Errors.Error`, with one constructor per exception
class; `Errors.Status` gives each its HTTP status. "Today" is a parameter
(a day number), not a clock reading.

Files, one module each:

| file | module |
|---|---|
| `wrappers.dfy` | `Wrappers`: `Option`, `Result` |
| `errors.dfy` | `Errors` |
| `validation.dfy` | `Validation` |
| `entities.dfy` | `Entities`: `Book`, `Patron` |
| `ledger.dfy` | `Ledger`: records, the open-record query, the loan invariant |
| `dto.dfy` | `Dto` |
| `mappers.dfy` | `Mappers` |
| `auth.dfy` | `Auth` |
| `store.dfy` | `Store` |
| `catalog.dfy` | `Catalog`: `BookService` |
| `membership.dfy` | `Membership`: `PatronService` |
| `borrowing.dfy` | `Borrowing`: `BorrowingService` |
| `requests.dfy` | `Requests`: the add-book request path |

## Model

| member | source | states |
|---|---|---|
| Errors.Status | src/main/java/com/example/librarymanagementsystem/exceptionHandler/BookAlreadyBorrowedException.java:9-10 | 409 exactly for a duplicate ISBN, 500 exactly for the uncaught unique-key and constraint violations, 400 exactly for an invalid request body, 404 for every other exception, BookAlreadyBorrowed included |
| Validation.ValidTitle | src/main/java/com/example/librarymanagementsystem/entity/Book.java:26-31 | the three title constraints together accept exactly the letter/digit/white-space strings that hold at least one letter or digit |
| Validation.ValidAuthor | src/main/java/com/example/librarymanagementsystem/entity/Book.java:33-38 | the author constraints accept exactly the letter/white-space strings with at least one letter; every valid author is also a valid title |
| Validation.ValidIsbn | src/main/java/com/example/librarymanagementsystem/entity/Book.java:46-52 | the ISBN constraints accept exactly the strings matching `\d{3}-\d{10}`: the blank and empty checks add nothing; the value is 14 characters with a dash at position 3 |
| Validation.ValidPhoneNumber | src/main/java/com/example/librarymanagementsystem/entity/Patron.java:24-29 | the phone constraints accept exactly the strings of ten ASCII digits |
| Validation.IsbnCheckDigitIgnored | src/main/java/com/example/librarymanagementsystem/entity/Book.java:50 | replacing the last digit of a valid ISBN by any digit leaves it valid: the format is checked, not the check digit |
| Validation.ValidPublicationYear | src/main/java/com/example/librarymanagementsystem/entity/Book.java:40-44 | the year constraints accept exactly the years 1700 to 2024 |
| Validation.ValidPatronName | src/main/java/com/example/librarymanagementsystem/entity/Patron.java:17-22 | the name constraints accept exactly the letter/white-space strings with at least one letter |
| Validation.ValidEmailAddress | src/main/java/com/example/librarymanagementsystem/entity/Patron.java:31-34 | an address is refused exactly when every character is at or below U+0020 (what trim() strips): the empty value, white space and control characters alike; an accepted address is not empty |
| Entities.Book.Empty | src/main/java/com/example/librarymanagementsystem/entity/Book.java:58 | a new book has no id, empty fields and is not borrowed |
| Entities.Book.constructor | src/main/java/com/example/librarymanagementsystem/entity/Book.java:60-66 | the five-argument constructor sets id and details and leaves the book not borrowed |
| Entities.Book.WithBorrowed | src/main/java/com/example/librarymanagementsystem/entity/Book.java:67-74 | the six-argument constructor sets every field, the flag included |
| Entities.Book.SetBorrowed | src/main/java/com/example/librarymanagementsystem/entity/Book.java:54-56 | setting the flag changes the flag and nothing else |
| Entities.Patron.Empty | src/main/java/com/example/librarymanagementsystem/entity/Patron.java:12-15 | a new patron has no id and empty fields |
| Ledger.Opening | src/main/java/com/example/librarymanagementsystem/entity/BorrowingRecord.java:38-42 | a new record is dated today, has no id, and is an open record of its own (book, patron) pair and of no other |
| Ledger.FindOpen | src/main/java/com/example/librarymanagementsystem/repository/BorrowingRecordRepository.java:22 | the query returns an open record of the pair with no earlier one before it, and returns nothing exactly when the pair has no open record |
| Ledger.Close | src/main/java/com/example/librarymanagementsystem/service/BorrowingService.java:56-57 | closing a record dates its return today, leaves it closed, changes none of its other fields and no other record |
| Ledger.WithoutPatron | src/main/java/com/example/librarymanagementsystem/entity/Patron.java:36-37 | the cascade keeps exactly the records of other patrons and never adds one |
| Ledger.AtMostOneOpenLoan | src/main/java/com/example/librarymanagementsystem/repository/BorrowingRecordRepository.java:22 | under the loan invariant two open records of a stored book are the same record, so the single-result query is well defined |
| Ledger.AvailableBookHasNoOpenRecord | src/main/java/com/example/librarymanagementsystem/serviceImpl/BorrowingServiceImpl.java:37-39 | under the loan invariant a stored book that is not borrowed has no open record |
| Ledger.NewLoanFoundByQuery | src/main/java/com/example/librarymanagementsystem/serviceImpl/BorrowingServiceImpl.java:42-45 | under the loan invariant, the record borrowBook appends for an available book is the one the open-record query of its pair then finds |
| Ledger.BorrowThenReturnRestores | src/main/java/com/example/librarymanagementsystem/serviceImpl/BorrowingServiceImpl.java:34-62 | borrowing an available book and returning it restores every book row, and the ledger keeps the record, closed on the return day |
| Ledger.ReturnedBookWasBorrowed | src/main/java/com/example/librarymanagementsystem/serviceImpl/BorrowingServiceImpl.java:59-61 | under the loan invariant the stored book of an open record is borrowed, so returnBook's flag reset always clears a set flag |
| Ledger.BorrowKeepsLoanInvariant | src/main/java/com/example/librarymanagementsystem/serviceImpl/BorrowingServiceImpl.java:42-45 | setting an available book's flag and appending its open record keeps the loan invariant |
| Ledger.ReturnKeepsLoanInvariant | src/main/java/com/example/librarymanagementsystem/serviceImpl/BorrowingServiceImpl.java:56-61 | closing an open record and clearing its stored book's flag keeps the loan invariant |
| Ledger.AddKeepsLoanInvariant | src/main/java/com/example/librarymanagementsystem/serviceImpl/BookServiceImpl.java:61-67 | a new, not borrowed book under a fresh id keeps the loan invariant |
| Ledger.CascadeKeepsLoanInvariant | src/main/java/com/example/librarymanagementsystem/entity/Patron.java:36-37 | deleting a patron without open loans, records included, keeps the loan invariant |
| Ledger.CascadeCanBreakLoanInvariant | src/main/java/com/example/librarymanagementsystem/entity/Patron.java:36-37 | there is a consistent state in which deleting a patron with an open loan leaves a book borrowed with no open record |
| Dto.ReceivedBookDto | src/main/java/com/example/librarymanagementsystem/dto/BookDTO.java:39-40 | whatever flag a client sends, a BookDTO read from JSON is not borrowed, and it agrees with the sent body on every other field |
| Dto.BookDto.Valid | src/main/java/com/example/librarymanagementsystem/dto/BookDTO.java:12-37 | a valid body has a non-empty title and author, no digit in the author, a year in 1700..2024 and an ISBN of three digits, a dash and ten digits |
| Dto.BookDtoRequest.Valid | src/main/java/com/example/librarymanagementsystem/dto/BookDTORequest.java:15-40 | BookDTORequest accepts exactly the bodies BookDTO accepts |
| Dto.PatronDto.Valid | src/main/java/com/example/librarymanagementsystem/dto/PatronDTO.java:9-26 | a valid body has a non-empty name without digits, a phone number of exactly ten digits and an e-mail address with a character above U+0020 |
| Dto.PatronDtoRequest.Valid | src/main/java/com/example/librarymanagementsystem/dto/PatronDTORequest.java:14-31 | PatronDTORequest accepts exactly the bodies PatronDTO accepts |
| Dto.WellFormedBookAccepted | src/main/java/com/example/librarymanagementsystem/dto/BookDTO.java:12-37 | a well-formed book body passes every constraint |
| Dto.EmptyTitleRejected | src/main/java/com/example/librarymanagementsystem/dto/BookDTO.java:12-17 | an empty title is refused |
| Dto.DigitInAuthorRejected | src/main/java/com/example/librarymanagementsystem/dto/BookDTO.java:19-24 | an author containing a digit is refused |
| Dto.LatePublicationYearRejected | src/main/java/com/example/librarymanagementsystem/dto/BookDTO.java:26-30 | a publication year after 2024 is refused |
| Dto.IsbnWithoutDashRejected | src/main/java/com/example/librarymanagementsystem/dto/BookDTO.java:32-37 | an ISBN without its dash is refused |
| Dto.WellFormedPatronAccepted | src/main/java/com/example/librarymanagementsystem/dto/PatronDTO.java:9-26 | a well-formed patron body passes every modelled constraint |
| Dto.EmptyNameRejected | src/main/java/com/example/librarymanagementsystem/dto/PatronDTO.java:9-14 | an empty name is refused |
| Dto.EmptyPhoneNumberRejected | src/main/java/com/example/librarymanagementsystem/dto/PatronDTO.java:16-21 | an empty phone number is refused |
| Mappers.ToBookDto | src/main/java/com/example/librarymanagementsystem/mapper/BookMapper.java:17-25 | the DTO carries the book's five columns, and it is valid exactly when the book's fields are |
| Mappers.ToBook | src/main/java/com/example/librarymanagementsystem/mapper/BookMapper.java:33-41 | a fresh book without id that maps back to the very DTO it came from |
| Mappers.CopyBookThroughDto | src/main/java/com/example/librarymanagementsystem/mapper/BookMapper.java:17-41 | the round trip entity → DTO → entity keeps every column and loses only the id |
| Mappers.ToPatronDto | src/main/java/com/example/librarymanagementsystem/mapper/PatronMapper.java:17-23 | the DTO carries the patron's three columns, and it is valid exactly when the patron's fields are |
| Mappers.ToPatron | src/main/java/com/example/librarymanagementsystem/mapper/PatronMapper.java:31-37 | a fresh patron without id that maps back to the very DTO it came from |
| Mappers.CopyPatronThroughDto | src/main/java/com/example/librarymanagementsystem/mapper/PatronMapper.java:17-37 | the round trip entity → DTO → entity keeps every column and loses only the id |
| Auth.GetAuthentication | src/main/java/com/example/librarymanagementsystem/service/AuthenticationService.java:27-33 | a request authenticates exactly when its X-ADMIN-KEY header is present and equals "ADMIN"; the token then carries that key, no authorities and the authenticated flag |
| Auth.LowerCaseKeyRefused | src/main/java/com/example/librarymanagementsystem/service/AuthenticationService.java:29 | the key comparison is case-sensitive: "admin" is refused |
| Store.EntityStore.SaveNewBook | src/main/java/com/example/librarymanagementsystem/entity/Book.java:22-24 | saving a new book gives it the next generated id and adds exactly that row; the store stays valid, so ids and ISBNs stay unique |
| Store.EntityStore.DeleteBookRow | src/main/java/com/example/librarymanagementsystem/serviceImpl/BookServiceImpl.java:93 | deleting a book removes exactly its row, keeps its records and the loan invariant |
| Store.EntityStore.SaveNewPatron | src/main/java/com/example/librarymanagementsystem/entity/Patron.java:13-15 | saving a new valid patron gives it the next generated id and adds exactly that row; book rows stay |
| Store.EntityStore.DeletePatronRow | src/main/java/com/example/librarymanagementsystem/serviceImpl/PatronServiceImpl.java:81-85 | deleting a patron removes exactly its row and leaves books and records alone |
| Store.EntityStore.DeleteRecordsOf | src/main/java/com/example/librarymanagementsystem/entity/Patron.java:36-37 | the cascade removes exactly the patron's records, and keeps the loan invariant when the patron held no open loan |
| Store.EntityStore.SetFlag | src/main/java/com/example/librarymanagementsystem/serviceImpl/BorrowingServiceImpl.java:43 | setting the flag on a stored book changes that book's flag column and nothing else |
| Store.EntityStore.SaveRecord | src/main/java/com/example/librarymanagementsystem/serviceImpl/BorrowingServiceImpl.java:45 | saving a new record appends it with the next generated id and leaves books and patrons alone |
| Store.EntityStore.CloseRecord | src/main/java/com/example/librarymanagementsystem/serviceImpl/BorrowingServiceImpl.java:56-57 | saving the record with its return date changes that record only |
| Store.EntityStore.RollBackLedger | src/main/java/com/example/librarymanagementsystem/serviceImpl/BorrowingServiceImpl.java:48 | a rolled-back transaction puts back the ledger it started from |
| Store.EntityStore.OneBookChanged | src/main/java/com/example/librarymanagementsystem/serviceImpl/BookServiceImpl.java:102-107 | setters on one stored book that keep its id and a unique ISBN change that book's row only and keep the store valid |
| Store.EntityStore.StoredBookCarriesId | src/main/java/com/example/librarymanagementsystem/serviceImpl/BookServiceImpl.java:37-39 | every stored book is found again under the id it carries |
| Catalog.BookService.GetAllBooks | src/main/java/com/example/librarymanagementsystem/serviceImpl/BookServiceImpl.java:37-39 | findAll returns exactly the stored books, each under its own id |
| Catalog.BookService.FindBook | src/main/java/com/example/librarymanagementsystem/serviceImpl/BookServiceImpl.java:49-52 | the store lookup: the stored book, or BookNotFound exactly when the id is not stored |
| Catalog.BookService.GetBookById | src/main/java/com/example/librarymanagementsystem/serviceImpl/BookServiceImpl.java:48-52 | through the cache the answer is still the stored book; a hit answers from the cache, a miss fills it, a failure leaves it alone |
| Catalog.BookService.AddBook | src/main/java/com/example/librarymanagementsystem/serviceImpl/BookServiceImpl.java:61-67 | invalid fields fail with a constraint violation, a taken ISBN with BookIsbnAlreadyExists, and either stores nothing; otherwise the book gets the next id and exactly its row is added; the loan invariant is kept for a book that is not borrowed |
| Catalog.BookService.UpdateBook | src/main/java/com/example/librarymanagementsystem/serviceImpl/BookServiceImpl.java:77-82 | BookNotFound, a constraint violation for invalid details, or the unique-key violation when another book holds the ISBN; on success only that book's four detail columns change, its flag stays, and the cache holds the saved book |
| Catalog.BookService.DeleteBook | src/main/java/com/example/librarymanagementsystem/serviceImpl/BookServiceImpl.java:90-94 | an unknown id fails and changes nothing; otherwise the book and its cache entry go, its records stay, and the loan invariant is kept |
| Catalog.BookService.UpdateBookDetails | src/main/java/com/example/librarymanagementsystem/serviceImpl/BookServiceImpl.java:102-107 | title, author, year and ISBN come from the details; id and flag stay |
| Catalog.BookService.Evict | src/main/java/com/example/librarymanagementsystem/serviceImpl/BookServiceImpl.java:90 | evicting drops exactly the entry of the id and keeps the cache consistent with the store |
| Catalog.BookService.Expire | src/main/java/com/example/librarymanagementsystem/configuration/CachingConfig.java:27-31 | dropping a cache entry keeps the cache consistent with the store |
| Membership.PatronService.GetAllPatrons | src/main/java/com/example/librarymanagementsystem/serviceImpl/PatronServiceImpl.java:31-34 | findAll returns exactly the stored patrons, each under its own id |
| Membership.PatronService.GetPatronEntityById | src/main/java/com/example/librarymanagementsystem/serviceImpl/PatronServiceImpl.java:106-109 | the stored patron, or PatronNotFound exactly when the id is not stored |
| Membership.PatronService.GetPatronById | src/main/java/com/example/librarymanagementsystem/serviceImpl/PatronServiceImpl.java:43-47 | a hit answers from the cache, even for a deleted patron; a miss answers from the store and fills the cache; a failure means the patron is neither cached nor stored |
| Membership.PatronService.AddPatron | src/main/java/com/example/librarymanagementsystem/serviceImpl/PatronServiceImpl.java:55-58 | a patron is stored exactly when its fields meet the constraints, under the next id, adding exactly its row; otherwise a constraint violation stores nothing |
| Membership.PatronService.UpdatePatron | src/main/java/com/example/librarymanagementsystem/serviceImpl/PatronServiceImpl.java:68-73 | PatronNotFound for an unknown id, a constraint violation for an invalid name or phone number; otherwise name and phone come from the details while the e-mail address keeps its stored value; the cache is untouched |
| Membership.PatronService.UpdatePatronDetails | src/main/java/com/example/librarymanagementsystem/serviceImpl/PatronServiceImpl.java:93-97 | name and phone from the details, e-mail address from the patron itself |
| Membership.PatronService.DeletePatron | src/main/java/com/example/librarymanagementsystem/serviceImpl/PatronServiceImpl.java:81-85 | PatronNotFound for an unknown id; otherwise the patron and, by the cascade, its records go; the cache is untouched; the loan invariant is kept when the patron had no open loan |
| Membership.PatronService.Expire | src/main/java/com/example/librarymanagementsystem/configuration/CachingConfig.java:27-31 | dropping a cache entry keeps the cache consistent with the store |
| Borrowing.BorrowingService.BorrowBook | src/main/java/com/example/librarymanagementsystem/serviceImpl/BorrowingServiceImpl.java:33-46 | the failures come in the source's order (BookNotFound, BookAlreadyBorrowed, PatronNotFound) and change no row; success happens exactly when all three checks pass, sets that one flag and appends one open record dated today with the next id; on every outcome the books cache gains the looked-up book when it is stored and the patrons cache gains the patron on a miss that finds it, and nothing else; the loan invariant is kept |
| Borrowing.BorrowingService.LendTo | src/main/java/com/example/librarymanagementsystem/serviceImpl/BorrowingServiceImpl.java:41-45 | PatronNotFound exactly when the patron is neither cached nor stored, writing nothing; otherwise the writes of a borrow; the patrons cache gains the patron only on a miss that finds it |
| Borrowing.BorrowingService.Lend | src/main/java/com/example/librarymanagementsystem/serviceImpl/BorrowingServiceImpl.java:42-45 | the writes of a borrow: one flag set, one open record appended, the books cache gains exactly that book, the loan invariant kept |
| Borrowing.BorrowingService.SaveFlag | src/main/java/com/example/librarymanagementsystem/serviceImpl/BorrowingServiceImpl.java:43-44 | setting the flag on the stored object and passing that object to updateBook changes only the flag, cannot hit the ISBN check, and caches the object |
| Borrowing.BorrowingService.SaveStored | src/main/java/com/example/librarymanagementsystem/serviceImpl/BookServiceImpl.java:77-82 | passing a stored book to updateBook as its own details always succeeds, changes no row and caches that book |
| Borrowing.BorrowingService.ReturnBook | src/main/java/com/example/librarymanagementsystem/service/BorrowingService.java:48-62 | BorrowingRecordNotFound when the pair has no open record; BookNotFound, with the record closing rolled back, when its book is gone; otherwise the found record is closed today, the flag cleared, the book cached and the loan invariant kept; the patrons cache never changes |
| Requests.AddBookFromBody | src/main/java/com/example/librarymanagementsystem/controller/BookController.java:63-70 | an invalid body fails with 400 and a taken ISBN with a conflict, storing nothing; otherwise exactly the sent fields are stored as a book lent to no one, the response echoes them, and the loan invariant is kept whatever flag the client sent |

## Left out

- Controllers other than the add-book path (`Requests.AddBookFromBody`), the security filter chain, the authentication filter and the logging aspect are not modelled; only the API-key decision is (`Auth`).
- The repositories are not modelled as interfaces: they are the store's maps and ledger; the JPA persistence context is the shared objects.
- The eviction order, expiry time and size bound of the Caffeine caches are not modelled; `Expire` lets any entry go at any time.
- Detached instances are not modelled: in the model a cached book or patron is the store's own object, so it reflects later updates. In the application a book cached by an earlier transaction is a detached copy.
- Lost flag: when borrowBook gets the book from the cache as a detached copy, `book.setBorrowed(true)` (BorrowingServiceImpl.java:43) lands on that copy; updateBook then re-reads the managed book through `this` (BookServiceImpl.java:79) and copies only title, author, year and ISBN onto it (BookServiceImpl.java:102-107), so the flag is not saved. returnBook is not affected: it takes the book from the record loaded in the same transaction, the managed object that updateBook re-reads. The model, with one shared object, does not show the lost flag.
- Repeat lending: after borrow(b, p1), return(b, p1) and borrow(b, p2) with b served from the cache, b can stay unflagged with an open record, and a further borrow(b, p3) opens a second record of the same book. The model cannot reach that state.
- Borrowing.BorrowingService.BorrowBook keeps the loan invariant only under the shared-object assumption above; with a detached cache entry the source's borrowBook can break it. returnBook and deleteBook read the book through the store, not the books cache, so they are not affected.
- BookDTORequest's JSON-ignored isBorrowed (BookDTORequest.java:42-43): no endpoint reads a BookDTORequest body, so reading one from JSON is not modelled; its constraints and its constructor (the datatype constructor) are.
- Catalog.BookService.AddBook: requires a book without id. An entity with an id would be merged by JPA, which is not modelled; the mappers always produce books without id.
- Membership.PatronService.AddPatron: requires a patron without id, for the same reason.
- Catalog.BookService.UpdateBook: on an ISBN clash or a constraint violation the model changes nothing; in the source the setters have already run on the entity object before the store rejects the save. Membership.PatronService.UpdatePatron is the same for a constraint violation.
- The constraint violation is one error: which field failed, and its message, are not modelled.
- Validation.ValidEmailAddress: states @NotBlank only; the @Email format check is not modelled.
- @NotNull and @JsonProperty(required) are not modelled: absent strings are not represented, and the no-argument constructors use "" where Java has null.
- Header names are matched exactly; HTTP header names are case-insensitive in the servlet API, and that is not modelled.
- Foreign-key constraints are not modelled: deleteBook of a book that has records succeeds here, and borrowBook with a patron that is only in the cache stores a record whose patron is gone.
- The query result size exception (more than one open record of a pair) is not modelled: the query returns the first. `Ledger.AtMostOneOpenLoan` shows that under the loan invariant there is never more than one.
- Borrow and return dates are day numbers; LocalDate and LocalDateTime are not distinguished, and "today" is a parameter.
- serviceImpl/BorrowingServiceImpl.java calls findByBookIdAndPatronIdAndReturnDateTimeIsNull and setReturnDateTime, which the repository and the record do not declare. The model follows service/BorrowingService.java, which uses the declared query and setReturnDate.
- service/BorrowingService.java and service/PatronService.java repeat the logic of their serviceImpl counterparts; one model covers both.
- BookMapper.toBookDTO and PatronMapper.toPatronDTO call all-fields constructors that BookDTO and PatronDTO do not declare; the model builds each DTO from those fields.
- BookAlreadyBorrowedException is annotated NOT_FOUND (404), while the borrowing controller's integration test expects CONFLICT (409). The model keeps the annotation (`Errors.Status`) and does not decide which is intended.
- Deleting a patron with an open loan leaves the book borrowed with no open record (`Ledger.CascadeCanBreakLoanInvariant`); the model records this and does not change the behaviour.
- Concurrency, transaction isolation and the cache's non-transactional timing across threads are not modelled.
