/**
 * BookServiceImpl: the book operations over the store and the "books" cache.
 *
 * The cache annotations have their Spring meaning. A call from another bean
 * goes through the proxy: getBookById is @Cacheable, updateBook is
 * @CachePut and deleteBook is @CacheEvict, all keyed by the book id. The
 * calls updateBook and deleteBook make to getBookById go through `this`,
 * bypass the proxy, and so read the store (FindBook below).
 */
module Catalog {
  import opened Wrappers
  import opened Errors
  import opened Validation
  import opened Entities
  import opened Ledger
  import opened Store

  class BookService {
    const store: EntityStore
    /** The "books" cache. Its entries are the store's own objects (see Entities.Book). */
    var cache: map<int, Book>

    ghost predicate Valid()
      reads this, store, store.books.Values, store.patrons.Values
    {
      store.Valid() &&
      forall k | k in cache :: k in store.books && cache[k] == store.books[k]
    }

    constructor (store: EntityStore)
      requires store.Valid()
      ensures Valid() && this.store == store && cache == map[]
    {
      this.store := store;
      cache := map[];
    }

    /** getAllBooks: every stored book, each under the id it carries. */
    method GetAllBooks() returns (all: set<Book>)
      requires Valid()
      ensures forall k | k in store.books :: store.books[k] in all
      ensures forall b | b in all :: b.id.Some? && b.id.value in store.books && store.books[b.id.value] == b
    {
      all := store.books.Values;
      forall b | b in all
        ensures b.id.Some? && b.id.value in store.books && store.books[b.id.value] == b
      {
        store.StoredBookCarriesId(b);
      }
    }

    /** The body of getBookById, as reached through `this`: the store decides. */
    method FindBook(id: int) returns (result: Result<Book, Error>)
      ensures result.Success? <==> id in store.books
      ensures result.Success? ==> result.value == store.books[id]
      ensures result.Failure? ==> result.error == BookNotFound(id)
    {
      if id in store.books {
        result := Success(store.books[id]);
      } else {
        result := Failure(BookNotFound(id));
      }
    }

    /**
     * getBookById through the proxy: a cached id is answered from the cache,
     * a miss reads the store and caches what it finds, a failure caches
     * nothing. Either way the answer is the stored book.
     */
    method GetBookById(id: int) returns (result: Result<Book, Error>)
      requires Valid()
      modifies this
      ensures Valid()
      ensures id in old(cache) ==> result == Success(old(cache)[id])
      ensures result.Success? <==> id in store.books
      ensures result.Success? ==> result.value == store.books[id] && cache == old(cache)[id := result.value]
      ensures result.Failure? ==> result.error == BookNotFound(id) && cache == old(cache)
    {
      if id in cache {
        return Success(cache[id]);
      }
      result := FindBook(id);
      if result.Success? {
        cache := cache[id := result.value];
      }
    }

    /**
     * addBook: the store checks the entity constraints before the insert,
     * then generates the id and keeps the very object it was given. A clash
     * on the unique ISBN column is reported as BookIsbnAlreadyExists. Either
     * failure stores nothing.
     */
    method AddBook(book: Book) returns (result: Result<Book, Error>)
      requires Valid() && book.id.None?
      modifies store, book
      ensures Valid()
      ensures !old(book.HasValidFields()) ==> result == Failure(ConstraintViolation)
      ensures old(book.HasValidFields()) && old(store.IsbnTaken(book.isbn, None)) ==> result == Failure(BookIsbnAlreadyExists)
      ensures result.Success? <==> old(book.HasValidFields()) && !old(store.IsbnTaken(book.isbn, None))
      ensures result.Failure? ==> book.id.None? && store.books == old(store.books) && store.nextBookId == old(store.nextBookId)
      ensures result.Success? ==> result.value == book && book.id == Some(old(store.nextBookId))
      ensures result.Success? ==> store.books == old(store.books)[book.id.value := book] && store.nextBookId == old(store.nextBookId) + 1
      ensures book.Row() == old(book.Row())
      ensures store.Rows() == if result.Success? then old(store.Rows())[book.id.value := book.Row()] else old(store.Rows())
      ensures store.patrons == old(store.patrons) && store.records == old(store.records)
      ensures store.nextPatronId == old(store.nextPatronId) && store.nextRecordId == old(store.nextRecordId)
      ensures old(store.LoansConsistent()) && !book.borrowed ==> store.LoansConsistent()
    {
      if !book.HasValidFields() {
        return Failure(ConstraintViolation);
      }
      if store.IsbnTaken(book.isbn, None) {
        return Failure(BookIsbnAlreadyExists);
      }
      ghost var rows := store.Rows();
      var id := store.SaveNewBook(book);
      if LoanInvariant(rows, store.records) && !book.borrowed {
        AddKeepsLoanInvariant(rows, store.records, id, book.Row());
      }
      result := Success(book);
    }

    /**
     * updateBook: re-reads the stored book through `this`, copies the four
     * detail fields onto it and saves it; the saved book is then put in the
     * cache. Before the update the store checks the entity constraints on
     * the new values, and then the unique ISBN column rejects a clash with
     * another book; neither exception is caught, and nothing changes.
     */
    method UpdateBook(id: int, details: Book) returns (result: Result<Book, Error>)
      requires Valid()
      modifies this, store.books.Values
      ensures Valid()
      ensures result.Success? <==> id in store.books && old(ValidBookFields(details.title, details.author, details.publicationYear, details.isbn))
                                   && !old(store.IsbnTaken(details.isbn, Some(id)))
      ensures id !in store.books ==> result == Failure(BookNotFound(id))
      ensures id in store.books && !old(ValidBookFields(details.title, details.author, details.publicationYear, details.isbn)) ==>
                result == Failure(ConstraintViolation)
      ensures id in store.books && old(ValidBookFields(details.title, details.author, details.publicationYear, details.isbn)) &&
              old(store.IsbnTaken(details.isbn, Some(id))) ==>
                result == Failure(DataIntegrityViolation)
      ensures result.Failure? ==> cache == old(cache) && store.Rows() == old(store.Rows())
      ensures result.Success? ==> result.value == store.books[id] && cache == old(cache)[id := result.value]
      ensures result.Success? ==> store.Rows() == old(store.Rows())[id := old(store.Rows()[id]).(
                title := old(details.title), author := old(details.author),
                publicationYear := old(details.publicationYear), isbn := old(details.isbn))]
    {
      var found := FindBook(id);
      if found.Failure? {
        return found;
      }
      var book := found.value;
      if !ValidBookFields(details.title, details.author, details.publicationYear, details.isbn) {
        return Failure(ConstraintViolation);
      }
      if store.IsbnTaken(details.isbn, Some(id)) {
        return Failure(DataIntegrityViolation);
      }
      // @CachePut stores the saved object itself, so putting it before the
      // setters run leaves the same entry as putting it after the save.
      cache := cache[id := book];
      assert forall k | k in store.books && k != id :: store.books[k] != book;
      UpdateBookDetails(book, details);
      store.OneBookChanged(id);
      result := Success(book);
    }

    /**
     * deleteBook: looks the book up through `this`, deletes it and evicts
     * the cache entry. The borrowed flag is not inspected, and the book's
     * records stay in the ledger.
     */
    method DeleteBook(id: int) returns (result: Result<(), Error>)
      requires Valid()
      modifies this, store
      ensures Valid()
      ensures result.Success? <==> id in old(store.books)
      ensures result.Failure? ==> result.error == BookNotFound(id) && store.books == old(store.books) && cache == old(cache)
      ensures result.Success? ==> store.books == old(store.books) - {id} && cache == old(cache) - {id}
      ensures store.patrons == old(store.patrons) && store.records == old(store.records)
      ensures store.nextBookId == old(store.nextBookId) && store.nextPatronId == old(store.nextPatronId)
      ensures store.nextRecordId == old(store.nextRecordId)
      ensures old(store.LoansConsistent()) ==> store.LoansConsistent()
    {
      var found := FindBook(id);
      if found.Failure? {
        return Failure(found.error);
      }
      Evict(id);
      store.DeleteBookRow(id);
      result := Success(());
    }

    /** @CacheEvict on the "books" cache: the entry under the id is dropped. */
    method Evict(id: int)
      requires Valid()
      modifies this
      ensures Valid() && cache == old(cache) - {id}
    {
      cache := cache - {id};
    }

    /** updateBookDetails: copies title, author, publicationYear and isbn; id and borrowed stay. */
    method UpdateBookDetails(book: Book, details: Book)
      modifies book
      ensures book.id == old(book.id)
      ensures book.Row() == old(book.Row()).(title := old(details.title), author := old(details.author),
                                              publicationYear := old(details.publicationYear), isbn := old(details.isbn))
    {
      book.title := details.title;
      book.author := details.author;
      book.publicationYear := details.publicationYear;
      book.isbn := details.isbn;
    }

    /** The cache may drop any entry at any time (expiry and the size bound). */
    method Expire(id: int)
      requires Valid()
      modifies this
      ensures Valid() && cache == old(cache) - {id}
    {
      cache := cache - {id};
    }
  }
}
