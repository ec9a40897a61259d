/**
 * BorrowingServiceImpl (and its duplicate, the class BorrowingService): the
 * borrow/return state machine over the books, the patrons and the ledger.
 * Both operations are @Transactional: a failure leaves the store as it was.
 * The caches are not transactional, so a failing borrow may still have
 * filled a cache entry.
 */
module Borrowing {
  import opened Wrappers
  import opened Errors
  import opened Entities
  import opened Ledger
  import opened Store
  import opened Catalog
  import opened Membership

  /** Storing under a key the value it already holds leaves the map as it was. */
  lemma UpdateWithSameValue<K, V>(m: map<K, V>, k: K, v: V)
    requires k in m && m[k] == v
    ensures m[k := v] == m
  {
  }

  class BorrowingService {
    const store: EntityStore
    const books: BookService
    const patrons: PatronService

    ghost predicate Valid()
      reads this, books, patrons, store, store.books.Values, store.patrons.Values
    {
      books.store == store && patrons.store == store && books.Valid() && patrons.Valid()
    }

    constructor (books: BookService, patrons: PatronService)
      requires books.store == patrons.store && books.Valid() && patrons.Valid()
      ensures Valid() && this.books == books && this.patrons == patrons && store == books.store
    {
      this.store := books.store;
      this.books := books;
      this.patrons := patrons;
    }

    /**
     * borrowBook checks, in this order: the book exists (through the books
     * cache), it is not borrowed, the patron exists (through the patrons
     * cache). Only then does it write: the flag is set on the book object
     * the lookup returned, updateBook saves it and puts it in the cache, and
     * one open record of the pair, dated today, is appended to the ledger.
     */
    method BorrowBook(bookId: int, patronId: int, today: int) returns (result: Result<(), Error>)
      requires Valid()
      modifies books, patrons, store, store.books.Values
      ensures Valid()
      ensures bookId !in old(store.books) ==> result == Failure(BookNotFound(bookId))
      ensures bookId in old(store.books) && old(store.books[bookId].borrowed) ==> result == Failure(BookAlreadyBorrowed(bookId))
      ensures bookId in old(store.books) && !old(store.books[bookId].borrowed)
              && patronId !in old(patrons.cache) && patronId !in old(store.patrons)
              ==> result == Failure(PatronNotFound(patronId))
      ensures result.Success? <==> bookId in old(store.books) && !old(store.books[bookId].borrowed)
                                   && (patronId in old(patrons.cache) || patronId in old(store.patrons))
      ensures store.books == old(store.books) && store.patrons == old(store.patrons)
      ensures store.nextBookId == old(store.nextBookId) && store.nextPatronId == old(store.nextPatronId)
      ensures result.Failure? ==> store.Rows() == old(store.Rows()) && store.records == old(store.records)
      ensures result.Failure? ==> store.nextRecordId == old(store.nextRecordId)
      ensures result.Success? ==> store.Rows() == old(store.Rows())[bookId := old(store.Rows())[bookId].(borrowed := true)]
      ensures result.Success? ==> store.records == old(store.records) + [BorrowingRecord(Some(old(store.nextRecordId)), bookId, patronId, today, None)]
      ensures result.Success? ==> store.nextRecordId == old(store.nextRecordId) + 1
      ensures result.Success? ==> store.books[bookId].borrowed
      ensures books.cache == if bookId in old(store.books) then old(books.cache)[bookId := old(store.books)[bookId]] else old(books.cache)
      ensures patrons.cache == if bookId in old(store.books) && !old(store.books[bookId].borrowed)
                                  && patronId !in old(patrons.cache) && patronId in old(store.patrons)
                               then old(patrons.cache)[patronId := old(store.patrons)[patronId]]
                               else old(patrons.cache)
      ensures old(store.LoansConsistent()) ==> store.LoansConsistent()
    {
      ghost var rows0 := store.Rows();
      var found := books.GetBookById(bookId);
      assert store.Rows() == rows0 && patrons.Valid();
      if found.Failure? {
        return Failure(found.error);
      }
      var book := found.value;
      if book.borrowed {
        return Failure(BookAlreadyBorrowed(bookId));
      }
      result := LendTo(book, bookId, patronId, today);
    }

    /**
     * The rest of borrowBook once the book has been found free: the patron
     * lookup through the patrons cache, then the writes.
     */
    method LendTo(book: Book, bookId: int, patronId: int, today: int) returns (result: Result<(), Error>)
      requires Valid() && bookId in store.books && store.books[bookId] == book && !book.borrowed
      modifies books, patrons, store, store.books.Values
      ensures Valid()
      ensures result.Success? <==> patronId in old(patrons.cache) || patronId in old(store.patrons)
      ensures result.Failure? ==> result == Failure(PatronNotFound(patronId))
      ensures store.books == old(store.books) && store.patrons == old(store.patrons)
      ensures store.nextBookId == old(store.nextBookId) && store.nextPatronId == old(store.nextPatronId)
      ensures result.Failure? ==> store.Rows() == old(store.Rows()) && store.records == old(store.records)
      ensures result.Failure? ==> store.nextRecordId == old(store.nextRecordId) && books.cache == old(books.cache)
      ensures result.Success? ==> store.Rows() == old(store.Rows())[bookId := old(store.Rows())[bookId].(borrowed := true)]
      ensures result.Success? ==> store.records == old(store.records) + [BorrowingRecord(Some(old(store.nextRecordId)), bookId, patronId, today, None)]
      ensures result.Success? ==> store.nextRecordId == old(store.nextRecordId) + 1
      ensures result.Success? ==> books.cache == old(books.cache)[bookId := book] && book.borrowed
      ensures patrons.cache == if patronId !in old(patrons.cache) && patronId in old(store.patrons)
                               then old(patrons.cache)[patronId := old(store.patrons)[patronId]]
                               else old(patrons.cache)
      ensures old(store.LoansConsistent()) ==> store.LoansConsistent()
    {
      var holder := patrons.GetPatronById(patronId);
      if holder.Failure? {
        return Failure(holder.error);
      }
      Lend(book, bookId, patronId, today);
      result := Success(());
    }

    /**
     * The writes of borrowBook, once every check has passed: a new open
     * record, the flag set on the looked-up book object, that object saved
     * and cached by updateBook, and the record saved with a generated id.
     */
    method Lend(book: Book, bookId: int, patronId: int, today: int)
      requires Valid() && bookId in store.books && store.books[bookId] == book && !book.borrowed
      modifies books, store, store.books.Values
      ensures Valid()
      ensures store.books == old(store.books) && store.patrons == old(store.patrons)
      ensures store.nextBookId == old(store.nextBookId) && store.nextPatronId == old(store.nextPatronId)
      ensures store.Rows() == old(store.Rows())[bookId := old(store.Rows())[bookId].(borrowed := true)]
      ensures store.records == old(store.records) + [BorrowingRecord(Some(old(store.nextRecordId)), bookId, patronId, today, None)]
      ensures store.nextRecordId == old(store.nextRecordId) + 1
      ensures books.cache == old(books.cache)[bookId := book] && book.borrowed
      ensures old(store.LoansConsistent()) ==> store.LoansConsistent()
    {
      ghost var rows0, records0 := store.Rows(), store.records;
      var record := Opening(bookId, patronId, today);
      SaveFlag(book, bookId, true);
      var r := store.SaveRecord(record);
      if LoanInvariant(rows0, records0) {
        BorrowKeepsLoanInvariant(rows0, records0, r);
      }
    }

    /**
     * book.setBorrowed(flag) on the stored book object, then
     * bookService.updateBook(bookId, book): the object is its own details,
     * so only the flag changes, and the saved object is put in the cache.
     */
    method SaveFlag(book: Book, bookId: int, flag: bool)
      requires Valid() && bookId in store.books && store.books[bookId] == book
      modifies books, store.books.Values
      ensures Valid()
      ensures store.Rows() == old(store.Rows())[bookId := old(store.Rows())[bookId].(borrowed := flag)]
      ensures books.cache == old(books.cache)[bookId := book] && book.borrowed == flag
    {
      store.SetFlag(bookId, flag);
      SaveStored(book, bookId);
    }

    /**
     * bookService.updateBook(bookId, book) with the stored object itself as
     * the details: the stored book meets the constraints and keeps its
     * unique ISBN, so the update succeeds, every row stays as it is, and
     * the object is put in the cache.
     */
    method SaveStored(book: Book, bookId: int)
      requires Valid() && bookId in store.books && store.books[bookId] == book
      modifies books, store.books.Values
      ensures Valid()
      ensures store.Rows() == old(store.Rows())
      ensures books.cache == old(books.cache)[bookId := book]
    {
      store.StoredBookMeetsConstraints(bookId);
      ghost var rows, row := store.Rows(), book.Row();
      assert rows[bookId] == row;
      var saved := books.UpdateBook(bookId, book);
      assert saved.Success?;
      assert store.Rows() == rows[bookId := row];
      UpdateWithSameValue(rows, bookId, row);
    }

    /**
     * returnBook trusts the ledger: it looks up the open record of the pair,
     * closes it today and saves it, then clears the flag of the record's
     * book and saves that through updateBook. It never reads the flag and
     * never looks the patron up. When the record's book is no longer stored,
     * updateBook fails and the transaction undoes the closing.
     */
    method ReturnBook(bookId: int, patronId: int, today: int) returns (result: Result<(), Error>)
      requires Valid()
      modifies books, store, store.books.Values
      ensures Valid()
      ensures FindOpen(old(store.records), bookId, patronId).None? ==> result == Failure(BorrowingRecordNotFound(bookId, patronId))
      ensures FindOpen(old(store.records), bookId, patronId).Some? && bookId !in old(store.books) ==> result == Failure(BookNotFound(bookId))
      ensures result.Success? <==> FindOpen(old(store.records), bookId, patronId).Some? && bookId in old(store.books)
      ensures store.books == old(store.books) && store.patrons == old(store.patrons)
      ensures store.nextBookId == old(store.nextBookId) && store.nextPatronId == old(store.nextPatronId)
      ensures store.nextRecordId == old(store.nextRecordId)
      ensures result.Failure? ==> store.Rows() == old(store.Rows()) && store.records == old(store.records) && books.cache == old(books.cache)
      ensures result.Success? ==> store.records == Close(old(store.records), FindOpen(old(store.records), bookId, patronId).value, today)
      ensures result.Success? ==> store.Rows() == old(store.Rows())[bookId := old(store.Rows())[bookId].(borrowed := false)]
      ensures result.Success? ==> books.cache == old(books.cache)[bookId := store.books[bookId]]
      ensures patrons.cache == old(patrons.cache)
      ensures old(store.LoansConsistent()) ==> store.LoansConsistent()
    {
      var found := FindOpen(store.records, bookId, patronId);
      if found.None? {
        return Failure(BorrowingRecordNotFound(bookId, patronId));
      }
      var i := found.value;
      var before := store.records;
      store.CloseRecord(i, today);
      if bookId !in store.books {
        store.RollBackLedger(before);
        return Failure(BookNotFound(bookId));
      }
      var book := store.books[bookId];
      ghost var rows0 := old(store.Rows());
      SaveFlag(book, bookId, false);
      if LoanInvariant(rows0, before) {
        ReturnKeepsLoanInvariant(rows0, before, i, today);
      }
      result := Success(());
    }
  }
}
