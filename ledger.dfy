/**
 * The borrowing ledger: BorrowingRecord rows, the repository's open-record
 * query, and the invariant that ties the ledger to the books' borrowed flags.
 * Dates are day numbers; "today" is always a parameter.
 */
module Ledger {
  import opened Wrappers
  import opened Entities

  /**
   * A borrowing record. The record refers to its book and its patron through
   * their ids (the two foreign-key columns). It is open while it has no
   * return date.
   */
  datatype BorrowingRecord = BorrowingRecord(id: Option<int>, bookId: int, patronId: int, borrowDate: int, returnDate: Option<int>)
  {
    predicate IsOpen() {
      returnDate.None?
    }
  }

  /** An open record of the given book and patron. */
  predicate MatchesOpen(r: BorrowingRecord, bookId: int, patronId: int) {
    r.bookId == bookId && r.patronId == patronId && r.IsOpen()
  }

  /**
   * The two-argument record constructor: borrowed today and not yet returned,
   * so the new record answers the open-record query of its own pair and of
   * no other. Its id is generated when it is saved.
   */
  function Opening(bookId: int, patronId: int, today: int): (r: BorrowingRecord)
    ensures r.id.None? && r.borrowDate == today
    ensures forall b, p :: MatchesOpen(r, b, p) <==> b == bookId && p == patronId
  {
    BorrowingRecord(None, bookId, patronId, today, None)
  }

  /**
   * The query findByBookIdAndPatronIdAndReturnDateIsNull: the position of
   * the first open record of the pair, or None when the pair has none.
   */
  function FindOpen(records: seq<BorrowingRecord>, bookId: int, patronId: int): (found: Option<nat>)
    ensures found.Some? ==> found.value < |records| && MatchesOpen(records[found.value], bookId, patronId)
    ensures found.Some? ==> forall j | 0 <= j < found.value :: !MatchesOpen(records[j], bookId, patronId)
    ensures found.None? <==> forall j | 0 <= j < |records| :: !MatchesOpen(records[j], bookId, patronId)
  {
    if |records| == 0 then None
    else if MatchesOpen(records[0], bookId, patronId) then Some(0)
    else
      match FindOpen(records[1..], bookId, patronId)
      case None => None
      case Some(i) => Some(i + 1)
  }

  /** setReturnDate(today) on the record at position i, then save. */
  function Close(records: seq<BorrowingRecord>, i: nat, today: int): (closed: seq<BorrowingRecord>)
    requires i < |records|
    ensures |closed| == |records| && !closed[i].IsOpen() && closed[i].returnDate == Some(today)
    ensures closed[i].(returnDate := records[i].returnDate) == records[i]
    ensures forall j | 0 <= j < |records| && j != i :: closed[j] == records[j]
  {
    records[i := records[i].(returnDate := Some(today))]
  }

  /** The patron has no open record in the ledger. */
  predicate HoldsNoLoan(records: seq<BorrowingRecord>, patronId: int) {
    forall i | 0 <= i < |records| && records[i].patronId == patronId :: !records[i].IsOpen()
  }

  /** The number of open records of a book. */
  function OpenCount(records: seq<BorrowingRecord>, bookId: int): nat {
    if |records| == 0 then 0
    else (if records[0].bookId == bookId && records[0].IsOpen() then 1 else 0) + OpenCount(records[1..], bookId)
  }

  /**
   * The records left after deleting a patron: Patron.borrowingRecords is
   * mapped with CascadeType.ALL, so the patron's records are deleted with it.
   */
  function WithoutPatron(records: seq<BorrowingRecord>, patronId: int): (kept: seq<BorrowingRecord>)
    ensures forall r :: r in kept <==> r in records && r.patronId != patronId
    ensures |kept| <= |records|
  {
    if |records| == 0 then []
    else if records[0].patronId == patronId then WithoutPatron(records[1..], patronId)
    else [records[0]] + WithoutPatron(records[1..], patronId)
  }

  /**
   * The cross-entity invariant: a stored book is borrowed exactly when it
   * has one open record, and has none otherwise.
   */
  ghost predicate LoanInvariant(books: map<int, BookRow>, records: seq<BorrowingRecord>) {
    forall k | k in books :: OpenCount(records, k) == (if books[k].borrowed then 1 else 0)
  }

  lemma {:induction false} OpenCountConcat(a: seq<BorrowingRecord>, c: seq<BorrowingRecord>, bookId: int)
    ensures OpenCount(a + c, bookId) == OpenCount(a, bookId) + OpenCount(c, bookId)
    decreases |a|
  {
    if |a| == 0 {
      assert a + c == c;
    } else {
      assert (a + c)[1..] == a[1..] + c;
      OpenCountConcat(a[1..], c, bookId);
    }
  }

  /** Closing an open record takes exactly one open record away from its book. */
  lemma {:induction false} OpenCountClose(records: seq<BorrowingRecord>, i: nat, today: int, bookId: int)
    requires i < |records| && records[i].IsOpen()
    ensures OpenCount(Close(records, i, today), bookId)
         == OpenCount(records, bookId) - (if records[i].bookId == bookId then 1 else 0)
    decreases i
  {
    var closed := Close(records, i, today);
    if i == 0 {
      assert closed[1..] == records[1..];
    } else {
      assert closed[1..] == Close(records[1..], i - 1, today);
      OpenCountClose(records[1..], i - 1, today, bookId);
    }
  }

  /** An open record is counted for its book. */
  lemma {:induction false} OpenRecordCounted(records: seq<BorrowingRecord>, i: nat)
    requires i < |records| && records[i].IsOpen()
    ensures OpenCount(records, records[i].bookId) >= 1
    decreases i
  {
    if i > 0 {
      OpenRecordCounted(records[1..], i - 1);
    }
  }

  /** Two different open records of one book count twice. */
  lemma {:induction false} TwoOpenRecordsCountTwice(records: seq<BorrowingRecord>, i: nat, j: nat)
    requires i < j < |records|
    requires records[i].IsOpen() && records[j].IsOpen() && records[i].bookId == records[j].bookId
    ensures OpenCount(records, records[i].bookId) >= 2
    decreases i
  {
    if i == 0 {
      OpenRecordCounted(records[1..], j - 1);
    } else {
      TwoOpenRecordsCountTwice(records[1..], i - 1, j - 1);
    }
  }

  /** A book no record refers to has no open record. */
  lemma {:induction false} UnreferencedBookUncounted(records: seq<BorrowingRecord>, bookId: int)
    requires forall i | 0 <= i < |records| :: records[i].bookId != bookId
    ensures OpenCount(records, bookId) == 0
    decreases |records|
  {
    if |records| > 0 {
      UnreferencedBookUncounted(records[1..], bookId);
    }
  }

  /** When none of a patron's records is open, the cascade keeps every open count. */
  lemma {:induction false} OpenCountWithoutPatron(records: seq<BorrowingRecord>, patronId: int, bookId: int)
    requires HoldsNoLoan(records, patronId)
    ensures OpenCount(WithoutPatron(records, patronId), bookId) == OpenCount(records, bookId)
    decreases |records|
  {
    if |records| > 0 {
      OpenCountWithoutPatron(records[1..], patronId, bookId);
      if records[0].patronId != patronId {
        OpenCountConcat([records[0]], WithoutPatron(records[1..], patronId), bookId);
      }
    }
  }

  /**
   * Under the invariant the repository query has at most one candidate per
   * stored book: two open records of a stored book are the same record.
   */
  lemma AtMostOneOpenLoan(books: map<int, BookRow>, records: seq<BorrowingRecord>, i: nat, j: nat)
    requires LoanInvariant(books, records)
    requires i < |records| && j < |records| && records[i].bookId in books
    requires records[i].IsOpen() && records[j].IsOpen() && records[i].bookId == records[j].bookId
    ensures i == j
  {
    if i < j {
      TwoOpenRecordsCountTwice(records, i, j);
    } else if j < i {
      TwoOpenRecordsCountTwice(records, j, i);
    }
  }

  /** Under the invariant a book that is not borrowed has no open record. */
  lemma AvailableBookHasNoOpenRecord(books: map<int, BookRow>, records: seq<BorrowingRecord>, bookId: int, i: nat)
    requires LoanInvariant(books, records)
    requires bookId in books && !books[bookId].borrowed
    requires i < |records| && records[i].bookId == bookId
    ensures !records[i].IsOpen()
  {
    if records[i].IsOpen() {
      OpenRecordCounted(records, i);
    }
  }

  /**
   * Under the invariant, the open record appended for a book that was not
   * borrowed is the one the open-record query of its pair then finds.
   */
  lemma NewLoanFoundByQuery(books: map<int, BookRow>, records: seq<BorrowingRecord>, r: BorrowingRecord, all: seq<BorrowingRecord>)
    requires LoanInvariant(books, records)
    requires r.bookId in books && !books[r.bookId].borrowed && r.IsOpen() && all == records + [r]
    ensures FindOpen(all, r.bookId, r.patronId) == Some(|records|)
  {
    forall j | 0 <= j < |records|
      ensures !MatchesOpen(all[j], r.bookId, r.patronId)
    {
      assert all[j] == records[j];
      if records[j].bookId == r.bookId {
        AvailableBookHasNoOpenRecord(books, records, r.bookId, j);
      }
    }
    assert MatchesOpen(all[|records|], r.bookId, r.patronId);
  }

  /**
   * Borrowing an available book and returning it on the same day: the
   * borrow sets the flag and appends an open record, the return finds that
   * record, closes it and clears the flag. Every book row is as before and
   * the ledger keeps the record, now closed.
   */
  lemma BorrowThenReturnRestores(books: map<int, BookRow>, records: seq<BorrowingRecord>, r: BorrowingRecord, today: int)
    requires LoanInvariant(books, records)
    requires r.bookId in books && !books[r.bookId].borrowed && r.IsOpen()
    ensures var lent := books[r.bookId := books[r.bookId].(borrowed := true)];
            var i := FindOpen(records + [r], r.bookId, r.patronId);
            && i.Some?
            && lent[r.bookId := lent[r.bookId].(borrowed := false)] == books
            && Close(records + [r], i.value, today) == records + [r.(returnDate := Some(today))]
  {
    NewLoanFoundByQuery(books, records, r, records + [r]);
  }

  /** Under the invariant the book of an open record, when stored, is borrowed. */
  lemma ReturnedBookWasBorrowed(books: map<int, BookRow>, records: seq<BorrowingRecord>, i: nat)
    requires LoanInvariant(books, records)
    requires i < |records| && records[i].IsOpen() && records[i].bookId in books
    ensures books[records[i].bookId].borrowed
  {
    OpenRecordCounted(records, i);
  }

  /** Borrowing an available book and appending an open record for it keeps the invariant. */
  lemma BorrowKeepsLoanInvariant(books: map<int, BookRow>, records: seq<BorrowingRecord>, r: BorrowingRecord)
    requires LoanInvariant(books, records)
    requires r.bookId in books && !books[r.bookId].borrowed && r.IsOpen()
    ensures LoanInvariant(books[r.bookId := books[r.bookId].(borrowed := true)], records + [r])
  {
    forall k | k in books
      ensures OpenCount(records + [r], k) == OpenCount(records, k) + (if k == r.bookId then 1 else 0)
    {
      OpenCountConcat(records, [r], k);
    }
  }

  /** Closing the open record of a stored book and clearing its flag keeps the invariant. */
  lemma ReturnKeepsLoanInvariant(books: map<int, BookRow>, records: seq<BorrowingRecord>, i: nat, today: int)
    requires LoanInvariant(books, records)
    requires i < |records| && records[i].IsOpen() && records[i].bookId in books
    ensures LoanInvariant(books[records[i].bookId := books[records[i].bookId].(borrowed := false)], Close(records, i, today))
  {
    ReturnedBookWasBorrowed(books, records, i);
    forall k | k in books
      ensures OpenCount(Close(records, i, today), k) == OpenCount(records, k) - (if k == records[i].bookId then 1 else 0)
    {
      OpenCountClose(records, i, today, k);
    }
  }

  /** Storing a book that is not borrowed under an id no record refers to keeps the invariant. */
  lemma AddKeepsLoanInvariant(books: map<int, BookRow>, records: seq<BorrowingRecord>, id: int, row: BookRow)
    requires LoanInvariant(books, records) && !row.borrowed
    requires forall i | 0 <= i < |records| :: records[i].bookId != id
    ensures LoanInvariant(books[id := row], records)
  {
    UnreferencedBookUncounted(records, id);
  }

  /** Deleting a stored book keeps the invariant: its records stay, but it is no longer checked. */
  lemma DeleteKeepsLoanInvariant(books: map<int, BookRow>, records: seq<BorrowingRecord>, id: int)
    requires LoanInvariant(books, records)
    ensures LoanInvariant(books - {id}, records)
  {
  }

  /** The cascade of a patron with no open record keeps the invariant. */
  lemma CascadeKeepsLoanInvariant(books: map<int, BookRow>, records: seq<BorrowingRecord>, patronId: int)
    requires LoanInvariant(books, records)
    requires HoldsNoLoan(records, patronId)
    ensures LoanInvariant(books, WithoutPatron(records, patronId))
  {
    forall k | k in books
      ensures OpenCount(WithoutPatron(records, patronId), k) == OpenCount(records, k)
    {
      OpenCountWithoutPatron(records, patronId, k);
    }
  }

  /**
   * Deleting a patron who holds a book breaks the invariant: the cascade
   * removes the open record, while the book keeps its borrowed flag, so the
   * book can neither be returned nor borrowed again.
   */
  lemma CascadeCanBreakLoanInvariant()
    ensures exists books: map<int, BookRow>, records: seq<BorrowingRecord>, patronId: int ::
      LoanInvariant(books, records) && !LoanInvariant(books, WithoutPatron(records, patronId))
  {
    var books := map[1 := BookRow("Dune", "Frank Herbert", 1965, "123-1111111111", true)];
    var records := [BorrowingRecord(Some(1), 1, 7, 0, None)];
    assert OpenCount(records, 1) == 1 by {
      assert records[1..] == [];
    }
    assert WithoutPatron(records, 7) == [] by {
      assert records[1..] == [];
    }
    assert LoanInvariant(books, records);
    assert !LoanInvariant(books, WithoutPatron(records, 7));
  }
}
