/**
 * The three JPA repositories as one store: books and patrons by id, and the
 * ledger of borrowing records in insertion order. Ids are generated by
 * counters (GenerationType.IDENTITY) and are never reused.
 */
module Store {
  import opened Wrappers
  import opened Entities
  import opened Ledger

  /** A key under which a map holds a given value. */
  ghost function KeyOf<K, V>(m: map<K, V>, v: V): (k: K)
    requires v in m.Values
    ensures k in m && m[k] == v
  {
    var k :| k in m && m[k] == v; k
  }

  class EntityStore {
    var books: map<int, Book>
    var patrons: map<int, Patron>
    var records: seq<BorrowingRecord>
    var nextBookId: int
    var nextPatronId: int
    var nextRecordId: int

    /**
     * Every stored entity carries the id it is stored under, below the next
     * generated id, and meets the field constraints of its class (they are
     * checked before every insert and update); ISBNs are unique (the column
     * is unique); every record refers to a book id that was generated before
     * it.
     */
    ghost predicate Valid()
      reads this, books.Values, patrons.Values
    {
      1 <= nextBookId && 1 <= nextPatronId && 1 <= nextRecordId &&
      (forall k | k in books :: books[k].id == Some(k) && k < nextBookId) &&
      (forall k | k in patrons :: patrons[k].id == Some(k) && k < nextPatronId) &&
      (forall b {:trigger b.HasValidFields()} | b in books.Values :: b.HasValidFields()) &&
      (forall p {:trigger p.HasValidFields()} | p in patrons.Values :: p.HasValidFields()) &&
      (forall k1, k2 | k1 in books && k2 in books && k1 != k2 :: books[k1].isbn != books[k2].isbn) &&
      (forall i | 0 <= i < |records| :: records[i].bookId < nextBookId)
    }

    constructor ()
      ensures Valid()
      ensures books == map[] && patrons == map[] && records == []
    {
      books, patrons, records := map[], map[], [];
      nextBookId, nextPatronId, nextRecordId := 1, 1, 1;
    }

    /** The stored book rows by id. */
    ghost function Rows(): map<int, BookRow>
      reads this, books.Values
    {
      map k | k in books :: books[k].Row()
    }

    /** The stored patron rows by id. */
    ghost function PatronRows(): map<int, PatronRow>
      reads this, patrons.Values
    {
      map k | k in patrons :: patrons[k].Row()
    }

    /** The loan invariant over the stored books and the ledger. */
    ghost predicate LoansConsistent()
      reads this, books.Values
    {
      LoanInvariant(Rows(), records)
    }

    /** save of a new book: the store generates its id and keeps the object itself. */
    method SaveNewBook(book: Book) returns (id: int)
      requires Valid() && book.id.None? && book.HasValidFields() && !IsbnTaken(book.isbn, None)
      modifies this, book
      ensures Valid()
      ensures id == old(nextBookId) && book.id == Some(id) && book.Row() == old(book.Row())
      ensures books == old(books)[id := book] && nextBookId == id + 1
      ensures Rows() == old(Rows())[id := book.Row()]
      ensures patrons == old(patrons) && records == old(records)
      ensures nextPatronId == old(nextPatronId) && nextRecordId == old(nextRecordId)
    {
      assert forall k | k in books :: books[k] != book;
      id := nextBookId;
      book.id := Some(id);
      books := books[id := book];
      nextBookId := id + 1;
      BookRowAdded(id);
      PatronRowsUnchanged();
    }

    /** delete of a stored book: its row goes, the ledger and everything else stay. */
    method DeleteBookRow(id: int)
      requires Valid() && id in books
      modifies this
      ensures Valid()
      ensures books == old(books) - {id} && Rows() == old(Rows()) - {id}
      ensures patrons == old(patrons) && records == old(records)
      ensures nextBookId == old(nextBookId) && nextPatronId == old(nextPatronId) && nextRecordId == old(nextRecordId)
      ensures old(LoansConsistent()) ==> LoansConsistent()
    {
      ghost var rows := Rows();
      books := books - {id};
      BookRowRemoved(id);
      PatronRowsUnchanged();
      if LoanInvariant(rows, records) {
        DeleteKeepsLoanInvariant(rows, records, id);
      }
    }

    /** save of a new patron: the store generates its id and keeps the object itself. */
    method SaveNewPatron(patron: Patron) returns (id: int)
      requires Valid() && patron.id.None? && patron.HasValidFields()
      modifies this, patron
      ensures Valid()
      ensures id == old(nextPatronId) && patron.id == Some(id) && patron.Row() == old(patron.Row())
      ensures patrons == old(patrons)[id := patron] && nextPatronId == id + 1
      ensures PatronRows() == old(PatronRows())[id := patron.Row()]
      ensures books == old(books) && records == old(records) && Rows() == old(Rows())
      ensures nextBookId == old(nextBookId) && nextRecordId == old(nextRecordId)
    {
      assert forall k | k in patrons :: patrons[k] != patron;
      id := nextPatronId;
      patron.id := Some(id);
      patrons := patrons[id := patron];
      nextPatronId := id + 1;
      PatronRowAdded(id);
      BookRowsUnchanged();
    }

    /** delete of a stored patron: its row goes, everything else stays. */
    method DeletePatronRow(id: int)
      requires Valid() && id in patrons
      modifies this
      ensures Valid()
      ensures patrons == old(patrons) - {id}
      ensures books == old(books) && Rows() == old(Rows()) && records == old(records)
      ensures nextBookId == old(nextBookId) && nextPatronId == old(nextPatronId) && nextRecordId == old(nextRecordId)
    {
      patrons := patrons - {id};
      BookRowsUnchanged();
      PatronRowRemoved(id);
    }

    /**
     * The cascade of a patron's deletion: the patron's records leave the
     * ledger. The books are not touched, so the loan invariant survives when
     * the patron held no open loan.
     */
    method DeleteRecordsOf(patronId: int)
      requires Valid()
      modifies this
      ensures Valid()
      ensures records == WithoutPatron(old(records), patronId)
      ensures books == old(books) && patrons == old(patrons) && Rows() == old(Rows())
      ensures nextBookId == old(nextBookId) && nextPatronId == old(nextPatronId) && nextRecordId == old(nextRecordId)
      ensures old(LoansConsistent()) && HoldsNoLoan(old(records), patronId) ==> LoansConsistent()
    {
      ghost var before, rows := records, Rows();
      records := WithoutPatron(records, patronId);
      BookRowsUnchanged();
      PatronRowsUnchanged();
      forall i | 0 <= i < |records|
        ensures records[i].bookId < nextBookId
      {
        assert records[i] in before;
      }
      if LoanInvariant(rows, before) && HoldsNoLoan(before, patronId) {
        CascadeKeepsLoanInvariant(rows, before, patronId);
      }
    }

    /** setBorrowed(flag) on a stored book: only its row's flag changes. */
    method SetFlag(id: int, flag: bool)
      requires Valid() && id in books
      modifies books[id]
      ensures Valid()
      ensures Rows() == old(Rows())[id := old(Rows())[id].(borrowed := flag)]
      ensures books[id].borrowed == flag
    {
      var book := books[id];
      assert forall k | k in books && k != id :: books[k] != book;
      assert book.HasValidFields();
      book.SetBorrowed(flag);
      OneBookChanged(id);
    }

    /** save of a new borrowing record: the store generates its id and appends it to the ledger. */
    method SaveRecord(r: BorrowingRecord) returns (saved: BorrowingRecord)
      requires Valid() && r.bookId < nextBookId
      modifies this
      ensures Valid()
      ensures saved == r.(id := Some(old(nextRecordId))) && records == old(records) + [saved]
      ensures nextRecordId == old(nextRecordId) + 1
      ensures books == old(books) && patrons == old(patrons) && Rows() == old(Rows())
      ensures nextBookId == old(nextBookId) && nextPatronId == old(nextPatronId)
    {
      saved := r.(id := Some(nextRecordId));
      records := records + [saved];
      nextRecordId := nextRecordId + 1;
      BookRowsUnchanged();
      PatronRowsUnchanged();
    }

    /** setReturnDate(today) on the open record at position i, then save. */
    method CloseRecord(i: nat, today: int)
      requires Valid() && i < |records|
      modifies this
      ensures Valid()
      ensures records == Close(old(records), i, today)
      ensures books == old(books) && patrons == old(patrons) && Rows() == old(Rows())
      ensures nextBookId == old(nextBookId) && nextPatronId == old(nextPatronId) && nextRecordId == old(nextRecordId)
    {
      records := Close(records, i, today);
      BookRowsUnchanged();
      PatronRowsUnchanged();
    }

    /** The rollback of a transaction puts back the ledger it started from. */
    method RollBackLedger(ledger: seq<BorrowingRecord>)
      requires Valid() && forall i | 0 <= i < |ledger| :: ledger[i].bookId < nextBookId
      modifies this
      ensures Valid()
      ensures records == ledger
      ensures books == old(books) && patrons == old(patrons) && Rows() == old(Rows())
      ensures nextBookId == old(nextBookId) && nextPatronId == old(nextPatronId) && nextRecordId == old(nextRecordId)
    {
      records := ledger;
      BookRowsUnchanged();
      PatronRowsUnchanged();
    }

    /**
     * Setters called on one stored book, leaving its id alone, its fields
     * valid and its ISBN unique, change that book's row and nothing else, and
     * keep the store valid.
     */
    twostate lemma OneBookChanged(id: int)
      requires old(Valid()) && unchanged(this) && id in books
      requires forall k | k in books && k != id :: unchanged(books[k])
      requires forall k | k in patrons :: unchanged(patrons[k])
      requires books[id].id == old(books[id].id) && books[id].HasValidFields()
      requires forall k | k in books && k != id :: books[k].isbn != books[id].isbn
      ensures Valid()
      ensures Rows() == old(Rows())[id := books[id].Row()]
    {
      OneRowChanged(id);
      forall k | k in books && k != id
        ensures books[k].id == Some(k) && books[k].HasValidFields()
      {
        assert old(books[k].HasValidFields());
      }
      forall k | k in patrons
        ensures patrons[k].id == Some(k) && patrons[k].HasValidFields()
      {
        assert old(patrons[k].HasValidFields());
      }
    }

    /** Only the row of the one book whose setters were called changes. */
    twostate lemma OneRowChanged(id: int)
      requires unchanged(this) && id in books
      requires forall k | k in books && k != id :: unchanged(books[k])
      ensures Rows() == old(Rows())[id := books[id].Row()]
    {
      assert books == old(books);
      forall k | k in books && k != id
        ensures Rows()[k] == old(Rows())[k]
      {
        assert books[k].Row() == old(books[k].Row());
      }
    }

    /**
     * Setters called on one stored patron, leaving its id alone and its
     * fields valid, change that patron's row and nothing else, and keep the
     * store valid.
     */
    twostate lemma OnePatronChanged(id: int)
      requires old(Valid()) && unchanged(this) && id in patrons
      requires forall k | k in patrons && k != id :: unchanged(patrons[k])
      requires forall k | k in books :: unchanged(books[k])
      requires patrons[id].id == old(patrons[id].id) && patrons[id].HasValidFields()
      ensures Valid()
      ensures PatronRows() == old(PatronRows())[id := patrons[id].Row()]
      ensures Rows() == old(Rows())
    {
      assert books == old(books);
      OnePatronRowChanged(id);
      BookRowsUnchanged();
      forall k | k in books
        ensures books[k].id == Some(k) && books[k].HasValidFields()
      {
        assert old(books[k].HasValidFields());
      }
      forall k | k in patrons && k != id
        ensures patrons[k].id == Some(k) && patrons[k].HasValidFields()
      {
        assert old(patrons[k].HasValidFields());
      }
    }

    /** Only the row of the one patron whose setters were called changes. */
    twostate lemma OnePatronRowChanged(id: int)
      requires unchanged(this) && id in patrons
      requires forall k | k in patrons && k != id :: unchanged(patrons[k])
      ensures PatronRows() == old(PatronRows())[id := patrons[id].Row()]
    {
      assert patrons == old(patrons);
      forall k | k in patrons && k != id
        ensures PatronRows()[k] == old(PatronRows())[k]
      {
        assert patrons[k].Row() == old(patrons[k].Row());
      }
    }

    /** The book rows stay when the map and every stored book object stay. */
    twostate lemma BookRowsUnchanged()
      requires books == old(books)
      requires forall k | k in books :: unchanged(books[k])
      ensures Rows() == old(Rows())
    {
      forall k | k in books
        ensures Rows()[k] == old(Rows())[k]
      {
        assert books[k].Row() == old(books[k].Row());
      }
    }

    /** A book added under a new key adds its row and leaves the others. */
    twostate lemma BookRowAdded(id: int)
      requires id in books && books == old(books)[id := books[id]]
      requires forall k | k in old(books) && k != id :: unchanged(old(books)[k])
      ensures Rows() == old(Rows())[id := books[id].Row()]
    {
      forall k | k in books && k != id
        ensures Rows()[k] == old(Rows())[k]
      {
        assert books[k].Row() == old(books[k].Row());
      }
    }

    /** A book removed from the map takes its row with it. */
    twostate lemma BookRowRemoved(id: int)
      requires books == old(books) - {id}
      requires forall k | k in books :: unchanged(books[k])
      ensures Rows() == old(Rows()) - {id}
    {
      forall k | k in books
        ensures Rows()[k] == old(Rows())[k]
      {
        assert books[k].Row() == old(books[k].Row());
      }
    }

    /** The patron rows stay when the map and every stored patron object stay. */
    twostate lemma PatronRowsUnchanged()
      requires patrons == old(patrons)
      requires forall k | k in patrons :: unchanged(patrons[k])
      ensures PatronRows() == old(PatronRows())
    {
      forall k | k in patrons
        ensures PatronRows()[k] == old(PatronRows())[k]
      {
        assert patrons[k].Row() == old(patrons[k].Row());
      }
    }

    /** A patron removed from the map takes its row with it. */
    twostate lemma PatronRowRemoved(id: int)
      requires patrons == old(patrons) - {id}
      requires forall k | k in patrons :: unchanged(patrons[k])
      ensures PatronRows() == old(PatronRows()) - {id}
    {
      forall k | k in patrons
        ensures PatronRows()[k] == old(PatronRows())[k]
      {
        assert patrons[k].Row() == old(patrons[k].Row());
      }
    }

    /** A patron added under a new key adds its row and leaves the others. */
    twostate lemma PatronRowAdded(id: int)
      requires id in patrons && patrons == old(patrons)[id := patrons[id]]
      requires forall k | k in old(patrons) && k != id :: unchanged(old(patrons)[k])
      ensures PatronRows() == old(PatronRows())[id := patrons[id].Row()]
    {
      forall k | k in patrons && k != id
        ensures PatronRows()[k] == old(PatronRows())[k]
      {
        assert patrons[k].Row() == old(patrons[k].Row());
      }
    }

    /**
     * A stored book meets the field constraints of Book, and no other stored
     * book carries its ISBN.
     */
    lemma StoredBookMeetsConstraints(id: int)
      requires Valid() && id in books
      ensures books[id].HasValidFields() && !IsbnTaken(books[id].isbn, Some(id))
    {
    }

    /** A stored book is found again under the id it carries. */
    lemma StoredBookCarriesId(b: Book)
      requires Valid() && b in books.Values
      ensures b.id.Some? && b.id.value in books && books[b.id.value] == b
    {
      var k := KeyOf(books, b);
    }

    /** Some stored book other than the one stored under except has this ISBN. */
    predicate IsbnTaken(isbn: string, except: Option<int>)
      reads this, books.Values
    {
      exists k | k in books :: books[k].isbn == isbn && except != Some(k)
    }
  }
}
