/**
 * PatronServiceImpl (and its duplicate, the concrete class PatronService):
 * the patron operations over the store and the "patrons" cache.
 *
 * Only getPatronById carries a cache annotation (@Cacheable("patrons",
 * key = id)). updatePatron reaches getPatronById through `this`, so it reads
 * the store; updatePatron and deletePatron never touch the cache, so a
 * deleted patron stays cached until the entry expires.
 */
module Membership {
  import opened Wrappers
  import opened Errors
  import opened Validation
  import opened Entities
  import opened Ledger
  import opened Store

  class PatronService {
    const store: EntityStore
    /** The "patrons" cache; an entry for a stored id is the store's own object. */
    var cache: map<int, Patron>

    ghost predicate Valid()
      reads this, store, store.books.Values, store.patrons.Values
    {
      store.Valid() &&
      forall k | k in cache :: k < store.nextPatronId && (k in store.patrons ==> cache[k] == store.patrons[k])
    }

    constructor (store: EntityStore)
      requires store.Valid()
      ensures Valid() && this.store == store && cache == map[]
    {
      this.store := store;
      cache := map[];
    }

    /** getAllPatrons: every stored patron, each under the id it carries. */
    method GetAllPatrons() returns (all: set<Patron>)
      requires Valid()
      ensures forall k | k in store.patrons :: store.patrons[k] in all
      ensures forall p | p in all :: p.id.Some? && p.id.value in store.patrons && store.patrons[p.id.value] == p
    {
      all := store.patrons.Values;
      forall p | p in all
        ensures p.id.Some? && p.id.value in store.patrons && store.patrons[p.id.value] == p
      {
        var k := KeyOf(store.patrons, p);
      }
    }

    /** getPatronEntityById: the store decides. */
    method GetPatronEntityById(id: int) returns (result: Result<Patron, Error>)
      ensures result.Success? <==> id in store.patrons
      ensures result.Success? ==> result.value == store.patrons[id]
      ensures result.Failure? ==> result.error == PatronNotFound(id)
    {
      if id in store.patrons {
        result := Success(store.patrons[id]);
      } else {
        result := Failure(PatronNotFound(id));
      }
    }

    /**
     * getPatronById through the proxy: a cached id is answered from the
     * cache, even when the patron has since been deleted; a miss reads the
     * store and caches what it finds; a failure caches nothing.
     */
    method GetPatronById(id: int) returns (result: Result<Patron, Error>)
      requires Valid()
      modifies this
      ensures Valid()
      ensures id in old(cache) ==> result == Success(old(cache)[id]) && cache == old(cache)
      ensures id !in old(cache) ==> (result.Success? <==> id in store.patrons)
      ensures result.Success? && id in store.patrons ==> result.value == store.patrons[id]
      ensures result.Success? ==> id in cache && cache == old(cache)[id := result.value]
      ensures result.Failure? ==> result.error == PatronNotFound(id) && id !in store.patrons && cache == old(cache)
    {
      if id in cache {
        return Success(cache[id]);
      }
      result := GetPatronEntityById(id);
      if result.Success? {
        cache := cache[id := result.value];
      }
    }

    /**
     * addPatron: the store checks the entity constraints before the insert,
     * then generates the id and keeps the very object it was given. Nothing
     * is unique about a patron, so a valid patron is always stored.
     */
    method AddPatron(patron: Patron) returns (result: Result<Patron, Error>)
      requires Valid() && patron.id.None?
      modifies store, patron
      ensures Valid()
      ensures result.Success? <==> old(patron.HasValidFields())
      ensures result.Failure? ==> result.error == ConstraintViolation && patron.id.None?
      ensures result.Failure? ==> store.patrons == old(store.patrons) && store.nextPatronId == old(store.nextPatronId)
      ensures result.Success? ==> result.value == patron && patron.id == Some(old(store.nextPatronId))
      ensures result.Success? ==> store.patrons == old(store.patrons)[patron.id.value := patron] && store.nextPatronId == old(store.nextPatronId) + 1
      ensures patron.Row() == old(patron.Row())
      ensures store.PatronRows() == if result.Success? then old(store.PatronRows())[patron.id.value := patron.Row()] else old(store.PatronRows())
      ensures store.books == old(store.books) && store.records == old(store.records) && store.Rows() == old(store.Rows())
      ensures store.nextBookId == old(store.nextBookId) && store.nextRecordId == old(store.nextRecordId)
    {
      if !patron.HasValidFields() {
        return Failure(ConstraintViolation);
      }
      var id := store.SaveNewPatron(patron);
      result := Success(patron);
    }

    /**
     * updatePatron: looks the patron up through `this` (the store), copies
     * name and phone number onto it and saves it. The e-mail address is
     * assigned from the patron itself, so it never changes. Before the
     * update the store checks the entity constraints; the stored e-mail
     * address already meets them, so the new name and phone number decide.
     * The cache is not touched.
     */
    method UpdatePatron(id: int, details: Patron) returns (result: Result<Patron, Error>)
      requires Valid()
      modifies store.patrons.Values
      ensures Valid()
      ensures cache == old(cache)
      ensures result.Success? <==> id in store.patrons && old(ValidPatronName(details.name) && ValidPhoneNumber(details.phoneNumber))
      ensures id !in store.patrons ==> result == Failure(PatronNotFound(id))
      ensures id in store.patrons && !old(ValidPatronName(details.name) && ValidPhoneNumber(details.phoneNumber)) ==>
                result == Failure(ConstraintViolation)
      ensures result.Failure? ==> store.PatronRows() == old(store.PatronRows())
      ensures result.Success? ==> result.value == store.patrons[id]
      ensures result.Success? ==> store.PatronRows() == old(store.PatronRows())[id :=
                PatronRow(old(details.name), old(details.phoneNumber), old(store.PatronRows()[id].emailAddress))]
      ensures store.Rows() == old(store.Rows())
    {
      var found := GetPatronEntityById(id);
      if found.Failure? {
        return found;
      }
      var patron := found.value;
      assert patron.HasValidFields();
      if !ValidPatronFields(details.name, details.phoneNumber, patron.emailAddress) {
        return Failure(ConstraintViolation);
      }
      assert forall k | k in store.patrons && k != id :: store.patrons[k] != patron;
      UpdatePatronDetails(patron, details);
      store.OnePatronChanged(id);
      result := Success(patron);
    }

    /** updatePatronDetails: name and phone number from the details, e-mail address from the patron itself. */
    method UpdatePatronDetails(patron: Patron, details: Patron)
      modifies patron
      ensures patron.id == old(patron.id)
      ensures patron.Row() == PatronRow(old(details.name), old(details.phoneNumber), old(patron.emailAddress))
    {
      patron.name := details.name;
      patron.phoneNumber := details.phoneNumber;
      patron.emailAddress := patron.emailAddress;
    }

    /**
     * deletePatron: looks the patron up in the store and deletes it; the
     * cascade deletes the patron's borrowing records with it. The cache is
     * not touched, and the books' flags are not either.
     */
    method DeletePatron(id: int) returns (result: Result<(), Error>)
      requires Valid()
      modifies store
      ensures Valid()
      ensures cache == old(cache)
      ensures result.Success? <==> id in old(store.patrons)
      ensures result.Failure? ==> result.error == PatronNotFound(id)
      ensures result.Failure? ==> store.patrons == old(store.patrons) && store.records == old(store.records)
      ensures result.Success? ==> store.patrons == old(store.patrons) - {id}
      ensures result.Success? ==> store.records == WithoutPatron(old(store.records), id)
      ensures store.books == old(store.books)
      ensures store.nextBookId == old(store.nextBookId) && store.nextPatronId == old(store.nextPatronId)
      ensures store.nextRecordId == old(store.nextRecordId)
      ensures old(store.LoansConsistent()) && HoldsNoLoan(old(store.records), id) ==> store.LoansConsistent()
    {
      var found := GetPatronEntityById(id);
      if found.Failure? {
        return Failure(found.error);
      }
      store.DeletePatronRow(id);
      store.DeleteRecordsOf(id);
      result := Success(());
    }

    /** The cache may drop any entry at any time (expiry and the size bound). */
    method Expire(id: int)
      requires Valid()
      modifies this
      ensures Valid() && cache == old(cache) - {id}
    {
      cache := cache - {id};
    }
  }
}
