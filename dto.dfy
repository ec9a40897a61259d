/**
 * The request bodies of the book and patron endpoints. Each DTO carries the
 * same field constraints as its entity (Validation.ValidBookFields and
 * Validation.ValidPatronFields), and the all-fields constructors of
 * BookDTORequest and PatronDTORequest are the datatype constructors.
 */
module Dto {
  import opened Validation

  datatype BookDto = BookDto(title: string, author: string, publicationYear: int, isbn: string, borrowed: bool)
  {
    /**
     * @Valid on a BookDTO body: the four constrained fields are non-empty,
     * the author has no digit, the year lies in 1700..2024 and the ISBN is
     * three digits, a dash and ten digits. The borrowed flag is free.
     */
    function Valid(): (ok: bool)
      ensures ok ==> |title| > 0 && |author| > 0
      ensures ok ==> forall i | 0 <= i < |author| :: !IsAsciiDigit(author[i])
      ensures ok ==> MIN_PUBLICATION_YEAR <= publicationYear <= MAX_PUBLICATION_YEAR
      ensures ok ==> |isbn| == 14 && isbn[3] == '-' && forall i | 0 <= i < 14 && i != 3 :: IsAsciiDigit(isbn[i])
    {
      ValidBookFields(title, author, publicationYear, isbn)
    }
  }

  datatype BookDtoRequest = BookDtoRequest(title: string, author: string, publicationYear: int, isbn: string, isBorrowed: bool)
  {
    /** The same constraints as BookDTO, field for field. */
    function Valid(): (ok: bool)
      ensures ok <==> BookDto(title, author, publicationYear, isbn, isBorrowed).Valid()
    {
      ValidBookFields(title, author, publicationYear, isbn)
    }
  }

  datatype PatronDto = PatronDto(name: string, phoneNumber: string, emailAddress: string)
  {
    /**
     * @Valid on a PatronDTO body: the name holds a letter and only letters
     * and white space, the phone number is exactly ten digits and the
     * e-mail address holds a character above U+0020.
     */
    function Valid(): (ok: bool)
      ensures ok ==> |name| > 0 && forall i | 0 <= i < |name| :: !IsAsciiDigit(name[i])
      ensures ok ==> |phoneNumber| == PHONE_DIGITS && forall i | 0 <= i < |phoneNumber| :: IsAsciiDigit(phoneNumber[i])
      ensures ok ==> exists i | 0 <= i < |emailAddress| :: emailAddress[i] > ' '
    {
      ValidPatronFields(name, phoneNumber, emailAddress)
    }
  }

  datatype PatronDtoRequest = PatronDtoRequest(name: string, phoneNumber: string, emailAddress: string)
  {
    /** The same constraints as PatronDTO, field for field. */
    function Valid(): (ok: bool)
      ensures ok <==> PatronDto(name, phoneNumber, emailAddress).Valid()
    {
      ValidPatronFields(name, phoneNumber, emailAddress)
    }
  }

  /**
   * A BookDTO read from a JSON body. The borrowed flag is @JsonIgnore, so
   * whatever the client sent for it, the DTO has the default, false.
   */
  function ReceivedBookDto(title: string, author: string, publicationYear: int, isbn: string, sentBorrowed: bool): (d: BookDto)
    ensures !d.borrowed
    ensures d.(borrowed := sentBorrowed) == BookDto(title, author, publicationYear, isbn, sentBorrowed)
  {
    BookDto(title, author, publicationYear, isbn, false)
  }

  lemma WellFormedBookAccepted()
    ensures BookDto("Title1", "Author", 2000, "123-1234567890", false).Valid()
  {
    var d := BookDto("Title1", "Author", 2000, "123-1234567890", false);
    assert IsAsciiLetter(d.title[0]) && IsAsciiLetter(d.author[0]);
    assert d.isbn[..3] == "123" && d.isbn[4..] == "1234567890";
  }

  lemma EmptyTitleRejected()
    ensures !BookDto("", "Author", 2000, "123-1234567890", false).Valid()
  {
  }

  lemma DigitInAuthorRejected()
    ensures !BookDto("Title1", "Author1", 2000, "123-1234567890", false).Valid()
  {
    assert !IsAsciiLetter("Author1"[6]) && !IsRegexSpace("Author1"[6]);
  }

  lemma LatePublicationYearRejected()
    ensures !BookDto("Title1", "Author", 2025, "123-1234567890", false).Valid()
  {
  }

  lemma IsbnWithoutDashRejected()
    ensures !BookDto("Title1", "Author", 2000, "12312345670", false).Valid()
  {
  }

  lemma WellFormedPatronAccepted()
    ensures PatronDto("John Doe", "1234567890", "john@example.com").Valid()
  {
    var d := PatronDto("John Doe", "1234567890", "john@example.com");
    assert IsAsciiLetter(d.name[0]) && d.emailAddress[0] > ' ';
  }

  lemma EmptyNameRejected()
    ensures !PatronDto("", "1234567890", "john@example.com").Valid()
  {
  }

  lemma EmptyPhoneNumberRejected()
    ensures !PatronDto("John Doe", "", "john@example.com").Valid()
  {
  }
}
