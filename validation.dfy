/**
 * The bean-validation constraints declared on the fields of Book, Patron and
 * their DTOs, with Java's meaning:
 *   - @Pattern must match the whole value (Matcher.matches);
 *   - `\s` is [ \t\n\x0B\f\r] and `\d` is [0-9];
 *   - @NotBlank holds when String.trim() leaves something, that is, when some
 *     character is above U+0020;
 *   - @NotEmpty holds when the value has at least one character.
 * Values are never null here: @NotNull and @JsonProperty(required) are not
 * modelled.
 */
module Validation {

  /** A character of the class `\s`. */
  predicate IsRegexSpace(c: char) {
    c == ' ' || '\t' <= c <= '\r'
  }

  predicate IsAsciiLetter(c: char) {
    'a' <= c <= 'z' || 'A' <= c <= 'Z'
  }

  /** A character of the class `\d`. */
  predicate IsAsciiDigit(c: char) {
    '0' <= c <= '9'
  }

  /** @NotBlank: trimming the value does not leave it empty. */
  predicate NotBlank(s: string) {
    exists i | 0 <= i < |s| :: s[i] > ' '
  }

  /** @NotEmpty */
  predicate NotEmpty(s: string) {
    |s| > 0
  }

  /** `^[a-zA-Z0-9\s]+$` */
  predicate MatchesLettersDigitsSpaces(s: string) {
    |s| > 0 && forall i | 0 <= i < |s| :: IsAsciiLetter(s[i]) || IsAsciiDigit(s[i]) || IsRegexSpace(s[i])
  }

  /** `^[a-zA-Z\s]+$` */
  predicate MatchesLettersSpaces(s: string) {
    |s| > 0 && forall i | 0 <= i < |s| :: IsAsciiLetter(s[i]) || IsRegexSpace(s[i])
  }

  /** `\d{n}` */
  predicate MatchesDigits(s: string, n: nat) {
    |s| == n && forall i | 0 <= i < |s| :: IsAsciiDigit(s[i])
  }

  /** `\d{3}-\d{10}`: a format only, no ISBN check digit is computed. */
  predicate MatchesIsbn(s: string) {
    |s| == 14 && MatchesDigits(s[..3], 3) && s[3] == '-' && MatchesDigits(s[4..], 10)
  }

  const MIN_PUBLICATION_YEAR := 1700
  const MAX_PUBLICATION_YEAR := 2024
  const PHONE_DIGITS := 10

  /**
   * title: @NotBlank, @NotEmpty and `^[a-zA-Z0-9\s]+$`. Since every `\s`
   * character is at or below U+0020, the value is not blank exactly when it
   * holds an ASCII letter or digit.
   */
  function ValidTitle(s: string): (ok: bool)
    ensures ok <==> MatchesLettersDigitsSpaces(s) && exists i | 0 <= i < |s| :: IsAsciiLetter(s[i]) || IsAsciiDigit(s[i])
  {
    NotBlank(s) && NotEmpty(s) && MatchesLettersDigitsSpaces(s)
  }

  /**
   * author: @NotBlank, @NotEmpty and `^[a-zA-Z\s]+$`: letters and white
   * space, with at least one letter. Every valid author is a valid title.
   */
  function ValidAuthor(s: string): (ok: bool)
    ensures ok <==> MatchesLettersSpaces(s) && exists i | 0 <= i < |s| :: IsAsciiLetter(s[i])
    ensures ok ==> ValidTitle(s)
  {
    NotBlank(s) && NotEmpty(s) && MatchesLettersSpaces(s)
  }

  /** @Min(min): the value is not below min. */
  predicate AtLeast(value: int, min: int) {
    value >= min
  }

  /** @Max(max): the value is not above max. */
  predicate AtMost(value: int, max: int) {
    value <= max
  }

  /** publicationYear: @Min(1700) and @Max(2024), both bounds included. */
  function ValidPublicationYear(year: int): (ok: bool)
    ensures ok <==> 1700 <= year <= 2024
  {
    AtLeast(year, MIN_PUBLICATION_YEAR) && AtMost(year, MAX_PUBLICATION_YEAR)
  }

  /**
   * isbn: @NotBlank, @NotEmpty and `\d{3}-\d{10}`. The pattern alone decides:
   * a value that matches it is never empty or blank.
   */
  function ValidIsbn(s: string): (ok: bool)
    ensures ok <==> MatchesIsbn(s)
    ensures ok ==> |s| == 14 && s[3] == '-'
  {
    if MatchesIsbn(s) then
      assert IsAsciiDigit(s[..3][0]);
      NotBlank(s) && NotEmpty(s)
    else
      false
  }

  /**
   * Patron.name carries the same three constraints as Book.author: letters
   * and white space, with at least one letter.
   */
  function ValidPatronName(s: string): (ok: bool)
    ensures ok <==> MatchesLettersSpaces(s) && exists i | 0 <= i < |s| :: IsAsciiLetter(s[i])
  {
    ValidAuthor(s)
  }

  /**
   * phoneNumber: @NotBlank, @NotEmpty and `\d{10}`; again the pattern alone
   * decides.
   */
  function ValidPhoneNumber(s: string): (ok: bool)
    ensures ok <==> MatchesDigits(s, PHONE_DIGITS)
  {
    if MatchesDigits(s, PHONE_DIGITS) then
      assert IsAsciiDigit(s[0]);
      NotBlank(s) && NotEmpty(s)
    else
      false
  }

  /**
   * emailAddress: @NotBlank (its @Email format check is not modelled).
   * String.trim() strips every character at or below U+0020, so a value
   * is refused exactly when it is made of such characters only: the empty
   * value, white space, and control characters alike.
   */
  function ValidEmailAddress(s: string): (ok: bool)
    ensures ok ==> NotEmpty(s)
    ensures !ok <==> forall i | 0 <= i < |s| :: s[i] <= ' '
    ensures (forall i | 0 <= i < |s| :: IsRegexSpace(s[i])) ==> !ok
  {
    NotBlank(s)
  }

  /** The constraints shared by Book, BookDTO and BookDTORequest. */
  predicate ValidBookFields(title: string, author: string, publicationYear: int, isbn: string) {
    ValidTitle(title) && ValidAuthor(author) && ValidPublicationYear(publicationYear) && ValidIsbn(isbn)
  }

  /** The constraints shared by Patron, PatronDTO and PatronDTORequest. */
  predicate ValidPatronFields(name: string, phoneNumber: string, emailAddress: string) {
    ValidPatronName(name) && ValidPhoneNumber(phoneNumber) && ValidEmailAddress(emailAddress)
  }

  /**
   * Replacing the last digit of a valid ISBN by any digit leaves it valid,
   * so of the ten values that differ only there at most one carries a
   * correct ISBN-13 check digit: the constraint is a format check only.
   */
  lemma {:induction false} IsbnCheckDigitIgnored(s: string, d: char)
    requires ValidIsbn(s) && '0' <= d <= '9'
    ensures ValidIsbn(s[13 := d])
  {
    var t := s[13 := d];
    assert t[..3] == s[..3];
    forall i | 0 <= i < |t[4..]|
      ensures IsAsciiDigit(t[4..][i])
    {
      if i != 9 {
        assert t[4..][i] == s[4..][i];
      }
    }
  }
}
