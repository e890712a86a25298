/** The character tables of the HTTP parser, spelled out apart from the functions that model them. */
module HttpTables {
  import opened CBytes
  import opened HttpTypes

  const SMALL_LETTERS := "abcdefghijklmnopqrstuvwxyz"
  const CAPITAL_LETTERS := "ABCDEFGHIJKLMNOPQRSTUVWXYZ"
  const TOKEN_SIGNS := "!#$%&'*+-.^_`|~"
  const SMALL_DIGITS := "0123456789abcdef"
  const CAPITAL_DIGITS := "0123456789ABCDEF"

  predicate Letter(c: byte) { 'a' <= c <= 'z' || 'A' <= c <= 'Z' }

  predicate LetterOrDigit(c: byte) { Letter(c) || '0' <= c <= '9' }

  /** The token characters of section 2.2 of RFC 2616. */
  lemma TokenCharacters(c: byte)
    ensures Token(c) != '\0' <==> LetterOrDigit(c) || c in TOKEN_SIGNS
  {
  }

  /** The table maps capital letters to small ones, and every other token character to itself. */
  lemma TokenIsLowerCase(c: byte)
    requires Token(c) != '\0'
    ensures if 'A' <= c <= 'Z' then Token(c) == SMALL_LETTERS[c as int - 'A' as int] else Token(c) == c
    ensures 'A' <= c <= 'Z' ==> CAPITAL_LETTERS[c as int - 'A' as int] == c
  {
  }

  /** The sixteen digits have their values in either case. */
  lemma HexDigits(d: nat)
    requires d < 16
    ensures Unhex(SMALL_DIGITS[d]) == d && Unhex(CAPITAL_DIGITS[d]) == d
  {
  }

  /** No other byte below 128 is a digit; from there on every byte is read as zero. */
  lemma NoOtherDigit(c: byte)
    ensures Unhex(c) != -1 && c as int < 128 ==> SMALL_DIGITS[Unhex(c)] == c || CAPITAL_DIGITS[Unhex(c)] == c
    ensures c as int >= 128 ==> Unhex(c) == 0
  {
  }

  /** Setting the bit of the small letters: what becomes a small letter was that letter, in
      either case. */
  lemma LowerCase(c: byte, i: nat)
    requires i < 26
    ensures Lower(c) == SMALL_LETTERS[i] <==> c == SMALL_LETTERS[i] || c == CAPITAL_LETTERS[i]
  {
  }
}
