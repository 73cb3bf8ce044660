/** The symbol encoding: every character maps to an 8-bit mask, and two
    characters match exactly when their masks share a bit. */
module Encoding {

  /** The four nucleotide letters. */
  predicate IsBase(c: char) {
    c == 'A' || c == 'C' || c == 'G' || c == 'T'
  }

  /** The gap symbol, a wildcard that matches every letter and itself. */
  const Gap: char := '-'

  /** Symbols that take part in matching at all. */
  predicate IsValid(c: char) {
    IsBase(c) || c == Gap
  }

  /** The lookup table: one exclusive bit per letter, all bits for the gap,
      no bits for anything else. */
  function Mask(c: char): bv8 {
    match c
    case 'A' => 0x01
    case 'C' => 0x02
    case 'G' => 0x04
    case 'T' => 0x08
    case '-' => 0xFF
    case _ => 0x00
  }

  /** The matching relation as the tests tabulate it: equal letters match,
      the gap matches every letter in either order and matches itself, and
      nothing else matches, not even a character outside the alphabet
      compared with itself. */
  predicate TableMatch(a: char, b: char) {
    || (IsBase(a) && a == b)
    || (a == Gap && IsValid(b))
    || (IsBase(a) && b == Gap)
  }

  /** Two symbols match when their masks overlap; this realises the table. */
  function Matches(a: char, b: char): (r: bool)
    ensures r <==> TableMatch(a, b)
  {
    Mask(a) & Mask(b) != 0
  }

  /** Each letter owns one bit that no other letter shares. */
  lemma LetterBitsExclusive(a: char, b: char)
    requires IsBase(a) && IsBase(b)
    ensures Mask(a) != 0
    ensures Mask(a) & (Mask(a) - 1) == 0
    ensures a != b ==> Mask(a) & Mask(b) == 0
  {
  }

  /** The gap's mask is the all-ones pattern and the mask of any other
      character outside the alphabet is empty. */
  lemma GapAndOthers(c: char)
    ensures Mask(Gap) & Mask(c) == Mask(c)
    ensures !IsValid(c) ==> Mask(c) == 0
  {
  }

  /** Matching does not depend on argument order. */
  lemma MatchesSymmetric(a: char, b: char)
    ensures Matches(a, b) == Matches(b, a)
  {
  }

  /** A character matches itself exactly when it is a letter or the gap. */
  lemma MatchesSelf(c: char)
    ensures Matches(c, c) <==> IsValid(c)
  {
  }
}
