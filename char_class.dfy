/**
 * The character predicates of util.h.  A C `char` is modelled by a Dafny `char`
 * whose code is the byte's unsigned value, so the signed constant -96 used for
 * the non-breaking space is the byte 0xA0.
 */
module CharClass {

  /** The signed-char spelling of the non-breaking space. */
  const NBSP_SIGNED: int := -96

  /** The non-breaking space as an unsigned byte, 0xA0. */
  const NBSP: char := (NBSP_SIGNED + 256) as char

  /** IS_SPACE_OR_TAB: only ' ' and '\t' are blanks; line breaks and the terminator never are. */
  function IsSpaceOrTab(c: char): (b: bool)
    ensures b ==> c != '\0' && c != '\n' && c != '\r' && c != NBSP
    ensures b ==> IsSpaceOrTabOrNbsp(c)
  {
    c == ' ' || c == '\t'
  }

  /** IS_SPACE_OR_TAB_OR_NBSP: the blanks plus the non-breaking space. */
  function IsSpaceOrTabOrNbsp(c: char): (b: bool)
    ensures b ==> c != '\0' && c != '\n' && c != '\r'
    ensures c == NBSP ==> b
  {
    c == ' ' || c == '\t' || c == NBSP
  }
}
