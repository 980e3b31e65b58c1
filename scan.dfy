/**
 * The read-only scanners of util.h: omit_leading_whitespace, omit_leading_any,
 * omit_trailing_whitespace and omit_trailing_any.  Each returns a position or
 * a length and never writes to the buffer.
 */
module Scan {
  import opened CharClass
  import opened CStrings

  /** The number of spaces and tabs at the start of s. */
  function LeadingBlanks(s: seq<char>): (p: nat)
    ensures p <= |s|
    ensures forall j :: 0 <= j < p ==> IsSpaceOrTab(s[j])
    ensures p < |s| ==> !IsSpaceOrTab(s[p])
  {
    if s == [] || !IsSpaceOrTab(s[0]) then 0 else 1 + LeadingBlanks(s[1..])
  }

  /** The terminator is not a blank, so the leading blanks of a C string lie within its text. */
  lemma LeadingBlanksInText(s: seq<char>)
    requires IsCString(s)
    ensures LeadingBlanks(s) <= StrLen(s)
  {
  }

  /**
   * omit_leading_whitespace: the position of the first character that is not
   * a space or a tab; on a blank string, the position of the terminator.
   */
  method OmitLeadingWhitespace(s: seq<char>) returns (r: nat)
    requires IsCString(s)
    ensures r <= StrLen(s) && !IsSpaceOrTab(s[r])
    ensures forall j :: 0 <= j < r ==> IsSpaceOrTab(s[j])
    ensures r == LeadingBlanks(s)
  {
    LeadingBlanksInText(s);
    r := 0;
    while IsSpaceOrTab(s[r])
      invariant r <= StrLen(s)
      invariant forall j :: 0 <= j < r ==> IsSpaceOrTab(s[j])
      decreases StrLen(s) - r
    {
      r := r + 1;
    }
  }

  /**
   * omit_leading_any: the position of the first of the first len characters
   * that is not in the omit list, or len when all of them are.  The
   * terminator is never in the list, so the scan also stops there.
   */
  method OmitLeadingAny(s: seq<char>, omitList: seq<char>, len: nat) returns (r: nat)
    requires IsCString(omitList)
    requires len <= |s| || IsCString(s)
    ensures r <= len && r <= |s|
    ensures forall j :: 0 <= j < r ==> Listed(s[j], omitList)
    ensures r < len ==> r < |s| && !Listed(s[r], omitList)
    ensures IsCString(s) ==> r <= StrLen(s)
  {
    var i := 0;
    while i < len
      invariant i <= len && i <= |s|
      invariant IsCString(s) ==> i <= StrLen(s)
      invariant forall j :: 0 <= j < i ==> Listed(s[j], omitList)
    {
      var omitted := MemberOf(s[i], omitList);
      if !omitted {
        return i;
      }
      i := i + 1;
    }
    return i;
  }

  /**
   * omit_trailing_whitespace: moving left from marker, the position of the
   * first character that is not a space or a tab; it stops at index 0
   * whatever that character is.
   */
  method OmitTrailingWhitespace(s: seq<char>, marker: nat) returns (r: nat)
    requires marker < |s|
    ensures r <= marker
    ensures forall j :: r < j <= marker ==> IsSpaceOrTab(s[j])
    ensures r > 0 ==> !IsSpaceOrTab(s[r])
  {
    r := marker;
    while r > 0 && IsSpaceOrTab(s[r])
      invariant r <= marker
      invariant forall j :: r < j <= marker ==> IsSpaceOrTab(s[j])
    {
      r := r - 1;
    }
  }

  /**
   * omit_trailing_any: the length of s[..marker + 1] once the characters of
   * the omit list at its end are dropped; 0 when every one of them is omitted.
   */
  method OmitTrailingAny(s: seq<char>, omitList: seq<char>, marker: nat) returns (len: nat)
    requires IsCString(omitList)
    requires marker < |s|
    ensures len <= marker + 1
    ensures forall j :: len <= j <= marker ==> Listed(s[j], omitList)
    ensures len > 0 ==> !Listed(s[len - 1], omitList)
    ensures len == 0 <==> forall j :: 0 <= j <= marker ==> Listed(s[j], omitList)
  {
    var m: nat := marker;
    while m > 0
      invariant m <= marker
      invariant forall j :: m < j <= marker ==> Listed(s[j], omitList)
    {
      var omitted := MemberOf(s[m], omitList);
      if !omitted {
        return m + 1;
      }
      m := m - 1;
    }
    var omitted := MemberOf(s[m], omitList);
    if omitted {
      return 0;
    }
    return 1;
  }
}
