/**
 * The in-place trims of util.h: ltrim, rtrim, rtrim_with_nbsp and trim.
 * Each works on a caller-owned buffer holding a C string.  The optional
 * length argument, whose "not known" value is (size_t)-1 in the source,
 * is an Option<nat>.  Only spaces and tabs are trimmed (plus the
 * non-breaking space for rtrim_with_nbsp): line breaks are always kept.
 */
module TrimEngine {
  import opened Wrappers
  import opened CharClass
  import opened CStrings
  import opened Scan

  /** What a trailing trim removes: spaces and tabs, and also the NBSP when withNbsp holds. */
  predicate Trimmable(c: char, withNbsp: bool) {
    if withNbsp then IsSpaceOrTabOrNbsp(c) else IsSpaceOrTab(c)
  }

  /** The length of t once its trailing trimmable characters are dropped. */
  function TrimmedEnd(t: seq<char>, withNbsp: bool): (k: nat)
    ensures k <= |t|
    ensures forall j :: k <= j < |t| ==> Trimmable(t[j], withNbsp)
    ensures k > 0 ==> !Trimmable(t[k - 1], withNbsp)
  {
    if t == [] || !Trimmable(t[|t| - 1], withNbsp) then |t|
    else TrimmedEnd(t[..|t| - 1], withNbsp)
  }

  /** The text with its leading and trailing spaces and tabs removed. */
  function Strip(t: seq<char>): seq<char> {
    var u := t[LeadingBlanks(t)..];
    u[..TrimmedEnd(u, false)]
  }

  /**
   * The buffer after ltrim: when the string starts with blanks, its text from
   * the first non-blank, terminator included, has been moved to the start;
   * every character after the moved range is as it was.
   */
  function LTrimmed(s: seq<char>): (t: seq<char>)
    requires IsCString(s)
    ensures |t| == |s|
  {
    LeadingBlanksInText(s);
    var p, n := LeadingBlanks(s), StrLen(s);
    if p == 0 then s else s[p..n + 1] + s[n + 1 - p..]
  }

  /** The buffer after rtrim or rtrim_with_nbsp: one terminator written just after the last character kept. */
  function RTrimmed(s: seq<char>, withNbsp: bool): (t: seq<char>)
    requires IsCString(s)
    ensures |t| == |s|
  {
    s[TrimmedEnd(Text(s), withNbsp) := '\0']
  }

  /** The blanks a string starts with are the blanks its text starts with. */
  lemma LeadingBlanksOfText(s: seq<char>)
    requires IsCString(s)
    ensures LeadingBlanks(Text(s)) == LeadingBlanks(s)
  {
    LeadingBlanksInText(s);
  }

  /** The strlen of the buffer from a position inside the text. */
  lemma StrLenOfSuffix(s: seq<char>, p: nat)
    requires IsCString(s) && p <= StrLen(s)
    ensures IsCString(s[p..]) && StrLen(s[p..]) == StrLen(s) - p
  {
    var n := StrLen(s);
    assert s[p..][n - p] == '\0';
    StrLenIs(s[p..], n - p);
  }

  /** After ltrim the buffer holds the old text from its first non-blank, which is now at index 0. */
  lemma LTrimmedText(s: seq<char>)
    requires IsCString(s)
    ensures IsCString(LTrimmed(s))
    ensures Text(LTrimmed(s)) == Text(s)[LeadingBlanks(s)..]
    ensures LeadingBlanks(LTrimmed(s)) == 0
  {
    LeadingBlanksInText(s);
    var p, n, t := LeadingBlanks(s), StrLen(s), LTrimmed(s);
    if p > 0 {
      var head := s[p..n + 1];
      assert t == head + s[n + 1 - p..];
      assert |head| == n + 1 - p;
      forall j | 0 <= j < n - p
        ensures t[j] != '\0'
      {
        assert t[j] == head[j] == s[p + j];
      }
      assert t[n - p] == head[n - p] == s[n];
      StrLenIs(t, n - p);
      assert t[..n - p] == head[..n - p] == s[p..n];
      assert t[0] == head[0] == s[p];
    }
  }

  /** After rtrim the text is the old text without its trailing blanks; nothing before the new terminator changed. */
  lemma RTrimmedText(s: seq<char>, withNbsp: bool)
    requires IsCString(s)
    ensures IsCString(RTrimmed(s, withNbsp))
    ensures StrLen(RTrimmed(s, withNbsp)) == TrimmedEnd(Text(s), withNbsp)
    ensures Text(RTrimmed(s, withNbsp)) == Text(s)[..TrimmedEnd(Text(s), withNbsp)]
  {
    var k, t := TrimmedEnd(Text(s), withNbsp), RTrimmed(s, withNbsp);
    StrLenIs(t, k);
  }

  /**
   * Strip removes exactly the leading run and the trailing run of blanks:
   * the text is those two runs around the stripped text, which neither
   * starts nor ends with a blank.
   */
  lemma StripShape(t: seq<char>)
    ensures LeadingBlanks(t) + |Strip(t)| <= |t|
    ensures t == t[..LeadingBlanks(t)] + Strip(t) + t[LeadingBlanks(t) + |Strip(t)|..]
    ensures forall j :: 0 <= j < LeadingBlanks(t) ==> IsSpaceOrTab(t[j])
    ensures forall j :: LeadingBlanks(t) + |Strip(t)| <= j < |t| ==> IsSpaceOrTab(t[j])
    ensures Strip(t) != [] ==> !IsSpaceOrTab(Strip(t)[0]) && !IsSpaceOrTab(Strip(t)[|Strip(t)| - 1])
  {
    var p := LeadingBlanks(t);
    var u := t[p..];
    var k := TrimmedEnd(u, false);
    assert Strip(t) == u[..k];
    forall j | p + k <= j < |t|
      ensures IsSpaceOrTab(t[j])
    {
      assert t[j] == u[j - p];
      assert Trimmable(u[j - p], false);
    }
    if k > 0 {
      assert Trimmable(u[k - 1], false) == IsSpaceOrTab(u[k - 1]);
    }
  }

  /** No character other than a space or a tab is ever stripped; in particular line breaks survive. */
  lemma StripKeepsNonBlanks(t: seq<char>, i: nat)
    requires i < |t| && !IsSpaceOrTab(t[i])
    ensures LeadingBlanks(t) <= i < LeadingBlanks(t) + |Strip(t)|
    ensures Strip(t)[i - LeadingBlanks(t)] == t[i]
  {
    var p := LeadingBlanks(t);
    var u := t[p..];
    assert Strip(t) == u[..TrimmedEnd(u, false)];
    assert p <= i;
    assert u[i - p] == t[i] && !Trimmable(u[i - p], false);
  }

  /** Stripping twice is stripping once. */
  lemma StripIdempotent(t: seq<char>)
    ensures Strip(Strip(t)) == Strip(t)
  {
    StripShape(t);
    var u := Strip(t);
    if u != [] {
      assert LeadingBlanks(u) == 0;
      assert u[0..] == u;
      assert TrimmedEnd(u, false) == |u|;
    }
  }

  /** ltrim followed by rtrim leaves the stripped text in the buffer. */
  lemma TrimmedText(s: seq<char>)
    requires IsCString(s)
    ensures IsCString(RTrimmed(LTrimmed(s), false))
    ensures Text(RTrimmed(LTrimmed(s), false)) == Strip(Text(s))
  {
    LTrimmedText(s);
    LeadingBlanksOfText(s);
    RTrimmedText(LTrimmed(s), false);
  }

  /** On a string that has nothing to strip, ltrim followed by rtrim changes no character of the buffer. */
  lemma TrimmedUnchanged(s: seq<char>)
    requires IsCString(s) && Strip(Text(s)) == Text(s)
    ensures RTrimmed(LTrimmed(s), false) == s
  {
    var t := Text(s);
    StripShape(t);
    LeadingBlanksOfText(s);
    assert LeadingBlanks(s) == 0;
    assert t[0..] == t;
    assert TrimmedEnd(t, false) == |t|;
  }

  /** The buffer memmove leaves when ltrim moves the text from its first non-blank to the start. */
  lemma MovedIsLTrimmed(s: seq<char>, p: nat, m: nat, moved: seq<char>)
    requires IsCString(s) && p == LeadingBlanks(s) && 0 < p && m == StrLen(s) - p
    requires moved == s[p..p + (m + 1)] + s[m + 1..]
    ensures moved == LTrimmed(s)
    ensures IsCString(moved) && StrLen(moved) == m
  {
    LeadingBlanksInText(s);
    LTrimmedText(s);
  }

  /**
   * ltrim, as written: removes the leading spaces and tabs by moving the
   * text, terminator included, to the start of the buffer; when there are
   * none, nothing is moved and the length argument is handed back as it came.
   * When there are blanks and no length was supplied, the length of the text
   * from the first non-blank is measured, moved and returned.  A supplied
   * length is used as it is: that many characters plus one are moved from the
   * first non-blank, and that same length is returned.  Only a supplied length
   * equal to the length of the text from the first non-blank makes the result
   * the new length.
   */
  method LTrim(a: array<char>, len: Option<nat>) returns (r: Option<nat>)
    requires IsCString(a[..])
    requires len.Some? && LeadingBlanks(a[..]) > 0 ==> LeadingBlanks(a[..]) + len.value < a.Length
    modifies a
    ensures LeadingBlanks(old(a[..])) == 0 ==> a[..] == old(a[..])
    ensures LeadingBlanks(old(a[..])) == 0 ==> r == if old(a[0]) == '\0' then Some(0) else len
    ensures var p := LeadingBlanks(old(a[..]));
      p > 0 && len.Some? ==> a[..] == old(a[..])[p..p + len.value + 1] + old(a[..])[len.value + 1..] && r == len
    ensures len.None? || len.value == StrLen(old(a[..])) - LeadingBlanks(old(a[..])) ==>
      a[..] == LTrimmed(old(a[..])) && (r.Some? ==> r.value == StrLen(a[..]))
    ensures r.None? <==> len.None? && old(a[0]) != '\0' && LeadingBlanks(old(a[..])) == 0
  {
    ghost var s := a[..];
    LeadingBlanksInText(s);
    if a[0] == '\0' {
      assert LeadingBlanks(s) == 0 && StrLen(s) == 0;
      return Some(0);
    }
    var ptr := OmitLeadingWhitespace(a[..]);
    r := len;
    if ptr == 0 {
      assert LTrimmed(s) == s;
      LTrimmedText(s);
    } else {
      if r.None? {
        var length := StrLenFrom(a, ptr);
        r := Some(length);
      }
      var m := r.value;
      assert ptr + m < a.Length;
      MoveText(a, ptr, m);
    }
  }

  /** The move of ltrim: m characters and one more from the first non-blank at p to the start of the buffer. */
  method MoveText(a: array<char>, p: nat, m: nat)
    requires IsCString(a[..]) && p == LeadingBlanks(a[..]) && 0 < p && p + m < a.Length
    modifies a
    ensures a[..] == old(a[..])[p..p + m + 1] + old(a[..])[m + 1..]
    ensures m == StrLen(old(a[..])) - p ==> a[..] == LTrimmed(old(a[..])) && IsCString(a[..]) && StrLen(a[..]) == m
  {
    ghost var s := a[..];
    MemMove(a, 0, p, m + 1);
    if m == StrLen(s) - p {
      MovedIsLTrimmed(s, p, m, a[..]);
    }
  }

  /**
   * ltrim given the length of the whole string, as rtrim and trim take it:
   * on "  ab" followed by stale characters in the buffer, the text becomes
   * "ab" yet the length handed back is still 4.
   */
  method LTrimStaleLength() returns (r: Option<nat>, length: nat)
    ensures r == Some(4) && length == 2
  {
    var a := new char[7][' ', ' ', 'a', 'b', '\0', 'x', 'y'];
    ghost var s := a[..];
    assert s == [' ', ' ', 'a', 'b', '\0', 'x', 'y'];
    assert s[4] == '\0';
    assert LeadingBlanks(s[2..]) == 0 by { assert s[2..][0] == 'a'; }
    assert LeadingBlanks(s[1..]) == 1 by { assert s[1..][0] == ' ' && s[1..][1..] == s[2..]; }
    r := LTrim(a, Some(4));
    assert a[..] == ['a', 'b', '\0', 'x', 'y', 'x', 'y'];
    StrLenIs(a[..], 2);
    length := StrLenFrom(a, 0);
  }

  /**
   * ltrim as evidently intended: a supplied length is the length of the whole
   * string, and the blanks removed are subtracted from it, so the text is
   * moved exactly and the result is always the new length when one is known.
   */
  method LTrimFixed(a: array<char>, len: Option<nat>) returns (r: Option<nat>)
    requires IsCString(a[..])
    requires len.Some? ==> len.value == StrLen(a[..])
    modifies a
    ensures a[..] == LTrimmed(old(a[..]))
    ensures LeadingBlanks(old(a[..])) == 0 ==> a[..] == old(a[..])
    ensures IsCString(a[..]) && Text(a[..]) == Text(old(a[..]))[LeadingBlanks(old(a[..]))..]
    ensures r.Some? ==> r.value == StrLen(a[..])
    ensures r.None? <==> len.None? && old(a[0]) != '\0' && LeadingBlanks(old(a[..])) == 0
  {
    ghost var s := a[..];
    LeadingBlanksInText(s);
    LTrimmedText(s);
    var ptr := OmitLeadingWhitespace(a[..]);
    r := LTrim(a, if len.Some? then Some(len.value - ptr) else None);
  }

  /**
   * rtrim, as written: cuts the trailing spaces and tabs by writing one
   * terminator.  It returns the new length, except that a non-empty string of
   * blanks only is emptied while 1 is returned.
   */
  method RTrim(a: array<char>, len: Option<nat>) returns (n: nat)
    requires IsCString(a[..])
    requires len.Some? ==> len.value == StrLen(a[..])
    modifies a
    ensures a[..] == RTrimmed(old(a[..]), false)
    ensures IsCString(a[..]) && StrLen(a[..]) == TrimmedEnd(Text(old(a[..])), false)
    ensures Text(a[..]) == Text(old(a[..]))[..StrLen(a[..])]
    ensures StrLen(a[..]) > 0 || StrLen(old(a[..])) == 0 ==> n == StrLen(a[..])
    ensures StrLen(a[..]) == 0 && StrLen(old(a[..])) > 0 ==> n == 1
  {
    RTrimmedText(a[..], false);
    ghost var length := StrLen(a[..]);
    ghost var kept := TrimmedEnd(Text(a[..]), false);
    if a[0] == '\0' {
      return 0;
    }
    n := if len.None? then StrLen(a[..]) else len.value;
    var cp := n - 1;
    while cp > 0 && IsSpaceOrTab(a[cp])
      invariant 0 <= cp < length && n == cp + 1
      invariant forall j :: cp < j < length ==> IsSpaceOrTab(a[j])
    {
      cp := cp - 1;
      n := n - 1;
    }
    if !IsSpaceOrTab(a[cp]) {
      a[cp + 1] := '\0';
      return;
    }
    // A blank at the first character: the whole string is emptied.
    if IsSpaceOrTab(a[cp]) {
      a[cp] := '\0';
    }
  }

  /** rtrim on a text of two blanks: the buffer is emptied, yet the length returned is 1. */
  method RTrimAllBlank() returns (n: nat, length: nat)
    ensures n == 1 && length == 0
  {
    var a := new char[3][' ', ' ', '\0'];
    StrLenIs(a[..], 2);
    n := RTrim(a, None);
    length := StrLenFrom(a, 0);
  }

  /** rtrim as evidently intended: the same cut, and the result is always the new length. */
  method RTrimFixed(a: array<char>, len: Option<nat>) returns (n: nat)
    requires IsCString(a[..])
    requires len.Some? ==> len.value == StrLen(a[..])
    modifies a
    ensures a[..] == RTrimmed(old(a[..]), false)
    ensures IsCString(a[..]) && StrLen(a[..]) == TrimmedEnd(Text(old(a[..])), false)
    ensures Text(a[..]) == Text(old(a[..]))[..StrLen(a[..])]
    ensures n == StrLen(a[..])
  {
    RTrimmedText(a[..], false);
    ghost var length := StrLen(a[..]);
    if a[0] == '\0' {
      return 0;
    }
    n := if len.None? then StrLen(a[..]) else len.value;
    var cp := n - 1;
    while cp > 0 && IsSpaceOrTab(a[cp])
      invariant 0 <= cp < length && n == cp + 1
      invariant forall j :: cp < j < length ==> IsSpaceOrTab(a[j])
    {
      cp := cp - 1;
      n := n - 1;
    }
    if !IsSpaceOrTab(a[cp]) {
      a[cp + 1] := '\0';
      return;
    }
    a[cp] := '\0';
    n := 0;
  }

  /**
   * rtrim_with_nbsp: like rtrim, but also cuts trailing non-breaking spaces;
   * it returns nothing, so a caller that needs the new length measures again.
   */
  method RTrimWithNbsp(a: array<char>)
    requires IsCString(a[..])
    modifies a
    ensures a[..] == RTrimmed(old(a[..]), true)
    ensures IsCString(a[..]) && StrLen(a[..]) == TrimmedEnd(Text(old(a[..])), true)
    ensures Text(a[..]) == Text(old(a[..]))[..StrLen(a[..])]
  {
    RTrimmedText(a[..], true);
    ghost var length := StrLen(a[..]);
    if a[0] == '\0' {
      return;
    }
    var cp := StrLen(a[..]) - 1;
    while cp > 0 && IsSpaceOrTabOrNbsp(a[cp])
      invariant 0 <= cp < length
      invariant forall j :: cp < j < length ==> IsSpaceOrTabOrNbsp(a[j])
    {
      cp := cp - 1;
    }
    if !IsSpaceOrTabOrNbsp(a[cp]) {
      a[cp + 1] := '\0';
      return;
    }
    if IsSpaceOrTabOrNbsp(a[cp]) {
      a[cp] := '\0';
    }
  }

  /**
   * trim: ltrim, then rtrim on the length ltrim hands back.  The buffer ends
   * up holding the text with both runs of blanks removed, the result is its
   * length, and a string with nothing to strip is left untouched.  A supplied
   * length must be the length of the text from the first non-blank, the only
   * one for which ltrim as written hands back the new length.
   */
  method Trim(a: array<char>, len: Option<nat>) returns (r: nat)
    requires IsCString(a[..])
    requires len.Some? ==> len.value == StrLen(a[..]) - LeadingBlanks(a[..])
    modifies a
    ensures a[..] == RTrimmed(LTrimmed(old(a[..])), false)
    ensures IsCString(a[..]) && Text(a[..]) == Strip(Text(old(a[..])))
    ensures r == StrLen(a[..])
    ensures Strip(Text(old(a[..]))) == Text(old(a[..])) ==> a[..] == old(a[..])
  {
    TrimmedText(a[..]);
    if Strip(Text(a[..])) == Text(a[..]) {
      TrimmedUnchanged(a[..]);
    }
    var length := LTrim(a, len);
    r := RTrim(a, length);
  }

  /** trim on the corrected ltrim and rtrim: a supplied length is the length of the whole string. */
  method TrimFixed(a: array<char>, len: Option<nat>) returns (r: nat)
    requires IsCString(a[..])
    requires len.Some? ==> len.value == StrLen(a[..])
    modifies a
    ensures a[..] == RTrimmed(LTrimmed(old(a[..])), false)
    ensures IsCString(a[..]) && Text(a[..]) == Strip(Text(old(a[..])))
    ensures r == StrLen(a[..])
    ensures Strip(Text(old(a[..]))) == Text(old(a[..])) ==> a[..] == old(a[..])
  {
    TrimmedText(a[..]);
    if Strip(Text(a[..])) == Text(a[..]) {
      TrimmedUnchanged(a[..]);
    }
    var length := LTrimFixed(a, len);
    r := RTrimFixed(a, length);
  }
}
