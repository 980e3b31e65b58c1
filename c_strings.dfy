/**
 * NUL-terminated character buffers and the primitives of util.h that only
 * measure or search them (strnlen, StrChrAny), plus strlcpy and the C
 * library's memmove, which write into a caller-owned buffer.
 * A pointer into a buffer is an index; a buffer that starts at a pointer
 * is the suffix of the sequence from that index.
 */
module CStrings {
  import opened Wrappers

  /** A C string: a buffer that holds a '\0' terminator somewhere. */
  predicate IsCString(s: seq<char>) {
    '\0' in s
  }

  /** strlen: the index of the first terminator. */
  function StrLen(s: seq<char>): (n: nat)
    requires IsCString(s)
    ensures n < |s| && s[n] == '\0'
    ensures forall j :: 0 <= j < n ==> s[j] != '\0'
  {
    if s[0] == '\0' then 0
    else
      assert '\0' in s[1..] by {
        var k :| 0 <= k < |s| && s[k] == '\0';
        assert s[1..][k - 1] == '\0';
      }
      1 + StrLen(s[1..])
  }

  /** The characters of a C string, terminator excluded. */
  function Text(s: seq<char>): (t: seq<char>)
    requires IsCString(s)
    ensures '\0' !in t
  {
    s[..StrLen(s)]
  }

  /** A terminator at k with none before it is the one strlen finds. */
  lemma StrLenIs(s: seq<char>, k: nat)
    requires k < |s| && s[k] == '\0'
    requires forall j :: 0 <= j < k ==> s[j] != '\0'
    ensures IsCString(s) && StrLen(s) == k && Text(s) == s[..k]
  {
  }

  /** strlen of a pointer into a buffer: the number of characters from index from to the terminator. */
  method StrLenFrom(a: array<char>, from: nat) returns (n: nat)
    requires IsCString(a[..]) && from <= StrLen(a[..])
    ensures n == StrLen(a[..]) - from
  {
    n := 0;
    while a[from + n] != '\0'
      invariant from + n <= StrLen(a[..])
      decreases StrLen(a[..]) - from - n
    {
      n := n + 1;
    }
  }

  /** The number of characters strnlen counts: up to max, stopping at a terminator or at the end of the buffer. */
  function BoundedLen(s: seq<char>, max: nat): (n: nat)
    ensures n <= max && n <= |s|
    ensures forall j :: 0 <= j < n ==> s[j] != '\0'
    ensures n < max && n < |s| ==> s[n] == '\0'
    ensures IsCString(s) ==> n <= StrLen(s) && (n == StrLen(s) || n == max)
  {
    if max == 0 || s == [] || s[0] == '\0' then 0 else 1 + BoundedLen(s[1..], max - 1)
  }

  /**
   * strnlen: the length of the string or max, whichever is less.  The loop
   * reads s[i] before it tests i < max, so it may read one character at index max.
   */
  method StrNLen(s: seq<char>, max: nat) returns (n: nat)
    requires IsCString(s) || max < |s|
    ensures n == BoundedLen(s, max)
    ensures n <= max && '\0' !in s[..n]
    ensures IsCString(s) ==> n == if StrLen(s) < max then StrLen(s) else max
  {
    if max == 0 || s[0] == '\0' {
      return 0;
    }
    var i := 0;
    while s[i] != '\0' && i < max
      invariant i <= max && i < |s|
      invariant forall j :: 0 <= j < i ==> s[j] != '\0'
      invariant IsCString(s) ==> i <= StrLen(s)
      decreases max - i
    {
      i := i + 1;
    }
    n := i;
  }

  /** True when c is one of the characters listed in the C string list (never the terminator). */
  predicate Listed(c: char, list: seq<char>)
    requires IsCString(list)
  {
    c in Text(list)
  }

  /** The inner loop shared by StrChrAny and the omit_*_any scans: is c in the list? */
  method MemberOf(c: char, list: seq<char>) returns (found: bool)
    requires IsCString(list)
    ensures found <==> Listed(c, list)
    ensures found ==> c != '\0'
  {
    var k := 0;
    while list[k] != '\0'
      invariant k <= StrLen(list)
      invariant c !in list[..k]
      decreases StrLen(list) - k
    {
      if c == list[k] {
        return true;
      }
      k := k + 1;
    }
    return false;
  }

  /**
   * StrChrAny: the position of the first character of s that is any of the
   * characters of list, or None (NULL) when there is none or either string is empty.
   */
  method StrChrAny(s: seq<char>, list: seq<char>) returns (r: Option<nat>)
    requires IsCString(s) && IsCString(list)
    ensures r.Some? ==> r.value < StrLen(s) && Listed(s[r.value], list)
    ensures r.Some? ==> forall j :: 0 <= j < r.value ==> !Listed(s[j], list)
    ensures r.None? ==> forall j :: 0 <= j < StrLen(s) ==> !Listed(s[j], list)
  {
    if s[0] == '\0' || list[0] == '\0' {
      return None;
    }
    var i := 0;
    while s[i] != '\0'
      invariant i <= StrLen(s)
      invariant forall j :: 0 <= j < i ==> !Listed(s[j], list)
      decreases StrLen(s) - i
    {
      var found := MemberOf(s[i], list);
      if found {
        return Some(i);
      }
      i := i + 1;
    }
    return None;
  }

  /** A buffer that agrees with the moved range and elsewhere with the original is the moved buffer. */
  lemma ExtendMove(now: seq<char>, was: seq<char>, dst: nat, src: nat, count: nat)
    requires |now| == |was| && dst + count <= |was| && src + count <= |was|
    requires forall j :: dst <= j < dst + count ==> now[j] == was[src + (j - dst)]
    requires forall j :: 0 <= j < |now| && !(dst <= j < dst + count) ==> now[j] == was[j]
    ensures now == was[..dst] + was[src..src + count] + was[dst + count..]
    ensures dst == 0 ==> now == was[src..src + count] + was[count..]
  {
    var moved := was[..dst] + was[src..src + count] + was[dst + count..];
    forall j | 0 <= j < |now|
      ensures now[j] == moved[j]
    {
      if j < dst {
      } else if j < dst + count {
        assert moved[j] == was[src..src + count][j - dst];
      } else {
        assert moved[j] == was[dst + count..][j - dst - count];
      }
    }
    assert was[..0] == [];
  }

  /**
   * memmove: copies count characters from index src to index dst of the
   * same buffer, correct when the two ranges overlap.
   */
  method MemMove(a: array<char>, dst: nat, src: nat, count: nat)
    requires dst + count <= a.Length && src + count <= a.Length
    modifies a
    ensures a[..] == old(a[..])[..dst] + old(a[..])[src..src + count] + old(a[..])[dst + count..]
    ensures dst == 0 ==> a[..] == old(a[..])[src..src + count] + old(a[..])[count..]
  {
    if dst <= src {
      var i := 0;
      while i < count
        invariant i <= count
        invariant forall j :: dst <= j < dst + i ==> a[j] == old(a[src + (j - dst)])
        invariant forall j :: 0 <= j < a.Length && !(dst <= j < dst + i) ==> a[j] == old(a[j])
      {
        a[dst + i] := a[src + i];
        i := i + 1;
      }
      ExtendMove(a[..], old(a[..]), dst, src, count);
    } else {
      var i := count;
      while i > 0
        invariant 0 <= i <= count
        invariant forall j :: dst + i <= j < dst + count ==> a[j] == old(a[src + (j - dst)])
        invariant forall j :: 0 <= j < a.Length && !(dst + i <= j < dst + count) ==> a[j] == old(a[j])
      {
        i := i - 1;
        a[dst + i] := a[src + i];
      }
      ExtendMove(a[..], old(a[..]), dst, src, count);
    }
  }

  /**
   * strlcpy: copies at most dstSize - 1 characters of src into dst and
   * terminates dst at index dstSize - 1.  The strncpy underneath pads the
   * rest of the first dstSize - 1 characters with terminators.
   */
  method StrLCpy(dst: array<char>, src: seq<char>, dstSize: nat)
    requires 1 <= dstSize <= dst.Length
    requires IsCString(src) || dstSize - 1 <= |src|
    modifies dst
    ensures var n := BoundedLen(src, dstSize - 1);
      dst[..] == src[..n] + seq(dstSize - n, _ => '\0') + old(dst[dstSize..])
    ensures IsCString(dst[..]) && Text(dst[..]) == src[..BoundedLen(src, dstSize - 1)]
  {
    ghost var n := BoundedLen(src, dstSize - 1);
    var i := 0;
    while i < dstSize - 1 && src[i] != '\0'
      invariant i <= n
      invariant forall j :: 0 <= j < i ==> dst[j] == src[j]
      invariant forall j :: i <= j < dst.Length ==> dst[j] == old(dst[j])
    {
      dst[i] := src[i];
      i := i + 1;
    }
    while i < dstSize - 1
      invariant n <= i <= dstSize - 1
      invariant forall j :: 0 <= j < n ==> dst[j] == src[j]
      invariant forall j :: n <= j < i ==> dst[j] == '\0'
      invariant forall j :: i <= j < dst.Length ==> dst[j] == old(dst[j])
    {
      dst[i] := '\0';
      i := i + 1;
    }
    dst[dstSize - 1] := '\0';
    CopiedShape(dst[..], old(dst[..]), src, n, dstSize);
  }

  /** The buffer left by StrLCpy, described pointwise, is the copied prefix, terminators, then the untouched tail. */
  lemma CopiedShape(now: seq<char>, was: seq<char>, src: seq<char>, n: nat, size: nat)
    requires |now| == |was| && n < size <= |now| && n <= |src| && '\0' !in src[..n]
    requires forall j :: 0 <= j < n ==> now[j] == src[j]
    requires forall j :: n <= j < size ==> now[j] == '\0'
    requires forall j :: size <= j < |now| ==> now[j] == was[j]
    ensures now == src[..n] + seq(size - n, _ => '\0') + was[size..]
    ensures IsCString(now) && Text(now) == src[..n]
  {
    var want := src[..n] + seq(size - n, _ => '\0') + was[size..];
    forall j | 0 <= j < |now|
      ensures now[j] == want[j]
    {
      if j < n {
      } else if j < size {
        assert want[j] == seq(size - n, _ => '\0')[j - n];
      } else {
        assert want[j] == was[size..][j - size];
      }
    }
    assert forall j :: 0 <= j < n ==> now[j] == src[..n][j];
    StrLenIs(now, n);
  }
}
