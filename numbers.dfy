/**
 * Hex detection, the ATOI family's radix dispatch and the ITOA/UTOA
 * formatters of util.h.  A number is read in radix 16 exactly when IsHex
 * holds and in radix 10 otherwise, so a leading zero never selects octal.
 * Negative values are written as a minus sign before the hex prefix, so
 * that what ITOA writes reads back through ATOI to the same value.
 */
module Numbers {
  import opened CharClass
  import opened CStrings
  import opened Scan
  import opened CrtDigits

  /** At p: the "0x"/"0X" prefix and a hex digit, possibly after one '+' or '-'. */
  predicate SignedHexAt(s: seq<char>, p: nat)
  {
    HexPrefixAt(s, p) || (p < |s| && (s[p] == '+' || s[p] == '-') && HexPrefixAt(s, p + 1))
  }

  /** Only spaces and tabs come before p. */
  predicate BlanksBefore(s: seq<char>, p: nat)
  {
    p <= |s| && forall j :: 0 <= j < p ==> IsSpaceOrTab(s[j])
  }

  /** A position that only blanks precede and where a signed hex number starts is the first non-blank. */
  lemma SignedHexOnlyAfterBlanks(s: seq<char>, p: nat)
    requires BlanksBefore(s, p) && SignedHexAt(s, p)
    ensures p == LeadingBlanks(s)
  {
    var lb := LeadingBlanks(s);
    assert p < |s| && !IsSpaceOrTab(s[p]);
  }

  /**
   * IsHex: after the leading spaces and tabs and at most one sign, the text
   * starts with '0', then 'x' or 'X', then a hex digit.
   */
  function IsHex(s: seq<char>): (b: bool)
    requires IsCString(s)
    ensures b <==> exists p: nat :: BlanksBefore(s, p) && SignedHexAt(s, p)
  {
    LeadingBlanksInText(s);
    var p := LeadingBlanks(s);
    assert BlanksBefore(s, p);
    assert forall q: nat :: BlanksBefore(s, q) && SignedHexAt(s, q) ==> q == p by {
      forall q: nat | BlanksBefore(s, q) && SignedHexAt(s, q)
        ensures q == p
      {
        SignedHexOnlyAfterBlanks(s, q);
      }
    }
    if s[p] == '\0' then false
    else HexPrefixAt(s, AfterSign(s, p))
  }

  /** Some texts and whether they are hex. */
  lemma IsHexExamples()
    ensures !IsHex("0x\0") && !IsHex("-0X\0") && IsHex("  -0x1A\0")
  {
    assert SignedHexAt("  -0x1A\0", 2);
  }

  /** The radix the ATOI macros choose: 16 exactly when IsHex holds, 10 otherwise (never 8). */
  function RadixOf(s: seq<char>): (base: nat)
    requires IsCString(s)
    ensures IsRadix(base)
  {
    if IsHex(s) then 16 else 10
  }

  /** ATOI (bits 32) and ATOI64 (bits 64): a signed conversion in the chosen radix. */
  function ConvertSigned(s: seq<char>, bits: nat): (v: int)
    requires IsCString(s) && bits >= 1
    ensures InSigned(v, bits)
  {
    ToSigned(ScanInteger(s, RadixOf(s)), bits)
  }

  /** ATOU (bits 32) and ATOU64 (bits 64): an unsigned conversion in the chosen radix. */
  function ConvertUnsigned(s: seq<char>, bits: nat): (v: nat)
    requires IsCString(s)
    ensures v < Pow2(bits)
  {
    ToUnsigned(ScanInteger(s, RadixOf(s)), bits)
  }

  function Atoi(s: seq<char>): int requires IsCString(s) { ConvertSigned(s, 32) }
  function Atoi64(s: seq<char>): int requires IsCString(s) { ConvertSigned(s, 64) }
  function Atou(s: seq<char>): nat requires IsCString(s) { ConvertUnsigned(s, 32) }
  function Atou64(s: seq<char>): nat requires IsCString(s) { ConvertUnsigned(s, 64) }

  /** A zero followed by decimal digits is read as decimal, not octal. */
  lemma LeadingZeroIsDecimal(t: seq<char>, bits: nat)
    requires bits >= 1
    requires forall i :: 0 <= i < |t| ==> '0' <= t[i] <= '9'
    ensures forall i :: 0 <= i < |t| ==> IsDigitOf(t[i], 10)
    ensures ConvertSigned(['0'] + t + ['\0'], bits) == ToSigned(Scanned(false, ParseDigits(t, 10)), bits)
    ensures ConvertUnsigned(['0'] + t + ['\0'], bits) == ToUnsigned(Scanned(false, ParseDigits(t, 10)), bits)
  {
    ZeroLedScan(t);
  }

  /** A zero-led digit string is not hex and scans in radix 10 to the value of its digits. */
  lemma ZeroLedScan(t: seq<char>)
    requires forall i :: 0 <= i < |t| ==> '0' <= t[i] <= '9'
    ensures IsCString(['0'] + t + ['\0']) && RadixOf(['0'] + t + ['\0']) == 10
    ensures forall i :: 0 <= i < |t| ==> IsDigitOf(t[i], 10)
    ensures ScanInteger(['0'] + t + ['\0'], 10) == Scanned(false, ParseDigits(t, 10))
  {
    var s := ['0'] + t + ['\0'];
    StrLenIs(s, |s| - 1);
    assert !IsHex(s) by {
      LeadingBlanksInText(s);
      assert LeadingBlanks(s) == 0;
      assert s[1] != 'x' && s[1] != 'X';
    }
    assert s[0..] == (['0'] + t) + ['\0'];
    DigitRunOf(['0'] + t, ['\0'], 10);
    ParseDigitsLeadingZero(t, 10);
  }

  function Radix(hex: bool): (base: nat)
    ensures IsRadix(base)
  {
    if hex then 16 else 10
  }

  /** The text ITOA and ITOA64 write: a minus sign if negative, "0x" in hex mode, then the magnitude's digits. */
  function FormatSigned(v: int, hex: bool): (t: seq<char>)
    ensures |t| >= 1 && (v < 0 <==> t[0] == '-')
  {
    (if v < 0 then "-" else "") + FormatUnsigned(if v < 0 then -v as nat else v as nat, hex)
  }

  /** The text UTOA and UTOA64 write: "0x" in hex mode, then the value's digits; never a sign. */
  function FormatUnsigned(v: nat, hex: bool): (t: seq<char>)
    ensures |t| >= 1 && t[0] != '-'
  {
    (if hex then "0x" else "") + Digits(v, Radix(hex))
  }

  /** The text of a sign, a hex prefix in hex mode and digits, with a terminator. */
  function Formatted(negative: bool, hex: bool, m: nat): seq<char>
  {
    (if negative then "-" else "") + FormatUnsigned(m, hex) + ['\0']
  }

  lemma FormattedUnsigned(m: nat, hex: bool)
    ensures Formatted(false, hex, m) == FormatUnsigned(m, hex) + ['\0']
  {
    assert "" + FormatUnsigned(m, hex) == FormatUnsigned(m, hex);
  }

  lemma FormattedIsCString(negative: bool, hex: bool, m: nat)
    ensures IsCString(Formatted(negative, hex, m))
    ensures StrLen(Formatted(negative, hex, m)) == |Formatted(negative, hex, m)| - 1
    ensures LeadingBlanks(Formatted(negative, hex, m)) == 0
  {
    var s, d := Formatted(negative, hex, m), Digits(m, Radix(hex));
    var start := |s| - 1 - |d|;
    assert s[|s| - 1] == '\0';
    forall j | 0 <= j < |s| - 1
      ensures s[j] != '\0'
    {
      if j >= start {
        assert s[j] == d[j - start];
      }
    }
    StrLenIs(s, |s| - 1);
    assert s[0] == '-' || s[0] == '0' || s[0] == d[0];
  }

  lemma FormattedIsHex(negative: bool, hex: bool, m: nat)
    ensures IsCString(Formatted(negative, hex, m))
    ensures IsHex(Formatted(negative, hex, m)) == hex
  {
    FormattedIsCString(negative, hex, m);
    var s, d := Formatted(negative, hex, m), Digits(m, Radix(hex));
    var k := if negative then 1 else 0;
    assert AfterSign(s, 0) == k;
    if hex {
      assert s[k + 2] == d[0];
      assert HexPrefixAt(s, k);
    } else {
      assert s[k] == d[0];
      if |d| > 1 {
        assert s[k + 1] == d[1];
      } else {
        assert s[k + 1] == '\0';
      }
      assert !HexPrefixAt(s, k);
    }
  }

  /** What the conversions read from s when no blanks lead, the digits start at start and a terminator follows them. */
  lemma ScanDigitText(s: seq<char>, start: nat, d: seq<char>, base: nat)
    requires IsRadix(base) && LeadingBlanks(s) == 0
    requires start == (var k := AfterSign(s, 0); if base == 16 && HexPrefixAt(s, k) then k + 2 else k)
    requires start <= |s| && s[start..] == d + ['\0']
    requires forall i :: 0 <= i < |d| ==> IsDigitOf(d[i], base)
    ensures ScanInteger(s, base) == Scanned(|s| > 0 && s[0] == '-', ParseDigits(d, base))
  {
    DigitRunOf(d, ['\0'], base);
    assert s[start..][..|d|] == d;
  }

  /** The sign and the hex mark that precede the digits. */
  function Head(negative: bool, hex: bool): seq<char>
  {
    (if negative then "-" else "") + (if hex then "0x" else "")
  }

  lemma FormattedSplit(negative: bool, hex: bool, m: nat)
    ensures Formatted(negative, hex, m) == Head(negative, hex) + (Digits(m, Radix(hex)) + ['\0'])
  {
  }

  /** What the conversions read from a sign, a hex mark and digits that a terminator follows. */
  lemma ScanLaidOut(negative: bool, hex: bool, d: seq<char>)
    requires |d| >= 1 && IsXDigit(d[0])
    requires forall i :: 0 <= i < |d| ==> IsDigitOf(d[i], Radix(hex))
    ensures ScanInteger(Head(negative, hex) + (d + ['\0']), Radix(hex)) == Scanned(negative, ParseDigits(d, Radix(hex)))
  {
    var head := Head(negative, hex);
    var s := head + (d + ['\0']);
    var k := if negative then 1 else 0;
    assert s[0] == (if negative then '-' else if hex then '0' else d[0]);
    assert LeadingBlanks(s) == 0 && AfterSign(s, 0) == k;
    assert hex ==> HexPrefixAt(s, k) by {
      if hex {
        assert s[k] == '0' && s[k + 1] == 'x' && s[k + 2] == d[0];
      }
    }
    assert s[|head|..] == d + ['\0'];
    ScanDigitText(s, |head|, d, Radix(hex));
  }

  lemma FormattedScan(negative: bool, hex: bool, m: nat)
    ensures ScanInteger(Formatted(negative, hex, m), Radix(hex)) == Scanned(negative, m)
  {
    FormattedSplit(negative, hex, m);
    ScanLaidOut(negative, hex, Digits(m, Radix(hex)));
    ParseDigitsOfDigits(m, Radix(hex));
  }

  /** Reading back a sign, a hex prefix in hex mode and digits gives the sign and the digits' value. */
  lemma ScanFormatted(negative: bool, hex: bool, m: nat)
    ensures IsCString(Formatted(negative, hex, m))
    ensures RadixOf(Formatted(negative, hex, m)) == Radix(hex)
    ensures ScanInteger(Formatted(negative, hex, m), Radix(hex)) == Scanned(negative, m)
  {
    FormattedIsHex(negative, hex, m);
    FormattedScan(negative, hex, m);
  }

  /** What ITOA/ITOA64 write reads back through ATOI/ATOI64 as the same value, in either mode. */
  lemma SignedRoundTrip(v: int, hex: bool, bits: nat)
    requires bits >= 1 && InSigned(v, bits)
    ensures IsCString(FormatSigned(v, hex) + ['\0'])
    ensures ConvertSigned(FormatSigned(v, hex) + ['\0'], bits) == v
  {
    ScanFormatted(v < 0, hex, if v < 0 then -v as nat else v as nat);
    assert FormatSigned(v, hex) + ['\0'] == Formatted(v < 0, hex, if v < 0 then -v as nat else v as nat);
  }

  /** What UTOA/UTOA64 write reads back through ATOU/ATOU64 as the same value, in either mode. */
  lemma UnsignedRoundTrip(v: nat, hex: bool, bits: nat)
    requires v < Pow2(bits)
    ensures IsCString(FormatUnsigned(v, hex) + ['\0'])
    ensures ConvertUnsigned(FormatUnsigned(v, hex) + ['\0'], bits) == v
  {
    ScanFormatted(false, hex, v);
    FormattedUnsigned(v, hex);
  }

  /** Blanks are never the terminator, so the leading blanks of a C string do not depend on what follows it. */
  lemma LeadingBlanksStopAtTerminator(s: seq<char>, tail: seq<char>)
    requires IsCString(s)
    ensures LeadingBlanks(s + tail) == LeadingBlanks(s)
  {
    LeadingBlanksInText(s);
    var p, q := LeadingBlanks(s), LeadingBlanks(s + tail);
    assert (s + tail)[p] == s[p];
  }

  /** The "0x" test at a position within the text reads nothing after the terminator. */
  lemma HexPrefixStopsAtTerminator(s: seq<char>, tail: seq<char>, q: nat)
    requires IsCString(s) && q <= StrLen(s)
    ensures HexPrefixAt(s + tail, q) == HexPrefixAt(s, q)
    ensures HexPrefixAt(s, q) ==> q + 2 < StrLen(s)
  {
    var n, u := StrLen(s), s + tail;
    assert forall i :: 0 <= i <= n ==> u[i] == s[i];
    assert !IsXDigit('\0');
  }

  /** A digit run within the text ends at or before the terminator, whatever follows it. */
  lemma DigitRunStopsAtTerminator(s: seq<char>, tail: seq<char>, d: nat, base: nat)
    requires IsCString(s) && d <= StrLen(s)
    ensures DigitRun((s + tail)[d..], base) == DigitRun(s[d..], base)
    ensures d + DigitRun(s[d..], base) <= StrLen(s)
  {
    var n, u := StrLen(s), s + tail;
    var k := DigitRun(s[d..], base);
    assert s[d..][n - d] == '\0' && !IsDigitOf('\0', base);
    assert forall i :: 0 <= i <= k ==> u[d..][i] == s[d..][i];
  }

  /** The digits read from a position within the text do not depend on what follows the terminator. */
  lemma DigitTextStopsAtTerminator(s: seq<char>, tail: seq<char>, d: nat, base: nat)
    requires IsCString(s) && d <= StrLen(s)
    ensures (s + tail)[d..][..DigitRun((s + tail)[d..], base)] == s[d..][..DigitRun(s[d..], base)]
  {
    var u := s + tail;
    DigitRunStopsAtTerminator(s, tail, d, base);
    var k := DigitRun(s[d..], base);
    assert |u[d..][..k]| == |s[d..][..k]| == k;
    forall i | 0 <= i < k
      ensures u[d..][..k][i] == s[d..][..k][i]
    {
      assert u[d + i] == s[d + i];
    }
  }

  /** The blanks and the sign strtol reads lie within the text and do not depend on what follows the terminator. */
  lemma SignStopsAtTerminator(s: seq<char>, tail: seq<char>)
    requires IsCString(s)
    ensures LeadingBlanks(s + tail) == LeadingBlanks(s)
    ensures AfterSign(s + tail, LeadingBlanks(s)) == AfterSign(s, LeadingBlanks(s)) <= StrLen(s)
    ensures var p := LeadingBlanks(s); (p < |s + tail| && (s + tail)[p] == '-') == (p < |s| && s[p] == '-')
  {
    var n, u := StrLen(s), s + tail;
    LeadingBlanksStopAtTerminator(s, tail);
    LeadingBlanksInText(s);
    var p := LeadingBlanks(s);
    assert u[p] == s[p];
    if AfterSign(s, p) == p + 1 {
      assert s[p] != s[n];
    }
  }

  /** strtol and its relatives read nothing after the terminator. */
  lemma ScanStopsAtTerminator(s: seq<char>, tail: seq<char>, base: nat)
    requires IsCString(s) && IsRadix(base)
    ensures ScanInteger(s + tail, base) == ScanInteger(s, base)
  {
    SignStopsAtTerminator(s, tail);
    var q := AfterSign(s, LeadingBlanks(s));
    HexPrefixStopsAtTerminator(s, tail, q);
    var d := if base == 16 && HexPrefixAt(s, q) then q + 2 else q;
    DigitTextStopsAtTerminator(s, tail, d, base);
  }

  /** IsHex reads nothing after the terminator. */
  lemma IsHexStopsAtTerminator(s: seq<char>, tail: seq<char>)
    requires IsCString(s)
    ensures IsCString(s + tail) && IsHex(s + tail) == IsHex(s)
  {
    var n, u := StrLen(s), s + tail;
    assert u[n] == '\0';
    LeadingBlanksStopAtTerminator(s, tail);
    LeadingBlanksInText(s);
    var p := LeadingBlanks(s);
    assert u[p] == s[p];
    if s[p] != '\0' {
      var q := AfterSign(s, p);
      assert AfterSign(u, p) == q;
      HexPrefixStopsAtTerminator(s, tail, q);
    }
  }

  /** ATOI and ATOU read nothing after the terminator: what the buffer holds behind it does not change the value. */
  lemma ConversionStopsAtTerminator(s: seq<char>, tail: seq<char>, bits: nat)
    requires IsCString(s) && bits >= 1
    ensures IsCString(s + tail)
    ensures ConvertSigned(s + tail, bits) == ConvertSigned(s, bits)
    ensures ConvertUnsigned(s + tail, bits) == ConvertUnsigned(s, bits)
  {
    IsHexStopsAtTerminator(s, tail);
    ScanStopsAtTerminator(s, tail, RadixOf(s));
  }

  /** The buffer ITOA/ITOA64 leave behind, old characters after the terminator included, reads back through ATOI/ATOI64 as the value. */
  lemma SignedRoundTripInBuffer(v: int, hex: bool, bits: nat, tail: seq<char>)
    requires bits >= 1 && InSigned(v, bits)
    ensures IsCString(FormatSigned(v, hex) + ['\0'] + tail)
    ensures ConvertSigned(FormatSigned(v, hex) + ['\0'] + tail, bits) == v
  {
    SignedRoundTrip(v, hex, bits);
    ConversionStopsAtTerminator(FormatSigned(v, hex) + ['\0'], tail, bits);
  }

  /** The buffer UTOA/UTOA64 leave behind reads back through ATOU/ATOU64 as the value. */
  lemma UnsignedRoundTripInBuffer(v: nat, hex: bool, bits: nat, tail: seq<char>)
    requires bits >= 1 && v < Pow2(bits)
    ensures IsCString(FormatUnsigned(v, hex) + ['\0'] + tail)
    ensures ConvertUnsigned(FormatUnsigned(v, hex) + ['\0'] + tail, bits) == v
  {
    UnsignedRoundTrip(v, hex, bits);
    ConversionStopsAtTerminator(FormatUnsigned(v, hex) + ['\0'], tail, bits);
  }

  /**
   * Why ITOA writes a sign before "0x": the runtime's radix-16 text of a
   * negative value is its two's-complement bits, which read back as a
   * signed number saturate at the largest positive value.
   */
  lemma TwosComplementHexDoesNotRoundTrip(v: int, bits: nat)
    requires bits >= 1 && InSigned(v, bits) && v < 0
    ensures "0x" + SignedToText(v, 16, bits) == FormatUnsigned(AsUnsigned(v, bits), true)
    ensures IsCString(FormatUnsigned(AsUnsigned(v, bits), true) + ['\0'])
    ensures ConvertSigned(FormatUnsigned(AsUnsigned(v, bits), true) + ['\0'], bits) == Pow2(bits - 1) - 1 != v
  {
    ScanFormatted(false, true, AsUnsigned(v, bits));
    FormattedUnsigned(AsUnsigned(v, bits), true);
  }

  /** Writes t and a terminator into buf from index at, leaving the rest of buf alone. */
  method PutText(buf: array<char>, at: nat, t: seq<char>)
    requires at + |t| < buf.Length
    modifies buf
    ensures buf[..] == old(buf[..at]) + t + ['\0'] + old(buf[at + |t| + 1..])
    ensures at == 0 ==> buf[..] == t + ['\0'] + old(buf[|t| + 1..])
  {
    var i := 0;
    while i < |t|
      invariant i <= |t|
      invariant forall j :: 0 <= j < buf.Length && !(at <= j < at + i) ==> buf[j] == old(buf[j])
      invariant forall j :: at <= j < at + i ==> buf[j] == t[j - at]
    {
      buf[at + i] := t[i];
      i := i + 1;
    }
    buf[at + |t|] := '\0';
    Spliced(buf[..], old(buf[..]), at, t);
  }

  /** A buffer holding t and a terminator at index at, and elsewhere what it held before. */
  lemma Spliced(now: seq<char>, was: seq<char>, at: nat, t: seq<char>)
    requires |now| == |was| && at + |t| < |was|
    requires forall j :: at <= j < at + |t| ==> now[j] == t[j - at]
    requires now[at + |t|] == '\0'
    requires forall j :: 0 <= j < |now| && !(at <= j <= at + |t|) ==> now[j] == was[j]
    ensures now == was[..at] + t + ['\0'] + was[at + |t| + 1..]
    ensures at == 0 ==> now == t + ['\0'] + was[|t| + 1..]
  {
    var want := was[..at] + t + ['\0'] + was[at + |t| + 1..];
    forall j | 0 <= j < |now|
      ensures now[j] == want[j]
    {
      if j < at {
      } else if j < at + |t| {
        assert want[j] == t[j - at];
      } else if j == at + |t| {
      } else {
        assert want[j] == was[at + |t| + 1..][j - at - |t| - 1];
      }
    }
    assert was[..0] == [];
  }

  /** In hex mode ITOA writes the sign and "0x" itself, then the runtime's radix-16 text of the wrapped negation. */
  lemma SignedHexText(value: int, bits: nat)
    requires bits >= 1 && InSigned(value, bits)
    ensures FormatSigned(value, true) ==
      Head(value < 0, true) + SignedToText(if value < 0 then NegateWrapped(value, bits) else value, 16, bits)
  {
    if value < 0 {
      NegatedHexIsMagnitude(value, bits);
    }
  }

  /** Without the hex flag ITOA's text is the runtime's radix-10 text. */
  lemma SignedDecimalText(value: int, bits: nat)
    requires bits >= 1 && InSigned(value, bits)
    ensures FormatSigned(value, false) == SignedToText(value, 10, bits)
  {
    var sign := if value < 0 then "-" else "";
    var d := Digits(if value < 0 then -value as nat else value as nat, 10);
    assert FormatSigned(value, false) == sign + "" + d;
    assert sign + "" + d == sign + d;
  }

  /** ITOA (bits 32) and ITOA64 (bits 64): writes FormatSigned(value) and a terminator at the start of buf. */
  method PutSigned(value: int, buf: array<char>, formatIntAsHex: bool, bits: nat)
    requires bits >= 1 && InSigned(value, bits)
    requires |FormatSigned(value, formatIntAsHex)| < buf.Length
    modifies buf
    ensures var n := |FormatSigned(value, formatIntAsHex)|;
      buf[..] == FormatSigned(value, formatIntAsHex) + ['\0'] + old(buf[n + 1..])
  {
    if formatIntAsHex {
      PutSignedHex(value, buf, bits);
    } else {
      PutSignedDecimal(value, buf, bits);
    }
  }

  /** The decimal branch of ITOA: the runtime's radix-10 text, sign included. */
  method PutSignedDecimal(value: int, buf: array<char>, bits: nat)
    requires bits >= 1 && InSigned(value, bits)
    requires |FormatSigned(value, false)| < buf.Length
    modifies buf
    ensures var n := |FormatSigned(value, false)|;
      buf[..] == FormatSigned(value, false) + ['\0'] + old(buf[n + 1..])
  {
    var digits := SignedToText(value, 10, bits);
    SignedDecimalText(value, bits);
    PutText(buf, 0, digits);
  }

  /** The hex branch of ITOA: the sign and "0x" written one by one, then the runtime's radix-16 text of the magnitude. */
  method PutSignedHex(value: int, buf: array<char>, bits: nat)
    requires bits >= 1 && InSigned(value, bits)
    requires |FormatSigned(value, true)| < buf.Length
    modifies buf
    ensures var n := |FormatSigned(value, true)|;
      buf[..] == FormatSigned(value, true) + ['\0'] + old(buf[n + 1..])
  {
    var magnitude := if value < 0 then NegateWrapped(value, bits) else value;
    var digits := SignedToText(magnitude, 16, bits);
    SignedHexText(value, bits);
    var at := PutHexHead(buf, value < 0);
    PutText(buf, at, digits);
  }

  /** Writes '-' when negative, then "0x", at the start of buf; the characters after them are kept. */
  method PutHexHead(buf: array<char>, negative: bool) returns (at: nat)
    requires |Head(negative, true)| <= buf.Length
    modifies buf
    ensures at == |Head(negative, true)|
    ensures buf[..at] == Head(negative, true)
    ensures buf[at..] == old(buf[at..])
  {
    at := 0;
    if negative {
      buf[at] := '-';
      at := at + 1;
    }
    buf[at] := '0';
    buf[at + 1] := 'x';
    at := at + 2;
  }

  method Itoa(value: int, buf: array<char>, formatIntAsHex: bool)
    requires InSigned(value, 32) && |FormatSigned(value, formatIntAsHex)| < buf.Length
    modifies buf
    ensures var n := |FormatSigned(value, formatIntAsHex)|;
      buf[..] == FormatSigned(value, formatIntAsHex) + ['\0'] + old(buf[n + 1..])
  {
    PutSigned(value, buf, formatIntAsHex, 32);
  }

  method Itoa64(value: int, buf: array<char>, formatIntAsHex: bool)
    requires InSigned(value, 64) && |FormatSigned(value, formatIntAsHex)| < buf.Length
    modifies buf
    ensures var n := |FormatSigned(value, formatIntAsHex)|;
      buf[..] == FormatSigned(value, formatIntAsHex) + ['\0'] + old(buf[n + 1..])
  {
    PutSigned(value, buf, formatIntAsHex, 64);
  }

  /** UTOA (bits 32) and UTOA64 (bits 64): writes FormatUnsigned(value) and a terminator at the start of buf. */
  method PutUnsigned(value: nat, buf: array<char>, formatIntAsHex: bool, bits: nat)
    requires value < Pow2(bits)
    requires |FormatUnsigned(value, formatIntAsHex)| < buf.Length
    modifies buf
    ensures var n := |FormatUnsigned(value, formatIntAsHex)|;
      buf[..] == FormatUnsigned(value, formatIntAsHex) + ['\0'] + old(buf[n + 1..])
  {
    if formatIntAsHex {
      PutUnsignedHex(value, buf);
    } else {
      PutText(buf, 0, Digits(value, 10));
    }
  }

  /** The hex branch of UTOA: "0x" written character by character, then the runtime's radix-16 text of the value. */
  method PutUnsignedHex(value: nat, buf: array<char>)
    requires |FormatUnsigned(value, true)| < buf.Length
    modifies buf
    ensures var n := |FormatUnsigned(value, true)|;
      buf[..] == FormatUnsigned(value, true) + ['\0'] + old(buf[n + 1..])
  {
    var digits := Digits(value, 16);
    assert FormatUnsigned(value, true) == Head(false, true) + digits;
    var at := PutHexHead(buf, false);
    PutText(buf, at, digits);
  }

  method Utoa(value: nat, buf: array<char>, formatIntAsHex: bool)
    requires value < Pow2(32) && |FormatUnsigned(value, formatIntAsHex)| < buf.Length
    modifies buf
    ensures var n := |FormatUnsigned(value, formatIntAsHex)|;
      buf[..] == FormatUnsigned(value, formatIntAsHex) + ['\0'] + old(buf[n + 1..])
  {
    PutUnsigned(value, buf, formatIntAsHex, 32);
  }

  method Utoa64(value: nat, buf: array<char>, formatIntAsHex: bool)
    requires value < Pow2(64) && |FormatUnsigned(value, formatIntAsHex)| < buf.Length
    modifies buf
    ensures var n := |FormatUnsigned(value, formatIntAsHex)|;
      buf[..] == FormatUnsigned(value, formatIntAsHex) + ['\0'] + old(buf[n + 1..])
  {
    PutUnsigned(value, buf, formatIntAsHex, 64);
  }
}
