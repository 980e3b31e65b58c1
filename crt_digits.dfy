/**
 * The C runtime's integer <-> text routines that the number macros of
 * util.h call (_itoa, _i64toa, _ultoa, _ui64toa, strtol, strtoul,
 * _strtoi64, _strtoui64, atoi, _atoi64).  Their code is not part of this
 * model; they are specified here by digit strings over the radixes the
 * macros use (10 and 16) and by explicit two's-complement arithmetic for
 * the fixed widths involved.
 */
module CrtDigits {
  import opened CharClass
  import opened Scan

  /** The radixes util.h hands to the C runtime. */
  predicate IsRadix(base: nat) { base == 10 || base == 16 }

  /** isxdigit: a decimal digit or a letter a-f in either case. */
  predicate IsXDigit(c: char)
    ensures IsXDigit(c) ==> c != '\0' && c != 'x' && c != 'X' && c != '-' && c != '+'
    ensures IsXDigit(c) ==> !IsSpaceOrTabOrNbsp(c)
  {
    ('0' <= c <= '9') || ('a' <= c <= 'f') || ('A' <= c <= 'F')
  }

  /** The value of a hexadecimal digit of either case. */
  function DigitValue(c: char): (d: nat)
    requires IsXDigit(c)
    ensures d < 16
    ensures d < 10 <==> '0' <= c <= '9'
  {
    if '0' <= c <= '9' then c as int - '0' as int
    else if 'a' <= c <= 'f' then c as int - 'a' as int + 10
    else c as int - 'A' as int + 10
  }

  /** A digit of the given radix. */
  predicate IsDigitOf(c: char, base: nat)
  {
    IsXDigit(c) && DigitValue(c) < base
  }

  /** The lower-case digit the C runtime writes for d. */
  function DigitChar(d: nat): (c: char)
    requires d < 16
    ensures IsXDigit(c) && DigitValue(c) == d
    ensures !('A' <= c <= 'Z') && c != 'x' && c != '\0'
  {
    if d < 10 then ('0' as int + d) as char else ('a' as int + (d - 10)) as char
  }

  /** The digits of v in the radix, most significant first, without leading zeros. */
  function Digits(v: nat, base: nat): (t: seq<char>)
    requires IsRadix(base)
    ensures |t| >= 1
    ensures t[0] == '0' <==> v == 0
    ensures forall i :: 0 <= i < |t| ==> IsDigitOf(t[i], base) && !('A' <= t[i] <= 'Z')
    ensures forall i :: 0 <= i < |t| ==> t[i] != 'x' && t[i] != '\0'
    decreases v
  {
    if v < base then [DigitChar(v)] else Digits(v / base, base) + [DigitChar(v % base)]
  }

  /** The value of a string of digits of the radix, read most significant first. */
  function ParseDigits(t: seq<char>, base: nat): (v: nat)
    requires IsRadix(base)
    requires forall i :: 0 <= i < |t| ==> IsDigitOf(t[i], base)
  {
    if t == [] then 0
    else
      assert IsDigitOf(t[|t| - 1], base);
      ParseDigits(t[..|t| - 1], base) * base + DigitValue(t[|t| - 1])
  }

  /** Parsing the digits of v gives v back. */
  lemma {:induction false} ParseDigitsOfDigits(v: nat, base: nat)
    requires IsRadix(base)
    ensures ParseDigits(Digits(v, base), base) == v
    decreases v
  {
    var t := Digits(v, base);
    if v < base {
      assert t[..0] == [];
    } else {
      ParseDigitsOfDigits(v / base, base);
      assert t[..|t| - 1] == Digits(v / base, base);
    }
  }

  /** Leading zeros do not change the value: the text is never read as octal. */
  lemma {:induction false} ParseDigitsLeadingZero(t: seq<char>, base: nat)
    requires IsRadix(base)
    requires forall i :: 0 <= i < |t| ==> IsDigitOf(t[i], base)
    ensures ParseDigits(['0'] + t, base) == ParseDigits(t, base)
    decreases |t|
  {
    var u := ['0'] + t;
    if t == [] {
      assert u[..0] == [];
    } else {
      assert u[..|u| - 1] == ['0'] + t[..|t| - 1];
      ParseDigitsLeadingZero(t[..|t| - 1], base);
    }
  }

  /** The length of the run of digits of the radix at the start of s. */
  function DigitRun(s: seq<char>, base: nat): (n: nat)
    ensures n <= |s|
    ensures forall i :: 0 <= i < n ==> IsDigitOf(s[i], base)
    ensures n < |s| ==> !IsDigitOf(s[n], base)
  {
    if s == [] || !IsDigitOf(s[0], base) then 0 else 1 + DigitRun(s[1..], base)
  }

  /** The digit run of a digit string followed by a non-digit is the whole digit string. */
  lemma DigitRunOf(t: seq<char>, rest: seq<char>, base: nat)
    requires forall i :: 0 <= i < |t| ==> IsDigitOf(t[i], base)
    requires rest != [] && !IsDigitOf(rest[0], base)
    ensures DigitRun(t + rest, base) == |t|
  {
    var n := DigitRun(t + rest, base);
    assert (t + rest)[|t|] == rest[0];
  }

  /** The "0x" or "0X" prefix that strtol accepts in radix 16 when a hex digit follows it. */
  predicate HexPrefixAt(s: seq<char>, q: nat)
  {
    q + 2 < |s| && s[q] == '0' && (s[q + 1] == 'x' || s[q + 1] == 'X') && IsXDigit(s[q + 2])
  }

  /** What strtol and its relatives read from s: a sign and a magnitude. */
  datatype Scanned = Scanned(negative: bool, magnitude: nat)

  /** The position just after an optional sign at p. */
  function AfterSign(s: seq<char>, p: nat): (q: nat)
    ensures q == p || (q == p + 1 && p < |s| && (s[p] == '+' || s[p] == '-'))
  {
    if p < |s| && (s[p] == '-' || s[p] == '+') then p + 1 else p
  }

  /**
   * The subject sequence of strtol in the radix: spaces and tabs, an optional sign,
   * in radix 16 an optional "0x" prefix, then the longest run of digits.
   */
  function ScanInteger(s: seq<char>, base: nat): (r: Scanned)
    requires IsRadix(base)
    ensures var q := AfterSign(s, LeadingBlanks(s)); q == |s| || !IsXDigit(s[q]) ==> r.magnitude == 0
    ensures r.negative ==> exists p :: 0 <= p < |s| && s[p] == '-'
  {
    var p := LeadingBlanks(s);
    var q := AfterSign(s, p);
    var d := if base == 16 && HexPrefixAt(s, q) then q + 2 else q;
    var run := s[d..][..DigitRun(s[d..], base)];
    Scanned(p < |s| && s[p] == '-', ParseDigits(run, base))
  }

  function Pow2(bits: nat): (p: int)
    ensures p >= 1
  {
    if bits == 0 then 1 else 2 * Pow2(bits - 1)
  }

  /** The signed value that was scanned. */
  function Value(r: Scanned): int
  {
    if r.negative then -(r.magnitude as int) else r.magnitude as int
  }

  /** The range of a signed integer of the given width. */
  predicate InSigned(v: int, bits: nat)
    requires bits >= 1
  {
    -Pow2(bits - 1) <= v < Pow2(bits - 1)
  }

  /** The result of a signed conversion (strtol, _strtoi64, atoi, _atoi64): saturated at the width's limits. */
  function ToSigned(r: Scanned, bits: nat): (v: int)
    requires bits >= 1
    ensures InSigned(v, bits)
    ensures InSigned(Value(r), bits) ==> v == Value(r)
    ensures Value(r) >= Pow2(bits - 1) ==> v == Pow2(bits - 1) - 1
    ensures Value(r) < -Pow2(bits - 1) ==> v == -Pow2(bits - 1)
  {
    var m := Value(r);
    if m < -Pow2(bits - 1) then -Pow2(bits - 1)
    else if m >= Pow2(bits - 1) then Pow2(bits - 1) - 1
    else m
  }

  /** The result of an unsigned conversion (strtoul, _strtoui64): saturated, then negated modulo 2^bits after a minus sign. */
  function ToUnsigned(r: Scanned, bits: nat): (v: nat)
    ensures v < Pow2(bits)
    ensures r.magnitude < Pow2(bits) && !r.negative ==> v == r.magnitude
    ensures r.magnitude >= Pow2(bits) ==> v == Pow2(bits) - 1
  {
    if r.magnitude >= Pow2(bits) then Pow2(bits) - 1
    else if r.negative then (Pow2(bits) - r.magnitude) % Pow2(bits)
    else r.magnitude
  }

  /** The two's-complement reading of a signed value as an unsigned one of the same width. */
  function AsUnsigned(v: int, bits: nat): (u: nat)
    requires bits >= 1 && InSigned(v, bits)
    ensures u < Pow2(bits)
    ensures v >= 0 ==> u == v
    ensures v < 0 ==> u >= Pow2(bits - 1)
  {
    assert Pow2(bits) == 2 * Pow2(bits - 1);
    if v < 0 then v + Pow2(bits) else v
  }

  /** Negation in a signed width: the most negative value negates to itself. */
  function NegateWrapped(v: int, bits: nat): (n: int)
    requires bits >= 1 && InSigned(v, bits)
    ensures InSigned(n, bits)
    ensures v != -Pow2(bits - 1) ==> n == -v
    ensures v == -Pow2(bits - 1) ==> n == v
  {
    if v == -Pow2(bits - 1) then v else -v
  }

  /**
   * The text _itoa/_i64toa write for a signed value: a minus sign and the
   * decimal magnitude in radix 10, the two's-complement bits in any other radix.
   */
  function SignedToText(v: int, base: nat, bits: nat): (t: seq<char>)
    requires IsRadix(base) && bits >= 1 && InSigned(v, bits)
    ensures base == 10 ==> t == (if v < 0 then "-" else "") + Digits(if v < 0 then -v as nat else v as nat, 10)
    ensures base == 16 ==> t == Digits(AsUnsigned(v, bits), 16)
  {
    if base == 10 && v < 0 then "-" + Digits(-v, 10) else Digits(AsUnsigned(v, bits), base)
  }

  /** In radix 16, the wrapped negation of a negative value prints as its magnitude, even for the most negative value. */
  lemma NegatedHexIsMagnitude(v: int, bits: nat)
    requires bits >= 1 && InSigned(v, bits) && v < 0
    ensures SignedToText(NegateWrapped(v, bits), 16, bits) == Digits(-v as nat, 16)
  {
    if v == -Pow2(bits - 1) {
      assert Pow2(bits) == 2 * Pow2(bits - 1);
    }
  }
}
