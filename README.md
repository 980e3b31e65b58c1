# AutoHotkey's string and number helpers, modelled in Dafny

This project models the self-contained inline helpers of AutoHotkey's
`Source/util.h`. The interpreter uses them as its lexical primitives:

- the space/tab character classes;
- the read-only scanners `strnlen`, `StrChrAny` and `omit_*`;
- the in-place trims `ltrim`, `rtrim`, `rtrim_with_nbsp` and `trim`;
- `strlcpy`;
- hex detection (`IsHex`) and the radix dispatch of the `ATOI*`/`ATOU*` macros;
- the `ITOA*`/`UTOA*` formatters;
- `rgb_to_bgr`, `IS_LEAP_YEAR`, and the expression-token categories (`SymbolType`, `IS_OPERAND`, `ExprTokenType`).

A C string is a buffer of `char` that holds a `'\0'` terminator. Read-only
scans take it as a `seq<char>`. Operations that write into the caller's
buffer take an `array<char>`, declare `modifies` on it, and are proved
against a specification function of the old contents. A pointer into a
buffer is an index. The `(size_t)-1` "length not known" value is `None` of
an `Option<nat>`.

The C runtime routines that the number macros call are specified, not
modelled from code:

- `_itoa`, `_i64toa`, `_ultoa`, `_ui64toa`;
- `strtol`, `strtoul`, `_strtoi64`, `_strtoui64`, `atoi`, `_atoi64`.

Their specification (module `CrtDigits`) has three parts:

- lower-case digit strings in radix 10 and 16, with a parser that inverts them;
- a scanner for the subject sequence: blanks, a sign, an optional `0x` in radix 16, then digits;
- explicit fixed-width arithmetic: saturation of out-of-range values and two's-complement reinterpretation.

The process-wide `g.FormatIntAsHex` flag becomes a `formatIntAsHex` parameter.

Modules, one per file:

- `Wrappers`: `Option`.
- `CharClass`: `IS_SPACE_OR_TAB*`.
- `CStrings`: C strings, `strnlen`, `StrChrAny`, `memmove`, `strlcpy`.
- `Scan`: the `omit_*` scanners.
- `TrimEngine`: the trims.
- `CrtDigits`: the runtime's digit routines.
- `Numbers`: `IsHex`, `ATOI*`, `ITOA*`, `UTOA*`.
- `Colors`: the RGB macros and `rgb_to_bgr`.
- `Calendar`: `IS_LEAP_YEAR`.
- `Tokens`: `SymbolType` and `ExprTokenType`.

## Model

| member | source | states |
|---|---|---|
| CharClass.IsSpaceOrTab | Source/util.h:23 | a space or a tab; never the terminator or a line break |
| CharClass.IsSpaceOrTabOrNbsp | Source/util.h:24 | also the non-breaking space (byte 0xA0, `-96` as a signed char); never the terminator or a line break |
| CStrings.StrLen | Source/util.h:181 | strlen (as ltrim calls it here, and rtrim and rtrim_with_nbsp at lines 201 and 228): the index of the first terminator, with no terminator before it |
| CStrings.StrLenFrom | Source/util.h:181 | the `strlen(ptr)` ltrim calls on the text after the blanks: counting from an index up to the terminator gives the string's length minus that index |
| CStrings.StrNLen | Source/util.h:58-66 | the string's length or `max`, whichever is less; none of the counted characters is a terminator |
| CStrings.MemberOf | Source/util.h:85-88 | true exactly when the character occurs in the list's text; the terminator never does |
| CStrings.StrChrAny | Source/util.h:70-90 | the first position whose character is in the list, with none before it; `None` when no character of the text is listed, including when either string is empty |
| CStrings.MemMove | Source/util.h:182 | the buffer becomes the old one with `count` characters from `src` copied to `dst`, correct for overlapping ranges |
| CStrings.StrLCpy | Source/util.h:359-371 | dst holds at most `dstSize-1` characters of src, padded with terminators up to index `dstSize-1`, which is a terminator; bytes after it are untouched; the text is the copied prefix |
| Scan.OmitLeadingWhitespace | Source/util.h:94-100 | the first position that is not a space or tab; everything before it is blank; it lies within the text |
| Scan.OmitLeadingAny | Source/util.h:104-124 | `r <= aLength`; every character before `r` is in the omit list; if `r < aLength` the character at `r` is not (so the scan stops at the terminator) |
| Scan.OmitTrailingWhitespace | Source/util.h:128-135 | moving left from the marker, the first non-blank position; everything after it up to the marker is blank; it stops at index 0 whatever is there |
| Scan.OmitTrailingAny | Source/util.h:139-161 | `L <= marker+1`; every character from `L` to the marker is omitted; the one at `L-1` is not; `L == 0` exactly when all are omitted |
| TrimEngine.LTrim | Source/util.h:165-185 | as written: with no leading blank the buffer is unchanged and the result is 0 for the empty string, otherwise the length argument as given; with leading blanks and a supplied length L, L+1 characters from the first non-blank are moved to the start and L is returned; with no length, or the length of the text from the first non-blank, the buffer becomes `LTrimmed` of the old one and a known result is the new length; `None` exactly when no length was given, the string is not empty and it has no leading blank |
| TrimEngine.MoveText | Source/util.h:182 | the buffer after the move of ltrim; when the length moved is that of the text from the first non-blank, it is `LTrimmed` of the old buffer and the new length is that length |
| TrimEngine.LTrimStaleLength | Source/util.h:178-184 | ltrim on `"  ab"` with the string's own length 4: the text becomes `"ab"` but 4 is returned |
| TrimEngine.LTrimFixed | Source/util.h:165-185 | with a supplied length taken as the length of the whole string, the buffer becomes `LTrimmed` of the old one and a known result is always the new length |
| TrimEngine.LTrimmedText | Source/util.h:165-185 | after ltrim the text is the old text from its first non-blank and no longer starts with a blank |
| TrimEngine.RTrim | Source/util.h:187-219 | as written: a terminator is written after the last non-blank; nothing before it changes; the result is the new length, except 1 when a non-empty all-blank text was emptied |
| TrimEngine.RTrimmedText | Source/util.h:187-242 | after rtrim the text is the old text without its trailing blanks, and the new length is where the terminator was written |
| TrimEngine.RTrimAllBlank | Source/util.h:202-214 | rtrim on `"  "` leaves an empty string but returns 1 |
| TrimEngine.RTrimFixed | Source/util.h:187-219 | the same cut as rtrim, and the result is always the new length |
| TrimEngine.RTrimWithNbsp | Source/util.h:221-242 | also cuts trailing non-breaking spaces; the text is the old text without its trailing space/tab/NBSP run |
| TrimEngine.Trim | Source/util.h:244-253 | the buffer holds `Strip` of the old text, the result is its length, and a string with nothing to strip is left byte-for-byte unchanged |
| TrimEngine.TrimFixed | Source/util.h:244-253 | the same result on the corrected ltrim and rtrim, with a supplied length taken as the length of the whole string |
| TrimEngine.StripShape | Source/util.h:244-253 | the text is the leading blank run, then the stripped text, then the trailing blank run, and the stripped text neither starts nor ends with a blank |
| TrimEngine.StripKeepsNonBlanks | Source/util.h:244-253 | no character other than a space or tab is removed; line breaks survive |
| TrimEngine.StripIdempotent | Source/util.h:244-253 | trimming twice is trimming once |
| TrimEngine.TrimmedText | Source/util.h:244-253 | ltrim followed by rtrim leaves exactly the stripped text |
| TrimEngine.TrimmedUnchanged | Source/util.h:244-253 | trim on a string with nothing to strip leaves the buffer unchanged |
| Colors.Rgb | Source/util.h:263 | the packed colour never has a top byte |
| Colors.RgbComponents | Source/util.h:263 | `GetRValue`/`GetGValue`/`GetBValue` recover the components packed by `RGB` |
| Colors.RgbToBgr | Source/util.h:260-264 | bytes 0 and 2 are swapped, byte 1 is kept, the top byte is cleared |
| Colors.RgbToBgrInvolution | Source/util.h:257-259 | applying the swap twice gives back the colour's low three bytes, so `bgr_to_rgb` is the same operation |
| Numbers.IsHex | Source/util.h:268-280 | true exactly when, after the leading spaces and tabs and at most one sign, the text is `0`, then `x` or `X`, then a hex digit |
| Numbers.IsHexExamples | Source/util.h:276-278 | `"0x"` and `"-0X"` are not hex; `"  -0x1A"` is |
| Numbers.RadixOf | Source/util.h:289-296 | the radix the `ATOI*`/`ATOU*` macros pick: always 10 or 16 |
| Numbers.ConvertSigned | Source/util.h:289-295 | `ATOI`/`ATOI64`: the result fits the signed width |
| Numbers.ConvertUnsigned | Source/util.h:290-296 | `ATOU`/`ATOU64`: the result fits the unsigned width |
| Numbers.LeadingZeroIsDecimal | Source/util.h:292-295 | a zero followed by decimal digits reads as the decimal value, never as octal |
| Numbers.FormatSigned | Source/util.h:306-333 | the text is non-empty and starts with `-` exactly when the value is negative |
| Numbers.FormatUnsigned | Source/util.h:334-355 | the text is non-empty and never starts with a sign |
| Numbers.SignedRoundTrip | Source/util.h:289-333 | what `ITOA`/`ITOA64` write, in either mode, reads back through `ATOI`/`ATOI64` as the same value |
| Numbers.UnsignedRoundTrip | Source/util.h:290-355 | what `UTOA`/`UTOA64` write, in either mode, reads back through `ATOU`/`ATOU64` as the same value |
| Numbers.ConversionStopsAtTerminator | Source/util.h:289-296 | `ATOI*`/`ATOU*` read nothing after the terminator: whatever the buffer holds behind it, the value is the same |
| Numbers.SignedRoundTripInBuffer | Source/util.h:289-333 | the whole buffer `ITOA`/`ITOA64` leave behind, old characters after the terminator included, reads back through `ATOI`/`ATOI64` as the value |
| Numbers.UnsignedRoundTripInBuffer | Source/util.h:290-355 | the whole buffer `UTOA`/`UTOA64` leave behind reads back through `ATOU`/`ATOU64` as the value |
| Numbers.TwosComplementHexDoesNotRoundTrip | Source/util.h:303-305 | the runtime's own radix-16 text of a negative value (its two's-complement bits) reads back as the largest positive value, not the value, which is why `ITOA` writes the sign itself |
| Numbers.SignedHexText | Source/util.h:308-315 | in hex mode ITOA's text is the sign, `0x`, then the runtime's radix-16 text of the negated value in the signed width |
| Numbers.SignedDecimalText | Source/util.h:317-318 | in decimal mode ITOA's text is the runtime's radix-10 text |
| Numbers.PutHexHead | Source/util.h:308-314 | writes `-` when negative, then `0` and `x`, and keeps every character after them |
| Numbers.PutSignedHex | Source/util.h:308-315 | the buffer starts with the sign, `0x`, the hex magnitude and a terminator; the rest is untouched |
| Numbers.PutSignedDecimal | Source/util.h:317-318 | the buffer starts with the decimal text and a terminator; the rest is untouched |
| Numbers.Itoa | Source/util.h:306-319 | the buffer starts with `FormatSigned(value)` and a terminator, for a 32-bit value |
| Numbers.PutSigned | Source/util.h:306-333 | the body `ITOA` and `ITOA64` share, for a value in any signed width: the buffer starts with `FormatSigned(value)` and a terminator, and every character after that terminator is untouched |
| Numbers.Itoa64 | Source/util.h:320-333 | the same for a 64-bit value, including the most negative one |
| Numbers.PutUnsigned | Source/util.h:334-355 | the buffer starts with `FormatUnsigned(value)` and a terminator; the rest is untouched |
| Numbers.PutUnsignedHex | Source/util.h:336-340 | the buffer starts with `0x`, the hex digits and a terminator; the rest is untouched |
| Numbers.Utoa | Source/util.h:334-344 | the buffer starts with `FormatUnsigned(value)` and a terminator, for a 32-bit value |
| Numbers.Utoa64 | Source/util.h:345-355 | the same for a 64-bit value |
| CrtDigits.Digits | Source/util.h:315 | the runtime's digit text: non-empty, lower case, no leading zero unless the value is 0 |
| CrtDigits.IsXDigit | Source/util.h:278 | defines `isxdigit` over the C locale (`0`-`9`, `a`-`f`, `A`-`F`); a hex digit is never the terminator, `x`/`X`, a sign or a blank, so the third character `IS_HEX` tests cannot be part of the prefix |
| CrtDigits.ScanInteger | Source/util.h:289-296 | defines the subject sequence `strtol`, `strtoul`, `_strtoi64`, `_strtoui64`, `atoi` and `_atoi64` read: spaces and tabs, an optional sign, in radix 16 an optional `0x`, then the longest digit run; when the blanks and the sign are followed by the end of the text or by a character that is no hex digit, the magnitude read is 0, and a negative reading needs a `-` in the text |
| CrtDigits.SignedToText | Source/util.h:315-332 | the text `_itoa`/`_i64toa` write: in radix 10 a minus sign for a negative value followed by the magnitude's digits; in radix 16 the digits of the value's two's-complement bits in the width |
| CrtDigits.ParseDigitsOfDigits | Source/util.h:289-355 | parsing the digits of a value gives the value back |
| CrtDigits.ParseDigitsLeadingZero | Source/util.h:292-295 | a leading zero does not change the value read |
| CrtDigits.ToSigned | Source/util.h:289-295 | a signed conversion fits its width, is exact when in range, and saturates at either limit |
| CrtDigits.ToUnsigned | Source/util.h:290-296 | an unsigned conversion fits its width, is exact for an in-range non-negative value, and saturates at the maximum |
| CrtDigits.NegateWrapped | Source/util.h:315 | negation stays in the signed width; it is exact for every value except the most negative, which negates to itself |
| CrtDigits.NegatedHexIsMagnitude | Source/util.h:315 | the runtime's radix-16 text of the wrapped negation of a negative value is the magnitude's digits, even for the most negative value |
| Calendar.IsLeapYear | Source/util.h:388 | defines `IS_LEAP_YEAR`, the Gregorian rule: a leap year is divisible by 4; every year divisible by 400 is one, a year divisible by 4 but not by 100 is one, and a year divisible by 100 but not by 400 is not |
| Calendar.LeapYearPeriod | Source/util.h:388 | the rule repeats every 400 years |
| Calendar.LeapYearsClosedForm | Source/util.h:388 | years 1..n hold `n/4 - n/100 + n/400` leap years |
| Calendar.FourHundredYearCycle | Source/util.h:388 | every 400 years hold 97 leap years and 146097 days |
| Tokens.IsOperand | Source/util.h:399-424 | a symbol is an operand exactly when it is `SYM_STRING`, `SYM_INTEGER`, `SYM_FLOAT` or `SYM_OPERAND`, so `SYM_BEGIN` is not one |
| Tokens.OperatorsAreNotOperands | Source/util.h:407-424 | every symbol from `SYM_BEGIN` on is not an operand |
| Tokens.SymbolAliases | Source/util.h:405-409 | `PURE_NOT_NUMERIC` is 0, the `SYM_*` operand types alias the `PURE_*` values, and `SYM_BEGIN` equals `SYM_OPERAND_END` |
| Tokens.OperandTokenMember | Source/util.h:434-438 | in a valid operand token (`ValidToken`) the union member in use follows from the symbol and back: the 64-bit integer exactly for `SYM_INTEGER`, the marker exactly for `SYM_STRING` and `SYM_OPERAND` |

## Left out

- `IsPureNumeric` (line 440) is only declared in the header, so its classification grammar is not part of this model.
- `StrToTitleCase` (lines 32-54) depends on the Windows locale functions `IsCharAlpha`, `CharUpper` and `CharLower`.
- `ATOF` (line 301) and the `double` member of `ExprTokenType` are floating point. `ExprTokenType` is modelled with the `__int64` and `marker` members only.
- The routines that are only declared are not modelled. Most are bindings to the OS, registry, files, windows, fonts or pictures, plus `snprintf`, the date/time conversions and `StrReplace*`.
- The `EXP_*` constants of `map_item` have no behaviour. The commented-out `iround` and `strcatmove` are dead code.
- `g.FormatIntAsHex` is a parameter. Concurrent changes to the global settings are not modelled.
- The C runtime's conversion routines are specified by digit strings in radix 10 and 16.
  - Their blank skipping covers spaces and tabs only. The runtime also skips the other `isspace` characters.
  - The platform-dependent overflow of `atoi` (used by `ATOI`, line 295) and `_atoi64` (used by `ATOI64`, line 289) is modelled as the saturation `strtol` and `_strtoi64` perform.
  - Locale effects are not modelled.
- `Numbers.Atoi`, `Numbers.Atoi64`, `Numbers.Atou` and `Numbers.Atou64` are named entry points. Their properties are stated on `ConvertSigned`/`ConvertUnsigned`, which they call with the width.
- Null pointers are not modelled: every buffer is an allocated array. This covers StrChrAny's NULL checks (line 78) and strlcpy's disabled guards (line 368).
- `TrimEngine.LTrim` requires that, when there are leading blanks, the `memmove` of a supplied length plus one stays inside the buffer. A longer length reads memory past the buffer, which the model does not have. Within the buffer, every supplied length is modelled as written. A longer one than the text from the first non-blank moves characters from behind the terminator. A shorter one leaves the moved text without a terminator of its own. Either way the result is the length as given (see Findings).
- `TrimEngine.Trim` requires a supplied length to be the length of the text from the first non-blank. That is the only length for which ltrim as written hands rtrim the new length. With the string's own length and leading blanks, trim as written hands rtrim a stale length (see Findings). `TrimEngine.TrimFixed` takes the string's own length.
- The model assumes `char` is signed, as it is in the compiler the program is built with. So the comparison `c == -96` in `IS_SPACE_OR_TAB_OR_NBSP` matches the byte 0xA0, the non-breaking space (`CharClass.NBSP`). With an unsigned `char` that comparison is never true, and `rtrim_with_nbsp` trims only spaces and tabs.
- `CrtDigits.NegateWrapped` models `-(int)value` and `-(__int64)value` at the most negative value as two's-complement wrap-around, the behaviour of the compiler the program is built with. Standard C leaves that overflow undefined. What `ITOA64` writes for the most negative 64-bit value depends on it.
- Tokens of symbol `SYM_FLOAT` hold the `double` member, which is not modelled. `Tokens.ValidToken` accepts none of them.
- `Colors.Rgb`, `Colors.GetRValue`, `Colors.GetGValue` and `Colors.GetBValue` are Windows macros that `rgb_to_bgr` uses. They are written here as their usual shift-and-mask definitions on a 32-bit `COLORREF`.
- `Calendar` models only `IS_LEAP_YEAR`. The year/day routines next to it are declared only.

## Findings

| source | as written | input that shows it | evidently intended | confidence | as-written member | corrected member |
|---|---|---|---|---|---|---|
| Source/util.h:178-184 | with leading blanks and a supplied length, ltrim moves that many characters plus one and returns the length unchanged. Given the string's own length, the length rtrim takes and trim forwards (line 249), it moves characters from behind the terminator and returns the old length | `"  ab"` with length 4: the text becomes `"ab"` and 4 is returned | subtract the blanks removed from a supplied length, so the move is exact and the result the new length | not executed | TrimEngine.LTrimStaleLength | TrimEngine.LTrimFixed |
| Source/util.h:209-214 | on a non-empty string of blanks only, rtrim writes the terminator at index 0 but returns `aLength`, which the loop has counted down only to 1 | `"  "` with no length given: the buffer becomes `""` and 1 is returned | return 0, the new length | not executed | TrimEngine.RTrimAllBlank | TrimEngine.RTrimFixed |

`TrimEngine.RTrim` models rtrim exactly as written, and `TrimEngine.RTrimAllBlank`
exhibits the case. `TrimEngine.Trim` also calls rtrim as written. It is still
proved to return the new length: when ltrim has moved the text, the string
starts with its first non-blank or is empty, so rtrim never reaches that branch.

`TrimEngine.LTrim` models ltrim exactly as written, and `TrimEngine.LTrimStaleLength`
exhibits the stale length. `TrimEngine.Trim` calls it only with the one supplied
length for which ltrim as written is exact. `TrimEngine.TrimFixed` combines
`TrimEngine.LTrimFixed` and `TrimEngine.RTrimFixed` and accepts the string's own length.
