/**
 * Colour values as Windows stores them in a COLORREF: a 32-bit word with
 * red in the low byte, green in the next and blue in the third.  RGB and
 * the Get?Value accessors are the Windows shift-and-mask macros that
 * rgb_to_bgr is written with.
 */
module Colors {
  /** RGB(r, g, b): red in bits 0-7, green in bits 8-15, blue in bits 16-23. */
  function Rgb(r: bv8, g: bv8, b: bv8): (c: bv32)
    ensures c >> 24 == 0
  {
    (r as bv32) | ((g as bv32) << 8) | ((b as bv32) << 16)
  }

  function GetRValue(c: bv32): bv8 { (c & 0xFF) as bv8 }
  function GetGValue(c: bv32): bv8 { ((c >> 8) & 0xFF) as bv8 }
  function GetBValue(c: bv32): bv8 { ((c >> 16) & 0xFF) as bv8 }

  /** The accessors take back apart what RGB puts together. */
  lemma RgbComponents(r: bv8, g: bv8, b: bv8)
    ensures GetRValue(Rgb(r, g, b)) == r
    ensures GetGValue(Rgb(r, g, b)) == g
    ensures GetBValue(Rgb(r, g, b)) == b
  {
  }

  /**
   * rgb_to_bgr (and bgr_to_rgb, the same macro): the end bytes change
   * places, the middle byte stays and the top byte is cleared.
   */
  function RgbToBgr(c: bv32): (d: bv32)
    ensures GetRValue(d) == GetBValue(c)
    ensures GetGValue(d) == GetGValue(c)
    ensures GetBValue(d) == GetRValue(c)
    ensures d >> 24 == 0
  {
    RgbComponents(GetBValue(c), GetGValue(c), GetRValue(c));
    Rgb(GetBValue(c), GetGValue(c), GetRValue(c))
  }

  /** Converting twice gives back the colour, without its top byte; that is why one macro serves both directions. */
  lemma RgbToBgrInvolution(c: bv32)
    ensures RgbToBgr(RgbToBgr(c)) == c & 0xFF_FFFF
  {
  }
}
