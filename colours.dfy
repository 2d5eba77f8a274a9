// The Colour type of src/main.rs: a 24-bit RGB colour of three bytes. The
// bytes and the packed u32 are bit patterns here (bv8, bv32), so masking and
// shifting are modelled bit for bit.
module Colours {

  /** Colour { r, g, b }; Colour::new is the constructor. */
  datatype Colour = Colour(r: bv8, g: bv8, b: bv8) {

    /** Colour::from_24bit_int: bits 16 to 23 of the packed colour are the
        red byte, bits 8 to 15 the green byte and bits 0 to 7 the blue byte;
        bits 24 to 31 are masked off. */
    static function From24BitInt(colour: bv32): (c: Colour)
      ensures ((c.r as bv32) << 16) | ((c.g as bv32) << 8) | (c.b as bv32) == colour & 0xff_ffff
    {
      var red := (colour & 0xff0000) >> 16;
      var green := (colour & 0x00ff00) >> 8;
      var blue := colour & 0x0000ff;
      Colour(red as bv8, green as bv8, blue as bv8)
    }
  }

  /** Packing three bytes as r * 65536 + g * 256 + b and decoding gives the
      same three bytes back. */
  lemma From24BitIntRoundTrip(r: bv8, g: bv8, b: bv8)
    ensures Colour.From24BitInt((r as bv32) * 0x10000 + (g as bv32) * 0x100 + (b as bv32)) == Colour(r, g, b)
  {
  }

  /** Bits above bit 23 do not affect the decoded colour. */
  lemma From24BitIntIgnoresHighBits(colour: bv32)
    ensures Colour.From24BitInt(colour) == Colour.From24BitInt(colour % 0x100_0000)
  {
  }
}
