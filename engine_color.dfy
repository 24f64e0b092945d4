/** Model of src/engine/color.rs: a colour packed into one 32-bit word. */
module EngineColor {

  type Byte = bv8

  /** `PackedRgba(u32)`: red in bits 24-31, green in 16-23, blue in 8-15, alpha in 0-7. */
  type PackedRgba = bv32

  /** The engine's `Color`, as used by the rich-text and draw layers, is the packed colour. */
  type Color = PackedRgba

  function Red(p: PackedRgba): Byte { (p >> 24) as Byte }
  function Green(p: PackedRgba): Byte { ((p >> 16) & 0xFF) as Byte }
  function Blue(p: PackedRgba): Byte { ((p >> 8) & 0xFF) as Byte }
  function Alpha(p: PackedRgba): Byte { (p & 0xFF) as Byte }

  /** `PackedRgba::new`: shifting each channel into its byte and or-ing them together
      places every channel where the extractors read it back. */
  function New(r: Byte, g: Byte, b: Byte, a: Byte): (p: PackedRgba)
    ensures Red(p) == r && Green(p) == g && Blue(p) == b && Alpha(p) == a
  {
    (r as bv32 << 24) | (g as bv32 << 16) | (b as bv32 << 8) | (a as bv32)
  }

  /** Every 32-bit word is the packing of its own four channels, so `New` is onto. */
  lemma NewOfChannels(p: PackedRgba)
    ensures New(Red(p), Green(p), Blue(p), Alpha(p)) == p
  {
  }

  /** Distinct channel quadruples pack to distinct words. */
  lemma NewInjective(r1: Byte, g1: Byte, b1: Byte, a1: Byte, r2: Byte, g2: Byte, b2: Byte, a2: Byte)
    requires New(r1, g1, b1, a1) == New(r2, g2, b2, a2)
    ensures r1 == r2 && g1 == g2 && b1 == b2 && a1 == a2
  {
    assert Red(New(r1, g1, b1, a1)) == r1;
  }

  const WHITE: PackedRgba := 0xFF_FF_FF_FF
  const BLACK: PackedRgba := 0x00_00_00_FF
  const RED: PackedRgba := 0xFF_00_00_FF
  const GREEN: PackedRgba := 0x00_FF_00_FF
  const BLUE: PackedRgba := 0x00_00_FF_FF

  /** `Color::CLEAR` is used by the rich-text and draw layers but defined in no file of this
      model; it is an unspecified fixed colour here, and nothing below depends on its value. */
  const CLEAR: Color

  /** The literal constants are exactly the packings of their channels. */
  lemma ConstantsAgreeWithNew()
    ensures WHITE == New(255, 255, 255, 255)
    ensures BLACK == New(0, 0, 0, 255)
    ensures RED == New(255, 0, 0, 255)
    ensures GREEN == New(0, 255, 0, 255)
    ensures BLUE == New(0, 0, 255, 255)
  {
  }

  /** White and black share the alpha channel but no colour channel. */
  lemma WhiteIsNotBlack()
    ensures WHITE != BLACK
    ensures Alpha(WHITE) == Alpha(BLACK) == 255
    ensures Red(WHITE) != Red(BLACK)
  {
  }
}
