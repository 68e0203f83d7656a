/**
 * The integer side of NimbusKit Basics' colour macros.
 *
 * NI_RGBCOLOR / NI_RGBACOLOR hand three byte channels and an alpha to the toolkit's
 * colour constructor; NI_HEXCOLOR / NI_HEXACOLOR first split a packed 0xRRGGBB value
 * into those channels with shift-and-mask. The model stops at the arguments of the
 * toolkit call: the division by 255 and the colour object itself are not modelled.
 * The packed value is a 32-bit unsigned word.
 */
module Colors {

  type Hex = bv32

  /** Three byte channels. */
  datatype Rgb = Rgb(red: bv8, green: bv8, blue: bv8)

  /** The channels and alpha passed to the toolkit's colour constructor (NI_RGBACOLOR). */
  datatype ColorArgs = ColorArgs(channels: Rgb, alpha: real)

  /** NI_RGBCOLOR(r, g, b): an opaque colour from byte channels. */
  function RgbColor(r: bv8, g: bv8, b: bv8): ColorArgs {
    ColorArgs(Rgb(r, g, b), 1.0)
  }

  /** The channel extraction shared by NI_HEXCOLOR and NI_HEXACOLOR, on an already evaluated argument.
      The channels are the base-256 digits of the low 24 bits (the sum cannot wrap: it stays below 2^24). */
  function DecodeHex(hex: Hex): (c: Rgb)
    ensures (c.red as bv32) * 0x1_0000 + (c.green as bv32) * 0x100 + (c.blue as bv32) == hex % 0x100_0000
  {
    Rgb(((hex >> 16) & 0xFF) as bv8, ((hex >> 8) & 0xFF) as bv8, (hex & 0xFF) as bv8)
  }

  /** The packing 0xRRGGBB that DecodeHex undoes. */
  function EncodeHex(c: Rgb): (hex: Hex)
    ensures hex < 0x100_0000
  {
    ((c.red as bv32) << 16) | ((c.green as bv32) << 8) | (c.blue as bv32)
  }

  /** NI_HEXCOLOR(hex), with the colour constructor taken to be NI_RGBCOLOR. */
  function HexColor(hex: Hex): (c: ColorArgs)
    ensures c.alpha == 1.0 && EncodeHex(c.channels) == hex % 0x100_0000
  {
    var c := DecodeHex(hex);
    RgbColor(c.red, c.green, c.blue)
  }

  /** NI_HEXACOLOR(hex, a), with the colour constructor taken to be NI_RGBACOLOR. */
  function HexaColor(hex: Hex, a: real): (c: ColorArgs)
    ensures c.alpha == a && EncodeHex(c.channels) == hex % 0x100_0000
  {
    ColorArgs(DecodeHex(hex), a)
  }

  /** Decoding an encoded colour gives the channels back. */
  lemma DecodeEncodeHex(c: Rgb)
    ensures DecodeHex(EncodeHex(c)) == c
  {
  }

  /** For a value of the documented form 0xRRGGBB, the decoded channels recompose to it. */
  lemma EncodeDecodeHex(hex: Hex)
    requires hex < 0x100_0000
    ensures EncodeHex(DecodeHex(hex)) == hex
  {
  }

  /** Bits above bit 23 are discarded. */
  lemma DecodeHexIgnoresHighBits(hex: Hex)
    ensures DecodeHex(hex) == DecodeHex(hex % 0x100_0000)
    ensures EncodeHex(DecodeHex(hex)) == hex % 0x100_0000
  {
  }

  /** NI_HEXACOLOR extracts the same channels as NI_HEXCOLOR and passes alpha through unchanged. */
  lemma HexaColorAgreesWithHexColor(hex: Hex, a: real)
    ensures HexaColor(hex, a).channels == HexColor(hex).channels
    ensures HexaColor(hex, a).alpha == a
    ensures HexaColor(hex, 1.0) == HexColor(hex)
  {
  }

  /** NI_HEXCOLOR of a packed 0xRRGGBB value is NI_RGBCOLOR of its three channels. */
  lemma HexColorOfPacked(c: Rgb)
    ensures HexColor(EncodeHex(c)) == RgbColor(c.red, c.green, c.blue)
  {
    DecodeEncodeHex(c);
  }

  /** The documented example: 0xFF00FF is the vibrant debugging colour NI_RGBCOLOR(255, 0, 255). */
  lemma HexColorExample()
    ensures HexColor(0xFF00FF) == RgbColor(255, 0, 255)
  {
  }

  /** `x >> k` on a signed 32-bit argument as clang computes it: the sign bit is copied into the vacated bits. */
  function SignedShiftRight(x: Hex, k: nat): (r: Hex)
    requires k < 32
    ensures r & (0xFFFF_FFFF >> k) == x >> k
  {
    if x & 0x8000_0000 == 0 then x >> k else (x >> k) | !(0xFFFF_FFFF >> k)
  }

  /** The vacated bits of the two shifts the macro performs are copies of the sign bit. */
  lemma SignFillOfChannelShifts(x: Hex)
    ensures x & 0x8000_0000 == 0 ==> SignedShiftRight(x, 16) & 0xFFFF_0000 == 0
    ensures x & 0x8000_0000 != 0 ==> SignedShiftRight(x, 16) & 0xFFFF_0000 == 0xFFFF_0000
    ensures x & 0x8000_0000 == 0 ==> SignedShiftRight(x, 8) & 0xFF00_0000 == 0
    ensures x & 0x8000_0000 != 0 ==> SignedShiftRight(x, 8) & 0xFF00_0000 == 0xFF00_0000
  {
  }

  /** A negative `int` argument decodes like its 32-bit pattern: the copied sign bits never reach a channel. */
  lemma SignedArgumentDecodesLikeUnsigned(hex: Hex)
    ensures (SignedShiftRight(hex, 16) & 0xFF) as bv8 == DecodeHex(hex).red
    ensures (SignedShiftRight(hex, 8) & 0xFF) as bv8 == DecodeHex(hex).green
  {
  }

  /** NI_HEXCOLOR(a | b) as the preprocessor expands it: `hex` is not parenthesised in the red and green
      channels, so `>>` applies to `b` alone; the blue channel is parenthesised. */
  function HexUnionChannelsAsWritten(a: Hex, b: Hex): (c: Rgb)
    ensures c.blue == DecodeHex(a | b).blue
  {
    Rgb(((a | (b >> 16)) & 0xFF) as bv8, ((a | (b >> 8)) & 0xFF) as bv8, ((a | b) & 0xFF) as bv8)
  }

  /** NI_HEXCOLOR(0xFF0000 | 0x0000FF) yields blue (0, 0, 255) instead of magenta (255, 0, 255). */
  lemma HexUnionMisdecoded()
    ensures HexUnionChannelsAsWritten(0xFF0000, 0x0000FF) == Rgb(0, 0, 255)
    ensures DecodeHex(0xFF0000 | 0x0000FF) == Rgb(255, 0, 255)
  {
  }
}
