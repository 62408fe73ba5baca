/** Packed 32-bit ARGB pixels, as an Android `Bitmap` hands them out through
    `getPixels`: alpha in bits 24..31, red in 16..23, green in 8..15 and blue
    in 0..7. A Kotlin `Int` pixel is modelled by its bit pattern as a `bv32`. */
module Argb {

  /** One 8-bit colour channel, as an integer. */
  type Channel = c: int | 0 <= c < 256

  /** The three colour channels a filter computes on. */
  datatype Colour = Red | Green | Blue

  /** The alpha bits of a fully opaque pixel, `0xFF shl 24`. */
  const OpaqueBits: bv32 := 0xFF00_0000

  /** Kotlin's `shr` on a 32-bit `Int`: an arithmetic right shift, which
      copies the sign bit into the vacated high bits. */
  function Shr(p: bv32, k: nat): (r: bv32)
    requires k < 32
    ensures p & 0x8000_0000 == 0 ==> r == p >> k
    ensures k > 0 && p & 0x8000_0000 != 0 ==> r & 0x8000_0000 != 0
  {
    if p & 0x8000_0000 == 0 then p >> k else (p >> k) | !(0xFFFF_FFFF >> k)
  }

  /** `v and 0xFF`, read as a channel value. */
  function LowByte(v: bv32): (c: Channel)
    ensures c == 0 <==> v & 0xFF == 0
  {
    ((v & 0xFF) as bv8) as int
  }

  /** The channels of a pixel: `(p shr 24) and 0xFF`, `(p shr 16) and 0xFF`,
      `(p shr 8) and 0xFF` and `p and 0xFF`. */
  function AlphaOf(p: bv32): Channel { LowByte(p >> 24) }
  function RedOf(p: bv32): Channel { LowByte(p >> 16) }
  function GreenOf(p: bv32): Channel { LowByte(p >> 8) }
  function BlueOf(p: bv32): Channel { LowByte(p) }

  function Field(p: bv32, c: Colour): Channel
  {
    match c
    case Red => RedOf(p)
    case Green => GreenOf(p)
    case Blue => BlueOf(p)
  }

  /** `(0xFF shl 24) or (r shl 16) or (g shl 8) or b` on 8-bit values. */
  function PackBytes(r: bv8, g: bv8, b: bv8): bv32
  {
    OpaqueBits | ((r as bv32) << 16) | ((g as bv32) << 8) | (b as bv32)
  }

  /** An opaque pixel with the given colour channels. */
  function PackOpaque(r: Channel, g: Channel, b: Channel): bv32
  {
    PackBytes(r as bv8, g as bv8, b as bv8)
  }

  /** After masking with `0xFF`, the arithmetic shift Kotlin performs and a
      logical shift agree for the red and green offsets: the copied sign bits
      never reach the low byte. (Blue is read as `p and 0xFF`, unshifted.) */
  lemma ShrRed(p: bv32)
    ensures LowByte(Shr(p, 16)) == RedOf(p)
  {
    assert Shr(p, 16) & 0xFF == (p >> 16) & 0xFF;
  }

  /** The same for the green offset. */
  lemma ShrGreen(p: bv32)
    ensures LowByte(Shr(p, 8)) == GreenOf(p)
  {
    assert Shr(p, 8) & 0xFF == (p >> 8) & 0xFF;
  }

  lemma OctetsOfPack(r: bv8, g: bv8, b: bv8)
    ensures var p := PackBytes(r, g, b);
      && (p >> 16) & 0xFF == r as bv32
      && (p >> 8) & 0xFF == g as bv32
      && p & 0xFF == b as bv32
      && (p >> 24) & 0xFF == 0xFF
  {
  }

  lemma ChannelByte(c: Channel)
    ensures (c as bv8) as int == c
  {
  }

  /** Unpacking a freshly packed pixel returns the channels that went in,
      and its alpha is 0xFF. */
  lemma UnpackPack(r: Channel, g: Channel, b: Channel)
    ensures var p := PackOpaque(r, g, b);
      RedOf(p) == r && GreenOf(p) == g && BlueOf(p) == b && AlphaOf(p) == 0xFF
  {
    OctetsOfPack(r as bv8, g as bv8, b as bv8);
    ChannelByte(r);
    ChannelByte(g);
    ChannelByte(b);
  }

  lemma ByteChannel(x: bv8)
    ensures (x as int) as bv8 == x
  {
  }

  lemma PackOfFields(p: bv32)
    ensures PackBytes(((p >> 16) & 0xFF) as bv8, ((p >> 8) & 0xFF) as bv8, (p & 0xFF) as bv8)
            == p | OpaqueBits
  {
  }

  /** Repacking a pixel's own colour channels keeps its colour bits and
      forces its alpha to 0xFF. */
  lemma PackUnpack(p: bv32)
    ensures PackOpaque(RedOf(p), GreenOf(p), BlueOf(p)) == p | OpaqueBits
  {
    ByteChannel(((p >> 16) & 0xFF) as bv8);
    ByteChannel(((p >> 8) & 0xFF) as bv8);
    ByteChannel((p & 0xFF) as bv8);
    PackOfFields(p);
  }
}
