/** The colour packer of the point store.
    A colour is packed into a 32-bit token: three 8-bit channel fields in the
    low three bytes and a shared brightness byte in the top byte (an
    RGBM-style encoding with a maximum brightness of 16). Alpha is dropped.

    Every caller hands the packer a Color32, so each channel is byte/255.
    Under exact rational arithmetic the packer then reduces to integer
    arithmetic on the bytes, which is what is modelled here:
      y       = clamp(ceil(max(r, g, b) / 16), 1, 255)
      channel = (byte * 255) div (16 * y)
      token   = r | g << 8 | b << 16 | y << 24, that is r + 2^8 g + 2^16 b + 2^24 y
 */
module ColorCodec {

  type Byte = x: int | 0 <= x < 256

  /** A colour with 8-bit channels; channel value v stands for v/255. */
  datatype Color32 = Color32(r: Byte, g: Byte, b: Byte, a: Byte)

  /** The packed colour token, an unsigned 32-bit integer. */
  type Token = x: int | 0 <= x < 0x1_0000_0000

  /** Ceiling of the encodable luminance. */
  const MaxBrightness: nat := 16

  /** The baseline colour every point is reset to, and the highlight colour. */
  const White32 := Color32(255, 255, 255, 255)
  const Magenta32 := Color32(255, 0, 255, 255)

  function Max(a: int, b: int): int { if a < b then b else a }

  function Clamp(v: int, lo: int, hi: int): int
    requires lo <= hi
  {
    if v < lo then lo else if hi < v then hi else v
  }

  /** The exact ceiling of n / d. */
  function CeilDiv(n: nat, d: nat): (q: nat)
    requires d > 0
    ensures d * q >= n
    ensures q == 0 || d * (q - 1) < n
  {
    (n + d - 1) / d
  }

  function MaxChannel(c: Color32): Byte
  {
    Max(Max(c.r, c.g), c.b)
  }

  /** The brightness byte: the least multiple count of 16 covering the
      brightest channel, but never 0. */
  function Brightness(c: Color32): (y: Byte)
    ensures 1 <= y <= MaxBrightness
    ensures MaxChannel(c) <= MaxBrightness * y
    ensures y == 1 || MaxBrightness * (y - 1) < MaxChannel(c)
  {
    Clamp(CeilDiv(MaxChannel(c), MaxBrightness), 1, 255)
  }

  /** (x * k) / d <= k whenever x <= d: a scaled channel never exceeds the scale. */
  lemma ScaledAtMost(x: nat, k: nat, d: nat)
    requires 0 < d && x <= d
    ensures (x * k) / d <= k
  {
    var q := (x * k) / d;
    assert d * q <= x * k;
    assert x * k <= d * k;
    MulCancel(d, q, k);
  }

  lemma MulCancel(d: nat, q: nat, k: nat)
    requires 0 < d && d * q <= d * k
    ensures q <= k
  {
  }

  /** One channel, scaled by 255 * 255 / (y * 16) and truncated to an
      integer: byte/255 * 255*255/(16y) = byte*255/(16y). */
  function ScaleChannel(v: Byte, y: int): (s: Byte)
    requires 1 <= y && v <= MaxBrightness * y
    ensures MaxBrightness * y * s <= 255 * v < MaxBrightness * y * (s + 1)
  {
    ScaledAtMost(v, 255, MaxBrightness * y);
    (v * 255) / (MaxBrightness * y)
  }

  /** The source ORs the four fields shifted by 0, 8, 16 and 24 bits. Every
      field is below 256, so the fields occupy disjoint bits, the OR is their
      sum, and the top shift of a brightness byte stays within 32 bits. */
  function Pack(r: Byte, g: Byte, b: Byte, y: Byte): Token
  {
    r + g * 0x100 + b * 0x1_0000 + y * 0x100_0000
  }

  /** The four byte fields of a token, lowest first. */
  function Unpack(t: Token): (Byte, Byte, Byte, Byte)
  {
    (t % 0x100, t / 0x100 % 0x100, t / 0x1_0000 % 0x100, t / 0x100_0000)
  }

  /** (q * 256 + r) splits back into q and r. */
  lemma SplitByte(q: nat, r: Byte)
    ensures (q * 0x100 + r) / 0x100 == q && (q * 0x100 + r) % 0x100 == r
  {
  }

  /** The fields never overlap: unpacking returns exactly what was packed. */
  lemma UnpackPack(r: Byte, g: Byte, b: Byte, y: Byte)
    ensures Unpack(Pack(r, g, b, y)) == (r, g, b, y)
  {
    var t := Pack(r, g, b, y);
    var gby := g + b * 0x100 + y * 0x1_0000;
    var high := b + y * 0x100;
    assert t == gby * 0x100 + r;
    SplitByte(gby, r);
    assert gby == high * 0x100 + g;
    SplitByte(high, g);
    SplitByte(y, b);
    assert t / 0x1_0000 == (t / 0x100) / 0x100;
    assert t / 0x100_0000 == (t / 0x1_0000) / 0x100;
  }

  /** Packs c into a token. The brightness field is never 0, so a decoder
      never divides by zero, and every channel field is exactly the scaled
      channel (no field spills into its neighbour). */
  function EncodeColor(c: Color32): (t: Token)
    ensures 1 <= Unpack(t).3 <= 16
    ensures Unpack(t).3 == Brightness(c)
    ensures Unpack(t).0 == ScaleChannel(c.r, Brightness(c))
    ensures Unpack(t).1 == ScaleChannel(c.g, Brightness(c))
    ensures Unpack(t).2 == ScaleChannel(c.b, Brightness(c))
  {
    var y := Brightness(c);
    var r, g, b := ScaleChannel(c.r, y), ScaleChannel(c.g, y), ScaleChannel(c.b, y);
    UnpackPack(r, g, b, y);
    Pack(r, g, b, y)
  }

  /** Alpha is never read. */
  lemma AlphaIgnored(c: Color32, a: Byte)
    ensures EncodeColor(c.(a := a)) == EncodeColor(c)
  {
  }

  /** The decoder, the inverse of the packer: channel = field * y * 16 / (255 * 255). */
  function DecodeChannel(field: Byte, y: Byte): real
  {
    (field * y * MaxBrightness) as real / 65025.0
  }

  function Decode(t: Token): (real, real, real)
  {
    var (r, g, b, y) := Unpack(t);
    (DecodeChannel(r, y), DecodeChannel(g, y), DecodeChannel(b, y))
  }

  /** The quantisation error of one channel: the decoded value lies below the
      original channel v/255 by less than 16*y/65025. */
  lemma ChannelError(v: Byte, y: nat, s: nat)
    requires MaxBrightness * y * s <= 255 * v < MaxBrightness * y * (s + 1)
    ensures 0.0 <= v as real / 255.0 - (s * y * MaxBrightness) as real / 65025.0
    ensures v as real / 255.0 - (s * y * MaxBrightness) as real / 65025.0
            < (MaxBrightness * y) as real / 65025.0
  {
    assert v as real / 255.0 == (255 * v) as real / 65025.0;
    assert (s * y * MaxBrightness) == MaxBrightness * y * s;
    assert MaxBrightness * y * (s + 1) == MaxBrightness * y * s + MaxBrightness * y;
  }

  /** Round trip: decoding an encoded colour recovers every channel v/255 up
      to a non-negative error below 16*y/65025, at most 256/65025 (under 1/254). */
  lemma DecodeEncode(c: Color32)
    ensures var d := Decode(EncodeColor(c));
            var bound := (MaxBrightness * Brightness(c)) as real / 65025.0;
            && 0.0 <= c.r as real / 255.0 - d.0 < bound
            && 0.0 <= c.g as real / 255.0 - d.1 < bound
            && 0.0 <= c.b as real / 255.0 - d.2 < bound
            && bound <= 256.0 / 65025.0
  {
    var y := Brightness(c);
    var t := EncodeColor(c);
    ChannelError(c.r, y, ScaleChannel(c.r, y));
    ChannelError(c.g, y, ScaleChannel(c.g, y));
    ChannelError(c.b, y, ScaleChannel(c.b, y));
  }

  lemma EncodeWhite()
    ensures EncodeColor(White32) == 0x10FE_FEFE
  {
  }

  lemma EncodeMagenta()
    ensures EncodeColor(Magenta32) == 0x10FE_00FE
  {
  }

  lemma EncodeBlack(a: Byte)
    ensures EncodeColor(Color32(0, 0, 0, a)) == 0x0100_0000
  {
  }
}
