/** The notification's accent color and its packed-ARGB storage: the setter
    packs a color's four bytes into one C# `int`, alpha in the top byte, and
    the getter takes them apart again; the stored 0 means "no color". */
module Colors {
  import opened Integers
  import opened Wrappers

  /** UnityEngine.Color32: four 8-bit channels. Its positional constructor
      takes them in the order red, green, blue, alpha. */
  datatype Color32 = Color32(r: Byte, g: Byte, b: Byte, a: Byte)

  /** The one color the packed form cannot hold: it packs to the "no color" 0. */
  const Transparent: Color32 := Color32(0, 0, 0, 0)

  /** The Color setter's packing of a present color,
      `(a & 0xff) << 24 | (r & 0xff) << 16 | (g & 0xff) << 8 | (b & 0xff)`. */
  function Pack(c: Color32): Int32
  {
    BitOr(BitOr(BitOr(ShiftLeft(BitAnd(c.a, 0xff), 24), ShiftLeft(BitAnd(c.r, 0xff), 16)),
                ShiftLeft(BitAnd(c.g, 0xff), 8)),
          BitAnd(c.b, 0xff))
  }

  /** The Color getter's extraction of one channel, `(color >> shift) & 0xff`:
      a byte, whatever the stored value, namely the base-256 digit at `shift`. */
  function Channel(color: Int32, shift: int): (v: Int32)
    ensures 0 <= v < 0x100
  {
    AndByte(ShiftRight(color, shift));
    BitAnd(ShiftRight(color, shift), 0xff)
  }

  /** The Color setter: null stores 0, a color its packing. */
  function Encode(value: Option<Color32>): Int32
  {
    match value
    case None => 0
    case Some(c) => Pack(c)
  }

  /** The Color getter as the source writes it: it extracts a, r, g and b and
      passes them in that order to the constructor, which takes r, g, b, a. */
  function DecodeAsWritten(color: Int32): (value: Option<Color32>)
    ensures value.None? <==> color == 0
  {
    if color == 0 then None
    else
      var a := Channel(color, 24);
      var r := Channel(color, 16);
      var g := Channel(color, 8);
      var b := Channel(color, 0);
      Some(Color32(ToByte(a), ToByte(r), ToByte(g), ToByte(b)))
  }

  /** The Color getter with each extracted byte given to the channel it was
      extracted for. */
  function Decode(color: Int32): (value: Option<Color32>)
    ensures value.None? <==> color == 0
  {
    if color == 0 then None
    else
      var a := Channel(color, 24);
      var r := Channel(color, 16);
      var g := Channel(color, 8);
      var b := Channel(color, 0);
      Some(Color32(ToByte(r), ToByte(g), ToByte(b), ToByte(a)))
  }

  /** The packed color read as the unsigned number a·2^24 + r·2^16 + g·2^8 + b. */
  function Unsigned(c: Color32): nat
  {
    c.a * 0x100_0000 + c.r * 0x1_0000 + c.g * 0x100 + c.b
  }

  // ---------------------------------------------------------------------
  // Packing

  /** `& 0xff` leaves a byte as it is. */
  lemma MaskByte(x: Byte)
    ensures BitAnd(x, 0xff) == x
  {
    AndByte(x);
    ModSmall(x, 0x100);
  }

  /** One lane of the packing, `(x & 0xff) << shift`: the byte times
      2^shift, truncated to 32 bits. */
  lemma Lane(x: Byte, shift: nat, p: nat)
    requires shift < 32 && p == Pow2(shift)
    ensures ShiftLeft(BitAnd(x, 0xff), shift) == Wrap32(x * p)
  {
    MaskByte(x);
    ModSmall(shift, 32);
    DoubledIs(x, shift, p);
  }

  /** The alpha lane: for a >= 128 the shift reaches the sign bit and the
      lane is negative. */
  lemma WrapAlpha(a: Byte)
    ensures Wrap32(a * 0x100_0000) == a * 0x100_0000 - (if a >= 0x80 then TwoTo32 else 0)
  {
    DivModUnique(a * 0x100_0000, TwoTo32, 0, a * 0x100_0000);
  }

  /** The red and green lanes stay below the sign bit. */
  lemma WrapLow(x: Byte, p: nat)
    requires p == 0x100 || p == 0x1_0000
    ensures Wrap32(x * p) == x * p
  {
    assert 0 <= x * p < TwoTo31;
  }

  /** Or-ing a lane below p = 2^n into a multiple of p adds it. */
  lemma OrLane(x: Int32, y: Int32, n: nat, p: nat)
    requires p == Pow2(n) && x % p == 0 && 0 <= y < p && -TwoTo31 <= x + y < TwoTo31
    ensures BitOr(x, y) == x + y
  {
    OrDisjoint(x, y, n, p);
  }

  /** Where the lanes lie: each partial sum is a multiple of the next lane's
      place, and the whole stays within an int. */
  lemma LaneLayout(sa: int, r: Byte, g: Byte, b: Byte)
    requires -0x80 <= sa < 0x80
    ensures (sa * 0x100_0000) % 0x100_0000 == 0
    ensures (sa * 0x100_0000 + r * 0x1_0000) % 0x1_0000 == 0
    ensures (sa * 0x100_0000 + r * 0x1_0000 + g * 0x100) % 0x100 == 0
    ensures -TwoTo31 <= sa * 0x100_0000 <= sa * 0x100_0000 + r * 0x1_0000
    ensures sa * 0x100_0000 + r * 0x1_0000 <= sa * 0x100_0000 + r * 0x1_0000 + g * 0x100
    ensures sa * 0x100_0000 + r * 0x1_0000 + g * 0x100 + b < TwoTo31
  {
    DivModUnique(sa * 0x100_0000, 0x100_0000, sa, 0);
    DivModUnique(sa * 0x100_0000 + r * 0x1_0000, 0x1_0000, sa * 0x100 + r, 0);
    DivModUnique(sa * 0x100_0000 + r * 0x1_0000 + g * 0x100, 0x100, (sa * 0x100 + r) * 0x100 + g, 0);
  }

  /** Three `|`s over lanes that do not overlap add them up. */
  lemma OrLanes(A: Int32, R: Int32, G: Int32, b: Byte, sa: int, r: Byte, g: Byte)
    requires -0x80 <= sa < 0x80
    requires A == sa * 0x100_0000 && R == r * 0x1_0000 && G == g * 0x100
    ensures BitOr(BitOr(BitOr(A, R), G), b) == A + R + G + b
  {
    LaneLayout(sa, r, g, b);
    OrLane(A, R, 24, 0x100_0000);
    OrLane(A + R, G, 16, 0x1_0000);
    OrLane(A + R + G, b, 8, 0x100);
  }

  /** The packed value is the unsigned number read in two's complement: the
      lanes do not overlap, so each `|` is an addition. */
  lemma PackValue(c: Color32)
    ensures Pack(c) == Unsigned(c) - (if c.a >= 0x80 then TwoTo32 else 0)
  {
    Lane(c.a, 24, 0x100_0000);
    WrapAlpha(c.a);
    Lane(c.r, 16, 0x1_0000);
    WrapLow(c.r, 0x1_0000);
    Lane(c.g, 8, 0x100);
    WrapLow(c.g, 0x100);
    MaskByte(c.b);
    var sa := if c.a >= 0x80 then c.a - 0x100 else c.a;
    OrLanes(ShiftLeft(BitAnd(c.a, 0xff), 24), ShiftLeft(BitAnd(c.r, 0xff), 16),
            ShiftLeft(BitAnd(c.g, 0xff), 8), c.b, sa, c.r, c.g);
  }

  /** The stored int is negative exactly when alpha is 128 or more. */
  lemma PackNegative(c: Color32)
    ensures Pack(c) < 0 <==> c.a >= 0x80
  {
    PackValue(c);
  }

  /** Only the all-zero color packs to the "no color" value 0. */
  lemma PackZero(c: Color32)
    ensures Pack(c) == 0 <==> c == Transparent
  {
    PackValue(c);
  }

  // ---------------------------------------------------------------------
  // Unpacking

  lemma ToByteOfByte(x: Int32)
    requires 0 <= x < 0x100
    ensures ToByte(x) == x
  {
  }

  /** The base-256 digit of x at place p is v when x = (t·256 + v)·p + rest. */
  lemma DigitIs(x: int, p: nat, t: int, v: int, rest: int)
    requires p >= 1 && 0 <= v < 0x100 && 0 <= rest < p
    requires x == p * (t * 0x100 + v) + rest
    ensures (x / p) % 0x100 == v
  {
    DivModUnique(x, p, t * 0x100 + v, rest);
    DivModUnique(t * 0x100 + v, 0x100, t, v);
  }

  /** x's base-256 digits are a, r, g, b when x is a·2^24 + r·2^16 + g·2^8 + b
      read in two's complement. */
  lemma DigitsOf(x: int, a: Byte, r: Byte, g: Byte, b: Byte)
    requires x == a * 0x100_0000 + r * 0x1_0000 + g * 0x100 + b - (if a >= 0x80 then TwoTo32 else 0)
    ensures (x / 0x100_0000) % 0x100 == a && (x / 0x1_0000) % 0x100 == r
    ensures (x / 0x100) % 0x100 == g && x % 0x100 == b
  {
    var t := if a >= 0x80 then -1 else 0;
    var sa := t * 0x100 + a;
    DigitIs(x, 0x100_0000, t, a, r * 0x1_0000 + g * 0x100 + b);
    DigitIs(x, 0x1_0000, sa, r, g * 0x100 + b);
    DigitIs(x, 0x100, sa * 0x100 + r, g, b);
    DivModUnique(x, 0x100, sa * 0x1_0000 + r * 0x100 + g, b);
  }

  /** Conversely, every 32-bit value is its four base-256 digits put back
      together, the top one counting as negative when it is 128 or more. */
  lemma Base256(x: Int32)
    ensures x == ((x / 0x100_0000) % 0x100) * 0x100_0000 + ((x / 0x1_0000) % 0x100) * 0x1_0000
                 + ((x / 0x100) % 0x100) * 0x100 + x % 0x100
                 - (if (x / 0x100_0000) % 0x100 >= 0x80 then TwoTo32 else 0)
  {
    var q1, b := x / 0x100, x % 0x100;
    var q2, g := q1 / 0x100, q1 % 0x100;
    var q3, r := q2 / 0x100, q2 % 0x100;
    var t, a := q3 / 0x100, q3 % 0x100;
    assert x == 0x100 * q1 + b;
    assert q1 == 0x100 * q2 + g;
    assert q2 == 0x100 * q3 + r;
    assert q3 == 0x100 * t + a;
    assert -0x80 <= q3 < 0x80;
    DigitIs(x, 0x100_0000, t, a, r * 0x1_0000 + g * 0x100 + b);
    DigitIs(x, 0x1_0000, q3, r, g * 0x100 + b);
    DigitIs(x, 0x100, q2, g, b);
    assert t == if a >= 0x80 then -1 else 0;
  }

  /** The getter's extraction at a shift below 32 is the base-256 digit at
      place 2^shift. */
  lemma ChannelAt(x: Int32, shift: nat, p: nat)
    requires shift < 32 && p == Pow2(shift)
    ensures Channel(x, shift) == (x / p) % 0x100
  {
    ModSmall(shift, 32);
    var h := ShiftRight(x, shift);
    assert h == Halved(x, shift);
    DivPow2(x, shift, p);
    AndByte(h);
  }

  /** The four extractions the getter makes are the four base-256 digits. */
  lemma ChannelPlaces(x: Int32)
    ensures Channel(x, 24) == (x / 0x100_0000) % 0x100 && Channel(x, 16) == (x / 0x1_0000) % 0x100
    ensures Channel(x, 8) == (x / 0x100) % 0x100 && Channel(x, 0) == x % 0x100
  {
    ChannelAt(x, 24, 0x100_0000);
    ChannelAt(x, 16, 0x1_0000);
    ChannelAt(x, 8, 0x100);
    ChannelAt(x, 0, 1);
  }

  /** Each of the getter's extractions recovers the byte the setter put in
      that lane, also when alpha >= 128 and the stored int is negative. */
  lemma ChannelsOfPack(c: Color32)
    ensures Channel(Pack(c), 24) == c.a
    ensures Channel(Pack(c), 16) == c.r
    ensures Channel(Pack(c), 8) == c.g
    ensures Channel(Pack(c), 0) == c.b
  {
    PackValue(c);
    ChannelPlaces(Pack(c));
    DigitsOf(Pack(c), c.a, c.r, c.g, c.b);
  }

  /** Any 32-bit value is its four extracted bytes put back together. */
  lemma Digits(color: Int32)
    ensures color == Channel(color, 24) * 0x100_0000 + Channel(color, 16) * 0x1_0000
                     + Channel(color, 8) * 0x100 + Channel(color, 0)
                     - (if Channel(color, 24) >= 0x80 then TwoTo32 else 0)
  {
    ChannelPlaces(color);
    Base256(color);
  }

  // ---------------------------------------------------------------------
  // The property seen through the setter and the getter

  /** Setting a color and reading it back gives that color; null, and the one
      color that packs to 0, read back as null. */
  lemma DecodeEncode(value: Option<Color32>)
    ensures Decode(Encode(value)) == if value == Some(Transparent) then None else value
  {
    if value.Some? {
      var c := value.value;
      PackZero(c);
      ChannelsOfPack(c);
      var P := Pack(c);
      ToByteOfByte(Channel(P, 24));
      ToByteOfByte(Channel(P, 16));
      ToByteOfByte(Channel(P, 8));
      ToByteOfByte(Channel(P, 0));
    }
  }

  /** Reading the stored int and setting what was read stores the same int:
      every 32-bit value is the packing of the color it reads as. */
  lemma EncodeDecode(color: Int32)
    ensures Encode(Decode(color)) == color
  {
    if color != 0 {
      var c := Decode(color).value;
      ToByteOfByte(Channel(color, 24));
      ToByteOfByte(Channel(color, 16));
      ToByteOfByte(Channel(color, 8));
      ToByteOfByte(Channel(color, 0));
      assert c.r == Channel(color, 16) && c.g == Channel(color, 8);
      assert c.b == Channel(color, 0) && c.a == Channel(color, 24);
      Digits(color);
      PackValue(c);
    }
  }

  /** The getter as written rotates the channels: a color set as (r, g, b, a)
      reads back as (a, r, g, b), so red lands in green, alpha in red and
      blue in alpha. */
  lemma DecodeAsWrittenRotates(c: Color32)
    requires c != Transparent
    ensures DecodeAsWritten(Encode(Some(c))) == Some(Color32(c.a, c.r, c.g, c.b))
  {
    PackZero(c);
    ChannelsOfPack(c);
    var P := Pack(c);
    ToByteOfByte(Channel(P, 24));
    ToByteOfByte(Channel(P, 16));
    ToByteOfByte(Channel(P, 8));
    ToByteOfByte(Channel(P, 0));
  }

  /** An input that shows it: opaque orange reads back as a fully transparent
      yellow. */
  lemma DecodeAsWrittenMisreadsOrange()
    ensures DecodeAsWritten(Encode(Some(Color32(0xff, 0x80, 0x00, 0xff))))
         == Some(Color32(0xff, 0xff, 0x80, 0x00))
  {
    DecodeAsWrittenRotates(Color32(0xff, 0x80, 0x00, 0xff));
  }
}
