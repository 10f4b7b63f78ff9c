/** Native RGB565 words and 8-bit coverage. Fields are taken and put together by arithmetic on the value of a word;
    `MaskedFields` and `GatheredIsPacked` show that this is what the shifts, masks and ors of the source do. */
module Rgb565 {

  type U16 = x: nat | x < 0x1_0000
  type Alpha = x: nat | x < 256

  datatype Field = Red | Green | Blue

  function Mask(f: Field): (m: nat)
    ensures 31 <= m <= 63
  {
    match f
    case Green => 63
    case _ => 31
  }

  /** `(color >> shift) & mask` */
  function Component(color: U16, f: Field): (c: nat)
    ensures c <= Mask(f)
  {
    match f
    case Red => color / 2048 % 32
    case Green => color / 32 % 64
    case Blue => color % 32
  }

  /** The color accumulated by `|=` from components that fit their fields. */
  function Pack(red: nat, green: nat, blue: nat): (color: U16)
    requires red <= 31 && green <= 63 && blue <= 31
    ensures Component(color, Red) == red && Component(color, Green) == green && Component(color, Blue) == blue
  {
    Fields(red, green, blue);
    red * 2048 + green * 32 + blue
  }

  lemma Fields(red: nat, green: nat, blue: nat)
    requires red <= 31 && green <= 63 && blue <= 31
    ensures var c := red * 2048 + green * 32 + blue;
      c < 0x1_0000 && c / 2048 % 32 == red && c / 32 % 64 == green && c % 32 == blue
  {
    var c := red * 2048 + green * 32 + blue;
    assert c / 2048 == red;
    assert c / 32 == red * 64 + green;
  }

  /** The conversion to and from big-endian wire order on a little-endian machine. */
  function Swap(color: U16): (r: U16)
    ensures r % 256 == color / 256 && r / 256 == color % 256
  {
    color % 256 * 256 + color / 256
  }

  lemma SwapTwice(color: U16)
    ensures Swap(Swap(color)) == color
  {
  }

  /** What a destination word shows, and the word that shows a color. */
  function Ordered(color: U16, wire: bool): U16 {
    if wire then Swap(color) else color
  }

  function Power2(n: nat): (p: nat)
    ensures p > 0
  {
    if n == 0 then 1 else 2 * Power2(n - 1)
  }

  /** `(b >> k) & 1` */
  function Digit(b: nat, k: nat): (d: nat)
    ensures d < 2
  {
    if k == 0 then b % 2 else Digit(b / 2, k - 1)
  }

  /** `bits[i / 8] & (1 << (i % 8)) != 0` */
  predicate Bit(bits: seq<Alpha>, i: nat)
    requires i / 8 < |bits|
  {
    Digit(bits[i / 8], i % 8) == 1
  }

  datatype Coverage = Opaque | Cutout(bits: seq<Alpha>) | Alpha8(alpha: seq<Alpha>)

  predicate Covers(c: Coverage, pixels: nat) {
    match c
    case Opaque => true
    case Cutout(bits) => |bits| >= (pixels + 7) / 8
    case Alpha8(alpha) => |alpha| >= pixels
  }

  function At(c: Coverage, i: nat): Alpha
    requires Covers(c, i + 1)
  {
    match c
    case Opaque => 255
    case Cutout(bits) => if Bit(bits, i) then 255 else 0
    case Alpha8(alpha) => alpha[i]
  }

  datatype Texture = Texture(width: U16, height: U16, pixels: seq<U16>, coverage: Coverage)

  /** Texel `i` exists and has a coverage. */
  predicate Texel(t: Texture, i: nat) {
    i < |t.pixels| && Covers(t.coverage, i + 1)
  }

  // The words themselves. Everything above is arithmetic on the value of a word; here the shifts, masks and ors of
  // the source are shown to be that arithmetic.

  function Value(c: bv16): (v: U16) {
    c as int
  }

  function LowBit(c: bv16): nat {
    if c & 1 == 0 then 0 else 1
  }

  lemma ShiftedZero(c: bv16)
    requires c < 0x8000
    ensures Value(c << 1) == 2 * Value(c)
  {
  }

  lemma ShiftedOne(c: bv16)
    requires c < 0x8000
    ensures Value((c << 1) | 1) == 2 * Value(c) + 1
  {
  }

  lemma Rejoined(c: bv16)
    ensures c >> 1 < 0x8000
    ensures c & 1 == 0 ==> c == (c >> 1) << 1
    ensures c & 1 != 0 ==> c == ((c >> 1) << 1) | 1
  {
  }

  /** One bit off the bottom. */
  lemma Halved(c: bv16)
    ensures Value(c) == 2 * Value(c >> 1) + LowBit(c)
  {
    hide Value;
    Rejoined(c);
    if c & 1 == 0 {
      ShiftedZero(c >> 1);
    } else {
      ShiftedOne(c >> 1);
    }
  }

  lemma HalvedToNext(c: bv16, next: bv16)
    requires c >> 1 == next
    ensures Value(c) == 2 * Value(next) + LowBit(c)
  {
    hide Value, LowBit;
    Halved(c);
  }

  lemma SecondBit(c: bv16)
    ensures Value(c >> 1) == 2 * Value(c >> 2) + LowBit(c >> 1)
  {
    hide Value, LowBit;
    HalvedToNext(c >> 1, c >> 2);
  }

  lemma ThirdBit(c: bv16)
    ensures Value(c >> 2) == 2 * Value(c >> 3) + LowBit(c >> 2)
  {
    hide Value, LowBit;
    HalvedToNext(c >> 2, c >> 3);
  }

  lemma FourthBit(c: bv16)
    ensures Value(c >> 3) == 2 * Value(c >> 4) + LowBit(c >> 3)
  {
    hide Value, LowBit;
    HalvedToNext(c >> 3, c >> 4);
  }

  lemma FifthBit(c: bv16)
    ensures Value(c >> 4) == 2 * Value(c >> 5) + LowBit(c >> 4)
  {
    hide Value, LowBit;
    HalvedToNext(c >> 4, c >> 5);
  }

  function FiveBits(c: bv16): (v: nat)
    ensures v <= 31
  {
    LowBit(c) + 2 * LowBit(c >> 1) + 4 * LowBit(c >> 2) + 8 * LowBit(c >> 3) + 16 * LowBit(c >> 4)
  }

  lemma HalvedFiveTimes(c: bv16)
    ensures Value(c) == 32 * Value(c >> 5) + FiveBits(c)
  {
    hide Value, LowBit;
    Halved(c);
    SecondBit(c);
    ThirdBit(c);
    FourthBit(c);
    FifthBit(c);
  }

  lemma SameShifted(c: bv16, low: bv16)
    requires c & 31 == low
    ensures c & 1 == low & 1 && (c >> 1) & 1 == (low >> 1) & 1 && (c >> 2) & 1 == (low >> 2) & 1
    ensures (c >> 3) & 1 == (low >> 3) & 1 && (c >> 4) & 1 == (low >> 4) & 1
  {
  }

  lemma SameFiveBits(c: bv16, low: bv16)
    requires c & 31 == low
    ensures FiveBits(c) == FiveBits(low)
  {
    SameShifted(c, low);
  }

  lemma NothingAbove(low: bv16)
    ensures low <= 31 ==> Value(low >> 5) == 0
    ensures low <= 63 ==> low >> 1 <= 31
  {
    if low <= 31 {
      assert low >> 5 == 0;
    }
  }

  /** A word is its upper part times 32 and its five low bits. */
  lemma LowFive(c: bv16, low: bv16)
    requires low <= 31 && c & 31 == low
    ensures Value(c) == 32 * Value(c >> 5) + Value(low) && Value(low) <= 31
  {
    hide Value, LowBit, FiveBits;
    HalvedFiveTimes(c);
    HalvedFiveTimes(low);
    SameFiveBits(c, low);
    NothingAbove(low);
  }

  lemma SixBits(c: bv16, low: bv16)
    requires low <= 63 && c & 63 == low
    ensures (c >> 1) & 31 == low >> 1 && low >> 1 <= 31 && (c >> 1) >> 5 == c >> 6 && LowBit(c) == LowBit(low)
  {
  }

  lemma LowSix(c: bv16, low: bv16)
    requires low <= 63 && c & 63 == low
    ensures Value(c) == 64 * Value(c >> 6) + Value(low) && Value(low) <= 63
  {
    hide Value;
    SixBits(c, low);
    Halved(c);
    Halved(low);
    LowFive(c >> 1, low >> 1);
  }

  lemma Narrow(red: bv16)
    requires red <= 31
    ensures Value(red) <= 31
  {
    hide Value;
    assert red & 31 == red;
    LowFive(red, red);
  }

  /** A word whose fields, read by shift and mask, are the given ones has the value that packs them. */
  lemma FieldsOfWord(c: bv16, red: bv16, green: bv16, blue: bv16)
    requires c & 31 == blue && (c >> 5) & 63 == green && (c >> 5) >> 6 == red
    requires blue <= 31 && green <= 63 && red <= 31
    ensures Value(red) <= 31 && Value(green) <= 63 && Value(blue) <= 31
    ensures Value(c) == Pack(Value(red), Value(green), Value(blue))
  {
    hide Value, Component;
    LowFive(c, blue);
    LowSix(c >> 5, green);
    Narrow(red);
  }

  lemma ShiftedFields(c: bv16)
    ensures (c >> 5) >> 6 == c >> 11 && (c >> 11) & 31 == c >> 11 && c >> 11 <= 31 && c & 31 <= 31 && (c >> 5) & 63 <= 63
  {
  }

  /** `(color >> shift) & mask` is the field of the word's value. */
  lemma MaskedFields(c: bv16)
    ensures Value((c >> 11) & 31) == Component(Value(c), Red)
    ensures Value((c >> 5) & 63) == Component(Value(c), Green)
    ensures Value(c & 31) == Component(Value(c), Blue)
  {
    hide Value, Component;
    ShiftedFields(c);
    FieldsOfWord(c, c >> 11, (c >> 5) & 63, c & 31);
  }

  lemma OredFields(red: bv16, green: bv16, blue: bv16)
    requires red <= 31 && green <= 63 && blue <= 31
    ensures var c := (red << 11) | (green << 5) | blue;
      && c & 31 == blue && (c >> 5) & 63 == green && (c >> 5) >> 6 == red
      && c == (red << 11) + (green << 5) + blue
  {
  }

  /** The word of three components, or-ed at their places. */
  function Ored(red: bv16, green: bv16, blue: bv16): bv16 {
    (red << 11) | (green << 5) | blue
  }

  /** The fields do not touch: or-ing placed components packs them. */
  lemma OredIsPacked(red: bv16, green: bv16, blue: bv16)
    requires red <= 31 && green <= 63 && blue <= 31
    ensures Value(red) <= 31 && Value(green) <= 63 && Value(blue) <= 31
    ensures Value(Ored(red, green, blue)) == Pack(Value(red), Value(green), Value(blue))
  {
    hide Value;
    OredFields(red, green, blue);
    FieldsOfWord(Ored(red, green, blue), red, green, blue);
  }

  /** `component as u16` */
  function FieldWord(v: nat): bv16
    requires v < 64
  {
    v as bv16
  }

  lemma {:induction false} FieldWordValue(v: nat)
    requires v < 64
    ensures Value(FieldWord(v)) == v
  {
    if v > 0 {
      FieldWordValue(v - 1);
      NextWord(FieldWord(v - 1), v);
    }
  }

  lemma NextWord(c: bv16, v: nat)
    requires 0 < v < 64 && Value(c) == v - 1
    ensures Value(FieldWord(v)) == v
  {
    assert c < 63;
    assert Value(c + 1) == Value(c) + 1;
  }

  lemma FieldWordFits(v: nat)
    requires v < 64
    ensures FieldWord(v) <= 63 && (v <= 31 ==> FieldWord(v) <= 31)
  {
  }

  /** A word with one more component or-ed in at its place. */
  function OrIn(color: bv16, component: bv16, f: Field): bv16 {
    match f
    case Red => color | (component << 11)
    case Green => color | (component << 5)
    case Blue => color | component
  }

  /** Gathering three components that fit, from the top field down or from the bottom one up, packs them. */
  lemma GatheredIsPacked(red: nat, green: nat, blue: nat)
    requires red <= 31 && green <= 63 && blue <= 31
    ensures Value(OrIn(OrIn(OrIn(0, FieldWord(red), Red), FieldWord(green), Green), FieldWord(blue), Blue)) == Pack(red, green, blue)
    ensures Value(OrIn(OrIn(OrIn(0, FieldWord(blue), Blue), FieldWord(green), Green), FieldWord(red), Red)) == Pack(red, green, blue)
  {
    hide Value, FieldWord;
    var r, g, b := FieldWord(red), FieldWord(green), FieldWord(blue);
    FieldWordValue(red);
    FieldWordValue(green);
    FieldWordValue(blue);
    FieldWordFits(red);
    FieldWordFits(green);
    FieldWordFits(blue);
    OredIsPacked(r, g, b);
    FromZero(r, g, b);
  }

  lemma OrIntoNothing(x: bv16)
    ensures 0 | x == x
  {
  }

  lemma OrEitherWay(x: bv16, y: bv16, z: bv16)
    ensures (x | y) | z == (z | y) | x
  {
  }

  lemma TopDown(red: bv16, green: bv16, blue: bv16)
    ensures OrIn(OrIn(OrIn(0, red, Red), green, Green), blue, Blue) == Ored(red, green, blue)
  {
    OrIntoNothing(red << 11);
    assert OrIn(0, red, Red) == red << 11;
  }

  lemma BottomUp(red: bv16, green: bv16, blue: bv16)
    ensures OrIn(OrIn(OrIn(0, blue, Blue), green, Green), red, Red) == Ored(red, green, blue)
  {
    OrIntoNothing(blue);
    assert OrIn(0, blue, Blue) == blue;
    OrEitherWay(red << 11, green << 5, blue);
  }

  lemma FromZero(red: bv16, green: bv16, blue: bv16)
    ensures OrIn(OrIn(OrIn(0, red, Red), green, Green), blue, Blue) == Ored(red, green, blue)
    ensures OrIn(OrIn(OrIn(0, blue, Blue), green, Green), red, Red) == Ored(red, green, blue)
  {
    hide OrIn, Ored;
    TopDown(red, green, blue);
    BottomUp(red, green, blue);
  }
}
