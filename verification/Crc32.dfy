/** The reflected CRC-32 of section 8 of RFC 1952, as `crc32_update` computes it bit by bit.

    The register is a 32-bit vector; `Plus` is addition in GF(2)^32. The lemmas about whole runs treat
    `Plus`, `Half` and `Shift` as symbols (the `hide` statements), so that only the small lemmas reason
    about bits. */
module Crc32 {
  import opened Bytes

  const POLYNOMIAL: bv32 := 0xedb8_8320

  function Plus(a: bv32, b: bv32): bv32 {
    a ^ b
  }

  function Half(crc: bv32): bv32 {
    crc >> 1
  }

  function Feedback(crc: bv32): bv32 {
    if crc & 1 == 1 then POLYNOMIAL else 0
  }

  /** Division of the register by x modulo the reflected polynomial. */
  function Shift(crc: bv32): bv32 {
    Plus(Half(crc), Feedback(crc))
  }

  function Shifts(crc: bv32, n: nat): bv32
    decreases n
  {
    if n == 0 then crc else Shifts(Shift(crc), n - 1)
  }

  function Widen(b: Byte): bv32 {
    b as bv32
  }

  function Absorb(crc: bv32, b: Byte): bv32 {
    Shifts(Plus(crc, Widen(b)), 8)
  }

  function Update(crc: bv32, data: seq<Byte>): bv32
    decreases |data|
  {
    if |data| == 0 then crc else Update(Absorb(crc, data[0]), data[1..])
  }

  /** One turn of the inner loop, which selects the polynomial by a borrow mask instead of a branch. */
  function MaskedShift(crc: bv32): bv32 {
    (crc >> 1) ^ (POLYNOMIAL & (0 - (crc & 1)))
  }

  lemma MaskSelects(crc: bv32)
    ensures MaskedShift(crc) == Shift(crc)
  {
    if crc & 1 == 1 {
      assert 0 - (crc & 1) == 0xffff_ffff;
    } else {
      assert crc & 1 == 0;
    }
  }

  method Crc32Update(start: bv32, data: seq<Byte>) returns (crc: bv32)
    ensures crc == Update(start, data)
  {
    hide Plus, Shift, MaskedShift, Widen;
    crc := start;
    var i := 0;
    while i < |data|
      invariant 0 <= i <= |data|
      invariant Update(crc, data[i..]) == Update(start, data)
    {
      ghost var before := crc;
      crc := Plus(crc, Widen(data[i]));
      var k := 0;
      while k < 8
        invariant 0 <= k <= 8
        invariant Shifts(crc, 8 - k) == Absorb(before, data[i])
      {
        MaskSelects(crc);
        crc := MaskedShift(crc);
        k := k + 1;
      }
      assert data[i..][1..] == data[i + 1..];
      i := i + 1;
    }
  }

  lemma {:induction false} Concatenation(crc: bv32, front: seq<Byte>, back: seq<Byte>)
    ensures Update(crc, front + back) == Update(Update(crc, front), back)
    decreases |front|
  {
    hide Absorb;
    if |front| == 0 {
      assert front + back == back;
    } else {
      assert (front + back)[1..] == front[1..] + back;
      Concatenation(Absorb(crc, front[0]), front[1..], back);
    }
  }

  // Arithmetic in GF(2)^32.

  lemma PlusAssociates(a: bv32, b: bv32, c: bv32)
    ensures Plus(Plus(a, b), c) == Plus(a, Plus(b, c))
  {
  }

  lemma PlusCommutes(a: bv32, b: bv32)
    ensures Plus(a, b) == Plus(b, a)
  {
  }

  lemma PlusUndoes(a: bv32, b: bv32)
    ensures Plus(Plus(a, b), b) == a
  {
  }

  lemma PlusRegroups(a: bv32, b: bv32, x: bv32, y: bv32)
    ensures Plus(Plus(a, x), Plus(b, y)) == Plus(Plus(a, b), Plus(x, y))
  {
    hide *;
    PlusAssociates(a, x, Plus(b, y));
    PlusAssociates(x, b, y);
    PlusCommutes(x, b);
    PlusAssociates(b, x, y);
    PlusAssociates(a, b, Plus(x, y));
  }

  // Linearity.

  lemma HalfLinear(a: bv32, b: bv32)
    ensures Half(Plus(a, b)) == Plus(Half(a), Half(b))
  {
  }

  lemma LowBit(a: bv32, b: bv32)
    ensures (a ^ b) & 1 == (a & 1) ^ (b & 1)
    ensures a & 1 == 0 || a & 1 == 1
    ensures b & 1 == 0 || b & 1 == 1
  {
  }

  lemma FeedbackLinear(a: bv32, b: bv32)
    ensures Feedback(Plus(a, b)) == Plus(Feedback(a), Feedback(b))
  {
    LowBit(a, b);
    assert (a ^ b) & 1 == if a & 1 == b & 1 then 0 else 1;
  }

  lemma ShiftLinear(a: bv32, b: bv32)
    ensures Shift(Plus(a, b)) == Plus(Shift(a), Shift(b))
  {
    hide Plus, Half, Feedback;
    HalfLinear(a, b);
    FeedbackLinear(a, b);
    PlusRegroups(Half(a), Half(b), Feedback(a), Feedback(b));
  }

  lemma {:induction false} ShiftsLinear(a: bv32, b: bv32, n: nat)
    ensures Shifts(Plus(a, b), n) == Plus(Shifts(a, n), Shifts(b, n))
    decreases n
  {
    hide Plus, Shift;
    if n > 0 {
      ShiftLinear(a, b);
      ShiftsLinear(Shift(a), Shift(b), n - 1);
    }
  }

  lemma WidenLinear(x: Byte, y: Byte)
    ensures Widen(x ^ y) == Plus(Widen(x), Widen(y))
  {
  }

  lemma AbsorbLinear(a: bv32, b: bv32, x: Byte, y: Byte)
    ensures Absorb(Plus(a, b), x ^ y) == Plus(Absorb(a, x), Absorb(b, y))
  {
    hide Plus, Shifts, Widen;
    ShiftsLinear(Plus(a, Widen(x)), Plus(b, Widen(y)), 8);
    PlusRegroups(a, b, Widen(x), Widen(y));
    WidenLinear(x, y);
  }

  /** Bytewise exclusive or. */
  function Xor(a: seq<Byte>, b: seq<Byte>): (r: seq<Byte>)
    requires |a| == |b|
    ensures |r| == |a|
  {
    seq(|a|, i requires 0 <= i < |a| => a[i] ^ b[i])
  }

  /** Linearity over GF(2), jointly in the register and the data. */
  lemma {:induction false} Linear(a: bv32, b: bv32, x: seq<Byte>, y: seq<Byte>)
    requires |x| == |y|
    ensures Update(Plus(a, b), Xor(x, y)) == Plus(Update(a, x), Update(b, y))
    decreases |x|
  {
    hide Plus, Absorb;
    if |x| > 0 {
      AbsorbLinear(a, b, x[0], y[0]);
      assert Xor(x, y)[1..] == Xor(x[1..], y[1..]);
      Linear(Absorb(a, x[0]), Absorb(b, y[0]), x[1..], y[1..]);
    }
  }

  // Injectivity.

  lemma ShiftInjective(a: bv32, b: bv32)
    requires Shift(a) == Shift(b)
    ensures a == b
  {
  }

  lemma {:induction false} ShiftsInjective(a: bv32, b: bv32, n: nat)
    requires Shifts(a, n) == Shifts(b, n)
    ensures a == b
    decreases n
  {
    hide Shift;
    if n > 0 {
      ShiftsInjective(Shift(a), Shift(b), n - 1);
      ShiftInjective(a, b);
    }
  }

  /** For fixed data the register determines, and is determined by, the result. */
  lemma {:induction false} Injective(a: bv32, b: bv32, data: seq<Byte>)
    requires Update(a, data) == Update(b, data)
    ensures a == b
    decreases |data|
  {
    hide Plus, Shifts, Widen;
    if |data| > 0 {
      var x := Widen(data[0]);
      Injective(Absorb(a, data[0]), Absorb(b, data[0]), data[1..]);
      ShiftsInjective(Plus(a, x), Plus(b, x), 8);
      PlusUndoes(a, x);
      PlusUndoes(b, x);
    }
  }

  // Burst detection.

  lemma {:induction false} ShiftsAdd(crc: bv32, m: nat, n: nat)
    ensures Shifts(crc, m + n) == Shifts(Shifts(crc, m), n)
    decreases m
  {
    hide Shift;
    if m > 0 {
      ShiftsAdd(Shift(crc), m - 1, n);
    }
  }

  lemma EightShifts(crc: bv32)
    ensures Shifts(crc, 8) == Shift(Shift(Shift(Shift(Shift(Shift(Shift(Shift(crc))))))))
  {
    hide Shift;
    assert Shifts(crc, 4) == Shift(Shift(Shift(Shift(crc))));
    ShiftsAdd(crc, 4, 4);
  }

  lemma CheckDigits()
    ensures Absorb(0xffff_ffff, 0x31) == 0x7c23_1048
    ensures Absorb(0x7c23_1048, 0x32) == 0xb0ac_bb32
    ensures Absorb(0xb0ac_bb32, 0x33) == 0x77b7_9c2d
    ensures Absorb(0x77b7_9c2d, 0x34) == 0x641c_1f5c
    ensures Absorb(0x641c_1f5c, 0x35) == 0x340a_c5e3
    ensures Absorb(0x340a_c5e3, 0x36) == 0xf68d_2c9e
    ensures Absorb(0xf68d_2c9e, 0x37) == 0xaffc_9660
    ensures Absorb(0xaffc_9660, 0x38) == 0x651f_2550
    ensures Absorb(0x651f_2550, 0x39) == 0x340b_c6d9
  {
    hide Shifts;
    EightShifts(Plus(0xffff_ffff, Widen(0x31)));
    EightShifts(Plus(0x7c23_1048, Widen(0x32)));
    EightShifts(Plus(0xb0ac_bb32, Widen(0x33)));
    EightShifts(Plus(0x77b7_9c2d, Widen(0x34)));
    EightShifts(Plus(0x641c_1f5c, Widen(0x35)));
    EightShifts(Plus(0x340a_c5e3, Widen(0x36)));
    EightShifts(Plus(0xf68d_2c9e, Widen(0x37)));
    EightShifts(Plus(0xaffc_9660, Widen(0x38)));
    EightShifts(Plus(0x651f_2550, Widen(0x39)));
  }

  /** The check value by which CRC-32 is known: the nine digits "123456789" sum to 0xcbf43926. */
  lemma CheckValue()
    ensures !Update(0xffff_ffff, [0x31, 0x32, 0x33, 0x34, 0x35, 0x36, 0x37, 0x38, 0x39]) == 0xcbf4_3926
  {
    hide Absorb;
    CheckDigits();
    var digits: seq<Byte> := [0x31, 0x32, 0x33, 0x34, 0x35, 0x36, 0x37, 0x38, 0x39];
    assert digits[0..] == digits && digits[9..] == [];
    UpdateAt(0xffff_ffff, digits, 0);
    UpdateAt(0x7c23_1048, digits, 1);
    UpdateAt(0xb0ac_bb32, digits, 2);
    UpdateAt(0x77b7_9c2d, digits, 3);
    UpdateAt(0x641c_1f5c, digits, 4);
    UpdateAt(0x340a_c5e3, digits, 5);
    UpdateAt(0xf68d_2c9e, digits, 6);
    UpdateAt(0xaffc_9660, digits, 7);
    UpdateAt(0x651f_2550, digits, 8);
  }

  lemma UpdateAt(crc: bv32, data: seq<Byte>, k: nat)
    requires k < |data|
    ensures Update(crc, data[k..]) == Update(Absorb(crc, data[k]), data[k + 1..])
  {
    hide Absorb;
    assert data[k..][1..] == data[k + 1..];
  }

  function Raise(crc: bv32): bv32 {
    crc << 8
  }

  predicate TopByteClear(crc: bv32) {
    crc >> 24 == 0
  }

  predicate NibbleClear(crc: bv32) {
    crc & 0xf == 0
  }

  function Nibble(crc: bv32): bv32 {
    crc >> 4
  }

  predicate Even(crc: bv32) {
    crc & 1 == 0
  }

  lemma EvenShift(crc: bv32)
    requires Even(crc)
    ensures Shift(crc) == Half(crc)
  {
  }

  lemma NibbleHalves(crc: bv32)
    requires NibbleClear(crc)
    ensures Even(crc) && Even(Half(crc)) && Even(Half(Half(crc))) && Even(Half(Half(Half(crc))))
    ensures Half(Half(Half(Half(crc)))) == Nibble(crc)
  {
  }

  lemma NibbleShifts(crc: bv32)
    requires NibbleClear(crc)
    ensures Shifts(crc, 4) == Nibble(crc)
  {
    hide Shift, Half, Even, NibbleClear, Nibble;
    NibbleHalves(crc);
    var a := Half(crc);
    var b := Half(a);
    var c := Half(b);
    EvenShift(crc);
    EvenShift(a);
    EvenShift(b);
    EvenShift(c);
    assert Shifts(crc, 4) == Shifts(a, 3) == Shifts(b, 2) == Shifts(c, 1) == Shifts(Half(c), 0);
  }

  lemma RaisedBits(w: bv32)
    requires TopByteClear(w)
    ensures NibbleClear(Raise(w)) && NibbleClear(Nibble(Raise(w)))
    ensures Nibble(Nibble(Raise(w))) == w
  {
  }

  /** A word moved up by one byte is moved down again by eight shifts: the feedback stays off. */
  lemma RaiseUndone(w: bv32)
    requires TopByteClear(w)
    ensures Shifts(Raise(w), 8) == w
  {
    hide *;
    RaisedBits(w);
    NibbleShifts(Raise(w));
    NibbleShifts(Nibble(Raise(w)));
    ShiftsAdd(Raise(w), 4, 4);
  }

  /** The rest of a burst, added after one byte is absorbed, could have been added above it before. */
  lemma AbsorbUnder(crc: bv32, b: Byte, rest: bv32)
    requires TopByteClear(rest)
    ensures Plus(Absorb(crc, b), rest) == Shifts(Plus(crc, Plus(Widen(b), Raise(rest))), 8)
  {
    hide Plus, Shifts, Widen, Raise, TopByteClear;
    ShiftsLinear(Plus(crc, Widen(b)), Raise(rest), 8);
    RaiseUndone(rest);
    PlusAssociates(crc, Widen(b), Raise(rest));
  }

  /** Up to four bytes as the little-endian word a reflected CRC sees. */
  function Word(w: seq<Byte>): bv32
    decreases |w|
  {
    if |w| == 0 then 0 else Plus(Widen(w[0]), Raise(Word(w[1..])))
  }

  lemma PlusZero(a: bv32)
    ensures Plus(a, 0) == a
  {
  }

  /** Absorbing the bytes one by one is absorbing the word they form, byte by byte from the bottom. */
  lemma {:induction false} AbsorbedAsWord(crc: bv32, w: seq<Byte>)
    requires forall i :: 1 <= i <= |w| ==> TopByteClear(Word(w[i..]))
    ensures Update(crc, w) == Shifts(Plus(crc, Word(w)), 8 * |w|)
    decreases |w|
  {
    hide Plus, Shift, Absorb, Widen, Raise, TopByteClear;
    if |w| == 0 {
      PlusZero(crc);
    } else {
      var tail := w[1..];
      forall i | 1 <= i <= |tail|
        ensures TopByteClear(Word(tail[i..]))
      {
        assert tail[i..] == w[i + 1..];
      }
      AbsorbedAsWord(Absorb(crc, w[0]), tail);
      AbsorbUnder(crc, w[0], Word(tail));
      ShiftsAdd(Plus(crc, Word(w)), 8, 8 * |tail|);
    }
  }

  lemma WordStep(b: Byte, rest: bv32)
    ensures rest >> 8 == 0 ==> Plus(Widen(b), Raise(rest)) >> 16 == 0
    ensures rest >> 16 == 0 ==> Plus(Widen(b), Raise(rest)) >> 24 == 0
    ensures rest == 0 ==> Plus(Widen(b), Raise(rest)) >> 8 == 0
  {
  }

  lemma WordSplits(b: Byte, rest: bv32, c: Byte, more: bv32)
    requires TopByteClear(rest) && TopByteClear(more)
    requires Plus(Widen(b), Raise(rest)) == Plus(Widen(c), Raise(more))
    ensures b == c && rest == more
  {
  }

  lemma ShortWord(w: seq<Byte>)
    requires |w| <= 3
    ensures TopByteClear(Word(w))
  {
    if |w| > 0 {
      var t1 := w[1..];
      if |t1| > 0 {
        var t2 := t1[1..];
        if |t2| > 0 {
          assert t2[1..] == [];
          WordStep(t2[0], Word(t2[1..]));
        }
        WordStep(t1[0], Word(t2));
        assert Word(t2) >> 8 == 0 && Word(t1) >> 16 == 0;
      }
      WordStep(w[0], Word(t1));
    }
  }

  lemma {:induction false} WordInjective(v: seq<Byte>, w: seq<Byte>)
    requires |v| == |w| <= 4 && Word(v) == Word(w)
    ensures v == w
    decreases |v|
  {
    hide Plus, Widen, Raise, TopByteClear;
    if |v| > 0 {
      ShortWord(v[1..]);
      ShortWord(w[1..]);
      WordSplits(v[0], Word(v[1..]), w[0], Word(w[1..]));
      WordInjective(v[1..], w[1..]);
      assert v == [v[0]] + v[1..] && w == [w[0]] + w[1..];
    }
  }

  /** From one register, two different runs of at most four bytes lead to different registers. */
  lemma BurstDetected(crc: bv32, v: seq<Byte>, w: seq<Byte>)
    requires |v| == |w| <= 4
    requires Update(crc, v) == Update(crc, w)
    ensures v == w
  {
    hide *;
    forall i | 1 <= i <= |v|
      ensures TopByteClear(Word(v[i..])) && TopByteClear(Word(w[i..]))
    {
      ShortWord(v[i..]);
      ShortWord(w[i..]);
    }
    AbsorbedAsWord(crc, v);
    AbsorbedAsWord(crc, w);
    ShiftsInjective(Plus(crc, Word(v)), Plus(crc, Word(w)), 8 * |v|);
    PlusCommutes(crc, Word(v));
    PlusCommutes(crc, Word(w));
    PlusUndoes(Word(v), crc);
    PlusUndoes(Word(w), crc);
    WordInjective(v, w);
  }
}
