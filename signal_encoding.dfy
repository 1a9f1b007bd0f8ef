/** Facts about 32-bit words and the integers they denote. */
module Bits32 {
  lemma SplitAt28(x: bv32)
    ensures x as int == (x / 0x1000_0000) as int * 0x1000_0000 + (x & 0x0FFF_FFFF) as int
  {
  }

  lemma LowBitsBound(x: bv32)
    ensures (x & 0x0FFF_FFFF) as int < 0x1000_0000
  {
    var low := x & 0x0FFF_FFFF;
    assert low / 0x1000_0000 == 0;
    SmallWord(low);
  }

  lemma SmallWord(y: bv32)
    requires y / 0x1000_0000 == 0
    ensures y as int < 0x1000_0000
  {
    DivBy28(y);
    QuotientZero(y as int);
  }

  lemma QuotientZero(n: int)
    requires 0 <= n && n / 0x1000_0000 == 0
    ensures n < 0x1000_0000
  {
  }

  lemma DivBy28(x: bv32)
    ensures (x / 0x1000_0000) as int == x as int / 0x1000_0000
  {
  }

  lemma ModUnique(n: int, q: int, r: int)
    requires n == q * 0x1000_0000 + r && 0 <= r < 0x1000_0000
    ensures n % 0x1000_0000 == r
  {
  }

  lemma TopBit(x: bv32)
    ensures (x / 0x8000_0000) as int == x as int / 0x8000_0000
    ensures x & 0x8000_0000 != 0 <==> x / 0x8000_0000 == 1
    ensures x / 0x8000_0000 <= 1
  {
  }
}

/**
 * The integer rules of the DBF encoder (dbc2dbf.py, convert_to_dbf): the
 * masked message id and its frame flag, a signal's byte and bit position,
 * and its type tag with the raw range derived from bit width and sign.
 */
module SignalEncoding {
  import opened Wrappers
  import opened Bits32

  /** `1 << n`. */
  function Pow2(n: nat): (r: nat)
    ensures r >= 1
  {
    if n == 0 then 1 else 2 * Pow2(n - 1)
  }

  // ---------------------------------------------------------------------
  // Message id
  // ---------------------------------------------------------------------

  /** `id & 0x0FFFFFFF`: the id without its top four bits. */
  function MaskedId(id: nat): (r: nat)
    ensures r < 0x1000_0000
  {
    id % 0x1000_0000
  }

  /** `id & 0x80000000 > 0`: bit 31, the extended-frame flag, is set. */
  predicate IsExtended(id: nat) {
    (id / 0x8000_0000) % 2 == 1
  }

  /** The frame flag written after the message: "X" for an extended id, "S" otherwise. */
  function FrameFlag(id: nat): (c: char)
    ensures c == 'X' <==> IsExtended(id)
    ensures c == 'X' || c == 'S'
  {
    if IsExtended(id) then 'X' else 'S'
  }

  /** On a 32-bit id, the arithmetic above is the program's bitwise `&`. */
  lemma MaskedIdIsBitwiseAnd(x: bv32)
    ensures MaskedId(x as nat) == (x & 0x0FFF_FFFF) as nat
    ensures IsExtended(x as nat) <==> x & 0x8000_0000 != 0
  {
    SplitAt28(x);
    LowBitsBound(x);
    ModUnique(x as int, (x / 0x1000_0000) as int, (x & 0x0FFF_FFFF) as int);
    TopBit(x);
  }

  /** An extended and a standard id. */
  lemma MaskedIdExamples()
    ensures MaskedId(0x8000_0001) == 1 && FrameFlag(0x8000_0001) == 'X'
    ensures MaskedId(0x123) == 0x123 && FrameFlag(0x123) == 'S'
  {
  }

  // ---------------------------------------------------------------------
  // Signal placement
  // ---------------------------------------------------------------------

  /** `start_bit // 8 + 1`: the 1-based byte holding the start bit. */
  function ByteIndex(startBit: nat): (b: nat)
    ensures b >= 1
  {
    startBit / 8 + 1
  }

  /** `start_bit % 8`: the start bit's position inside that byte. */
  function BitIndex(startBit: nat): (k: nat)
    ensures k < 8
  {
    startBit % 8
  }

  /** The start bit that a byte index and a bit index denote. */
  function StartBitAt(byteIndex: nat, bitIndex: nat): nat
    requires byteIndex >= 1
  {
    (byteIndex - 1) * 8 + bitIndex
  }

  /** Byte and bit index recover the start bit ... */
  lemma PlacementRoundTrip(startBit: nat)
    ensures StartBitAt(ByteIndex(startBit), BitIndex(startBit)) == startBit
  {
  }

  /** ... and are the only such pair. */
  lemma PlacementUnique(byteIndex: nat, bitIndex: nat)
    requires byteIndex >= 1 && bitIndex < 8
    ensures ByteIndex(StartBitAt(byteIndex, bitIndex)) == byteIndex
    ensures BitIndex(StartBitAt(byteIndex, bitIndex)) == bitIndex
  {
  }

  // ---------------------------------------------------------------------
  // Type tag and raw range
  // ---------------------------------------------------------------------

  /** A signal's DBF type tag ('B' boolean, 'U' unsigned, 'I' signed) and raw range. */
  datatype Encoding = Encoding(typeTag: char, rawMax: int, rawMin: int)

  lemma Pow2Succ(n: nat)
    ensures Pow2(n + 1) == 2 * Pow2(n)
    ensures n >= 1 ==> Pow2(n) >= 2
  {
  }

  /**
   * The type tag and raw range of a signal of `length` > 0 bits: one bit is
   * boolean 0..1; wider signals span exactly the values of `length` bits,
   * unsigned from 0, or two's-complement signed when `valueType` is '-'.
   * Integer arithmetic throughout (see `RawEncodingAsWritten`).
   */
  function RawEncoding(length: nat, valueType: char): (e: Encoding)
    requires length >= 1
    ensures e.typeTag == (if length == 1 then 'B' else if valueType == '-' then 'I' else 'U')
    ensures e.rawMax - e.rawMin + 1 == Pow2(length)
    ensures e.rawMin <= 0 < e.rawMax
    ensures e.typeTag == 'I' ==> e.rawMin == -(Pow2(length - 1) as int) && e.rawMax == Pow2(length - 1) - 1
    ensures e.typeTag != 'I' ==> e.rawMin == 0
  {
    Pow2Succ(length - 1);
    if length == 1 then Encoding('B', 1, 0)
    else
      Pow2Succ(length - 2);
      var range := Pow2(length) - 1;
      if valueType == '-' then Encoding('I', range / 2, -(range / 2) - 1)
      else Encoding('U', range, 0)
  }

  /**
   * `int(range / 2)` for `range = (1 << length) - 1`, as the program
   * evaluates it. `/` on two integers is true division: the exact quotient
   * 2^(length-1) - 1/2 is rounded to the nearest double, ties to even, and
   * `int` truncates the double toward zero. Up to 53 bits the quotient is
   * itself a double and the result is 2^(length-1) - 1; from 54 bits on it
   * rounds up to 2^(length-1); from 1025 bits on it exceeds the largest
   * double and the division raises OverflowError (None).
   */
  function HalfRangeAsWritten(length: nat): (r: Option<int>)
    requires length >= 2
    ensures length <= 53 ==> r == Some(Pow2(length - 1) - 1)
    ensures 54 <= length <= 1024 ==> r == Some(Pow2(length - 1))
    ensures r.None? <==> length > 1024
  {
    if length <= 53 then Some((Pow2(length) - 1) / 2)
    else if length <= 1024 then Some(Pow2(length - 1))
    else None
  }

  /** The type tag and raw range as the program computes them, float division included. */
  function RawEncodingAsWritten(length: nat, valueType: char): (r: Option<Encoding>)
    requires length >= 1
    ensures r.None? <==> valueType == '-' && length > 1024
    ensures r.Some? && r.value.typeTag == 'I' ==> r.value.rawMin == -r.value.rawMax - 1
  {
    if length == 1 then Some(Encoding('B', 1, 0))
    else if valueType != '-' then Some(Encoding('U', Pow2(length) - 1, 0))
    else
      match HalfRangeAsWritten(length)
      case Some(half) => Some(Encoding('I', half, -half - 1))
      case None => None
  }

  /** Up to 53 bits the program's range is the exact one. */
  lemma AsWrittenAgreesUpTo53Bits(length: nat, valueType: char)
    requires 1 <= length <= 53
    ensures RawEncodingAsWritten(length, valueType) == Some(RawEncoding(length, valueType))
  {
  }

  /**
   * From 54 bits on a signed signal's range as written is two values too
   * wide, one at each end: a 64-bit signed signal gets raw maximum 2^63 and
   * raw minimum -2^63 - 1, neither of which is a 64-bit two's-complement
   * value.
   */
  lemma AsWrittenSignedRangeTooWide(length: nat)
    requires 54 <= length <= 1024
    ensures RawEncodingAsWritten(length, '-').Some?
    ensures var e := RawEncodingAsWritten(length, '-').value;
      e.rawMax == Pow2(length - 1) && e.rawMax - e.rawMin + 1 == Pow2(length) + 2
  {
    Pow2Succ(length - 1);
  }

  lemma AsWrittenSigned64Bits()
    ensures RawEncodingAsWritten(64, '-') == Some(Encoding('I', 0x8000_0000_0000_0000, -0x8000_0000_0000_0001))
    ensures RawEncoding(64, '-') == Encoding('I', 0x7FFF_FFFF_FFFF_FFFF, -0x8000_0000_0000_0000)
  {
    Pow2Of63();
    Pow2Succ(63);
  }

  lemma Pow2Of16()
    ensures Pow2(16) == 0x1_0000
  {
    Pow2Add(8, 8);
    assert Pow2(8) == 0x100;
  }

  lemma Pow2Of31()
    ensures Pow2(31) == 0x8000_0000
  {
    Pow2Add(16, 15);
    Pow2Of16();
    assert Pow2(15) == 0x8000 by { Pow2Add(8, 7); assert Pow2(8) == 0x100; assert Pow2(7) == 0x80; }
  }

  lemma Pow2Of63()
    ensures Pow2(63) == 0x8000_0000_0000_0000
  {
    Pow2Add(32, 31);
    Pow2Of31();
    Pow2Succ(31);
  }

  lemma {:induction false} Pow2Add(a: nat, b: nat)
    ensures Pow2(a + b) == Pow2(a) * Pow2(b)
  {
    if b > 0 {
      Pow2Add(a, b - 1);
      assert Pow2(a + b) == 2 * Pow2(a + b - 1);
    }
  }
}
