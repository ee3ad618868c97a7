/** Fixed-width integers as bytes, in either byte order. */
module Bytes {

  /** 256 to the width. */
  function Limit(width: nat): (r: nat)
    ensures r >= 1
  {
    if width == 0 then 1 else 256 * Limit(width - 1)
  }

  /** The byte with these bits, lowest first. */
  function FromBits(b0: bool, b1: bool, b2: bool, b3: bool, b4: bool, b5: bool, b6: bool, b7: bool): bv8 {
    (if b0 then 0x01 else 0) | (if b1 then 0x02 else 0) | (if b2 then 0x04 else 0) | (if b3 then 0x08 else 0) |
    (if b4 then 0x10 else 0) | (if b5 then 0x20 else 0) | (if b6 then 0x40 else 0) | (if b7 then 0x80 else 0)
  }

  function Half(n: nat): nat { n / 2 }

  predicate Odd(n: nat) { n % 2 == 1 }

  function ToByte(n: nat): bv8 {
    var n1 := Half(n);
    var n2 := Half(n1);
    var n3 := Half(n2);
    var n4 := Half(n3);
    var n5 := Half(n4);
    var n6 := Half(n5);
    FromBits(Odd(n), Odd(n1), Odd(n2), Odd(n3), Odd(n4), Odd(n5), Odd(n6), Odd(Half(n6)))
  }

  function FromByte(b: bv8): (n: nat)
    ensures n < 256
  {
    (if b & 0x01 != 0 then 1 else 0) + (if b & 0x02 != 0 then 2 else 0) +
    (if b & 0x04 != 0 then 4 else 0) + (if b & 0x08 != 0 then 8 else 0) +
    (if b & 0x10 != 0 then 16 else 0) + (if b & 0x20 != 0 then 32 else 0) +
    (if b & 0x40 != 0 then 64 else 0) + (if b & 0x80 != 0 then 128 else 0)
  }

  function BitValue(b: bool): nat { if b then 1 else 0 }

  lemma {:induction false} BitsAdd(b0: bool, b1: bool, b2: bool, b3: bool, b4: bool, b5: bool, b6: bool, b7: bool)
    ensures FromByte(FromBits(b0, b1, b2, b3, b4, b5, b6, b7)) ==
      BitValue(b0) + 2 * BitValue(b1) + 4 * BitValue(b2) + 8 * BitValue(b3) +
      16 * BitValue(b4) + 32 * BitValue(b5) + 64 * BitValue(b6) + 128 * BitValue(b7)
  {}

  lemma {:induction false} Halve(n: nat, limit: nat)
    requires n < 2 * limit
    ensures n == BitValue(Odd(n)) + 2 * Half(n) && Half(n) < limit
  {}

  lemma {:induction false} ByteIsItself(n: nat)
    requires n < 256
    ensures FromByte(ToByte(n)) == n
  {
    hide FromByte, FromBits, BitValue, Half, Odd;
    var n1 := Half(n);
    var n2 := Half(n1);
    var n3 := Half(n2);
    var n4 := Half(n3);
    var n5 := Half(n4);
    var n6 := Half(n5);
    var n7 := Half(n6);
    BitsAdd(Odd(n), Odd(n1), Odd(n2), Odd(n3), Odd(n4), Odd(n5), Odd(n6), Odd(n7));
    Halve(n, 128);
    Halve(n1, 64);
    Halve(n2, 32);
    Halve(n3, 16);
    Halve(n4, 8);
    Halve(n5, 4);
    Halve(n6, 2);
    Halve(n7, 1);
  }

  lemma {:induction false} OwnBits(b: bv8)
    ensures FromBits(b & 0x01 != 0, b & 0x02 != 0, b & 0x04 != 0, b & 0x08 != 0,
                     b & 0x10 != 0, b & 0x20 != 0, b & 0x40 != 0, b & 0x80 != 0) == b
  {}

  lemma {:induction false} BitsComeBack(b0: bool, b1: bool, b2: bool, b3: bool, b4: bool, b5: bool, b6: bool, b7: bool)
    ensures var b := FromBits(b0, b1, b2, b3, b4, b5, b6, b7); ToByte(FromByte(b)) == b
  {
    hide FromByte, FromBits, BitValue, Half, Odd;
    BitsAdd(b0, b1, b2, b3, b4, b5, b6, b7);
    var n7 := BitValue(b7);
    var n6 := BitValue(b6) + 2 * n7;
    var n5 := BitValue(b5) + 2 * n6;
    var n4 := BitValue(b4) + 2 * n5;
    var n3 := BitValue(b3) + 2 * n4;
    var n2 := BitValue(b2) + 2 * n3;
    var n1 := BitValue(b1) + 2 * n2;
    Unhalve(0, b7);
    Unhalve(n7, b6);
    Unhalve(n6, b5);
    Unhalve(n5, b4);
    Unhalve(n4, b3);
    Unhalve(n3, b2);
    Unhalve(n2, b1);
    Unhalve(n1, b0);
  }

  lemma {:induction false} ByteIsRead(b: bv8)
    ensures ToByte(FromByte(b)) == b
  {
    hide ToByte, FromByte, FromBits;
    OwnBits(b);
    BitsComeBack(b & 0x01 != 0, b & 0x02 != 0, b & 0x04 != 0, b & 0x08 != 0,
                 b & 0x10 != 0, b & 0x20 != 0, b & 0x40 != 0, b & 0x80 != 0);
  }

  lemma {:induction false} Unhalve(n: nat, b: bool)
    ensures Half(BitValue(b) + 2 * n) == n && Odd(BitValue(b) + 2 * n) == b
  {}

  /** The low width bytes of n, lowest first. */
  function LittleEndian(n: nat, width: nat): (r: seq<bv8>)
    ensures |r| == width
  {
    if width == 0 then [] else [ToByte(n % 256)] + LittleEndian(n / 256, width - 1)
  }

  function FromLittleEndian(bytes: seq<bv8>): nat {
    if bytes == [] then 0 else FromByte(bytes[0]) + 256 * FromLittleEndian(bytes[1..])
  }

  lemma {:induction false} LittleEndianReads(n: nat, width: nat)
    requires n < Limit(width)
    ensures FromLittleEndian(LittleEndian(n, width)) == n
  {
    if width > 0 {
      hide ToByte, FromByte;
      LittleEndianReads(n / 256, width - 1);
      ByteIsItself(n % 256);
      assert LittleEndian(n, width)[1..] == LittleEndian(n / 256, width - 1);
    }
  }

  lemma {:induction false} SplitByte(low: nat, rest: nat)
    requires low < 256
    ensures (low + 256 * rest) % 256 == low && (low + 256 * rest) / 256 == rest
  {}

  lemma {:induction false} LittleEndianWrites(bytes: seq<bv8>)
    ensures LittleEndian(FromLittleEndian(bytes), |bytes|) == bytes
  {
    if bytes != [] {
      hide ToByte, FromByte;
      LittleEndianWrites(bytes[1..]);
      ByteIsRead(bytes[0]);
      SplitByte(FromByte(bytes[0]), FromLittleEndian(bytes[1..]));
      assert bytes == [bytes[0]] + bytes[1..];
    }
  }

  /** The low width bytes of n, highest first. */
  function BigEndian(n: nat, width: nat): (r: seq<bv8>)
    ensures |r| == width
  {
    if width == 0 then [] else BigEndian(n / 256, width - 1) + [ToByte(n % 256)]
  }

  function FromBigEndian(bytes: seq<bv8>): nat {
    if bytes == [] then 0 else 256 * FromBigEndian(bytes[..|bytes| - 1]) + FromByte(bytes[|bytes| - 1])
  }

  lemma {:induction false} BigEndianAppends(high: seq<bv8>, low: bv8)
    ensures FromBigEndian(high + [low]) == 256 * FromBigEndian(high) + FromByte(low)
  {
    hide FromByte;
    assert (high + [low])[..|high|] == high;
  }

  lemma {:induction false} BigEndianReads(n: nat, width: nat)
    requires n < Limit(width)
    ensures FromBigEndian(BigEndian(n, width)) == n
  {
    if width > 0 {
      hide ToByte, FromByte;
      BigEndianReads(n / 256, width - 1);
      ByteIsItself(n % 256);
      var high := BigEndian(n / 256, width - 1);
      assert BigEndian(n, width) == high + [ToByte(n % 256)];
      BigEndianAppends(high, ToByte(n % 256));
      hide BigEndian, FromBigEndian, Limit;
    }
  }

  lemma {:induction false} LimitsOfWidths()
    ensures Limit(1) == 0x100 && Limit(2) == 0x1_0000 && Limit(4) == 0x1_0000_0000 &&
      Limit(8) == 0x1_0000_0000_0000_0000
  {
    assert Limit(2) == 256 * Limit(1);
    assert Limit(3) == 256 * Limit(2);
    assert Limit(4) == 256 * Limit(3);
    assert Limit(5) == 256 * Limit(4);
    assert Limit(6) == 256 * Limit(5);
    assert Limit(7) == 256 * Limit(6);
    assert Limit(8) == 256 * Limit(7);
  }

  lemma {:induction false} BigEndianWrites(bytes: seq<bv8>)
    ensures BigEndian(FromBigEndian(bytes), |bytes|) == bytes
    decreases |bytes|
  {
    if bytes != [] {
      hide ToByte, FromByte;
      var high, low := bytes[..|bytes| - 1], bytes[|bytes| - 1];
      BigEndianWrites(high);
      ByteIsRead(low);
      var n := FromBigEndian(bytes);
      assert n == FromByte(low) + 256 * FromBigEndian(high);
      SplitByte(FromByte(low), FromBigEndian(high));
      assert BigEndian(n, |bytes|) == BigEndian(n / 256, |bytes| - 1) + [ToByte(n % 256)];
      hide BigEndian, FromBigEndian, Limit;
      assert n % 256 == FromByte(low) && n / 256 == FromBigEndian(high);
      assert bytes == high + [low];
    }
  }

  // ---- Which byte goes where --------------------------------------------------

  /** A byte counts as the number it is. */
  lemma {:induction false} ByteValue(b: bv8)
    ensures FromByte(b) == b as nat
  {}

  lemma {:induction false} LimitGrows(i: nat)
    ensures Limit(i + 1) == 256 * Limit(i)
  {}

  lemma {:induction false} DivideTwice(n: nat, limit: nat)
    requires limit > 0
    ensures n / 256 / limit == n / (256 * limit)
  {
    var q, r := n / 256, n % 256;
    var p, s := q / limit, q % limit;
    assert n == 256 * (p * limit + s) + r;
    assert 256 * s + r < 256 * limit;
    assert n == p * (256 * limit) + (256 * s + r);
    QuotientIs(n, 256 * limit, p, 256 * s + r);
  }

  lemma {:induction false} QuotientIs(n: nat, d: nat, q: nat, r: nat)
    requires d > 0 && n == q * d + r && r < d
    ensures n / d == q
  {
    var e := n / d;
    assert e * d <= n < (e + 1) * d;
    assert e < q ==> (e + 1) * d <= q * d;
    assert q < e ==> (q + 1) * d <= e * d;
  }

  /** Little endian: byte i is the one of weight 256 to the i. */
  lemma {:induction false} LittleEndianPlace(n: nat, width: nat, i: nat)
    requires i < width
    ensures FromByte(LittleEndian(n, width)[i]) == n / Limit(i) % 256
  {
    hide ToByte, FromByte;
    ByteIsItself(n % 256);
    if i > 0 {
      LittleEndianPlace(n / 256, width - 1, i - 1);
      DivideTwice(n, Limit(i - 1));
    }
  }

  /** Big endian: the byte of weight 256 to the i is the i-th from the end. */
  lemma {:induction false} BigEndianPlace(n: nat, width: nat, i: nat)
    requires i < width
    ensures FromByte(BigEndian(n, width)[width - 1 - i]) == n / Limit(i) % 256
  {
    hide ToByte, FromByte;
    ByteIsItself(n % 256);
    if i > 0 {
      BigEndianPlace(n / 256, width - 1, i - 1);
      DivideTwice(n, Limit(i - 1));
    }
  }

  // ---- Two's complement -------------------------------------------------------

  /** The bit pattern of v in width bytes. */
  function Pattern(v: int, width: nat): (r: nat)
    ensures r < Limit(width)
  {
    v % Limit(width)
  }

  /** The signed value of a bit pattern. */
  function Signed(n: nat, width: nat): int {
    if 2 * n >= Limit(width) then n - Limit(width) else n
  }

  /** A value cut to width bytes, as static_cast to a signed type of that width does. */
  function CutTo(v: int, width: nat): int {
    Signed(Pattern(v, width), width)
  }

  predicate FitsSigned(v: int, width: nat) {
    0 - Limit(width) <= 2 * v < Limit(width)
  }

  /** Cutting lands in the width's range and changes nothing that was already in it. */
  lemma {:induction false} CutFits(v: int, width: nat)
    requires width in {1, 2, 4, 8}
    ensures FitsSigned(CutTo(v, width), width)
    ensures FitsSigned(v, width) ==> CutTo(v, width) == v
    ensures Pattern(CutTo(v, width), width) == Pattern(v, width)
  {
    LimitsOfWidths();
    hide Limit;
  }

  /** A negative number in range is stored as its distance from the top. */
  lemma {:induction false} PatternOfNegative(v: int, width: nat)
    requires width in {1, 2, 4, 8} && FitsSigned(v, width)
    ensures Pattern(v, width) == if v < 0 then Limit(width) + v else v
  {
    LimitsOfWidths();
    hide Limit;
  }

  lemma {:induction false} PatternOfSigned(n: nat, width: nat)
    requires width in {1, 2, 4, 8} && n < Limit(width)
    ensures FitsSigned(Signed(n, width), width) && Pattern(Signed(n, width), width) == n
  {
    LimitsOfWidths();
    hide Limit;
  }
}
