/** The NULL bitmap at the head of a serialized tuple: one bit an attribute, set when it is not NULL. */
module NullBitmaps {

  const HIGHBIT: bv8 := 0x80

  function BitmapSize(n: nat): nat { (n + 7) / 8 }

  /** The byte with only bit k set. */
  function Mask(k: nat): bv8
    requires k < 8
  {
    match k case 0 => 0x01 case 1 => 0x02 case 2 => 0x04 case 3 => 0x08
    case 4 => 0x10 case 5 => 0x20 case 6 => 0x40 case _ => 0x80
  }

  function Or(a: bv8, b: bv8): bv8 { a | b }

  predicate Meets(a: bv8, b: bv8) { a & b != 0 }

  function ShiftLeft(b: bv8): bv8 { b << 1 }

  lemma {:induction false} MaskShifts(k: nat)
    requires k < 7
    ensures ShiftLeft(Mask(k)) == Mask(k + 1)
  {}

  lemma {:induction false} MasksAreHigh(k: nat)
    requires k < 8
    ensures Mask(k) == HIGHBIT <==> k == 7
  {}

  lemma {:induction false} MaskOr(a: bv8, i: nat, k: nat)
    requires i < 8 && k < 8
    ensures Meets(Or(a, Mask(i)), Mask(k)) <==> i == k || Meets(a, Mask(k))
  {}

  lemma {:induction false} ZeroMeetsNothing(k: nat)
    requires k < 8
    ensures !Meets(0, Mask(k))
  {}

  predicate IsPresent(isnull: seq<bool>, idx: nat) {
    idx < |isnull| && !isnull[idx]
  }

  /** Byte j of the bitmap when only its first k bits have been decided. */
  function MaskedByte(isnull: seq<bool>, j: nat, k: nat): bv8
    requires k <= 8
  {
    if k == 0 then 0
    else if IsPresent(isnull, 8 * j + k - 1) then Or(MaskedByte(isnull, j, k - 1), Mask(k - 1))
    else MaskedByte(isnull, j, k - 1)
  }

  lemma {:induction false} MaskedByteBits(isnull: seq<bool>, j: nat, k: nat, i: nat)
    requires k <= 8 && i < 8
    ensures Meets(MaskedByte(isnull, j, k), Mask(i)) <==> i < k && IsPresent(isnull, 8 * j + i)
  {
    hide Mask, Or, Meets;
    if k == 0 {
      ZeroMeetsNothing(i);
    } else {
      MaskedByteBits(isnull, j, k - 1, i);
      MaskOr(MaskedByte(isnull, j, k - 1), k - 1, i);
    }
  }

  /** Bits past the last attribute stay clear. */
  lemma {:induction false} MaskedByteStops(isnull: seq<bool>, j: nat, k: nat, m: nat)
    requires k <= m <= 8 && 8 * j + k >= |isnull|
    ensures MaskedByte(isnull, j, m) == MaskedByte(isnull, j, k)
  {
    if m > k { MaskedByteStops(isnull, j, k, m - 1); }
  }

  /** The whole bitmap. */
  function Bitmap(isnull: seq<bool>): (r: seq<bv8>)
    ensures |r| == BitmapSize(|isnull|)
  {
    seq(BitmapSize(|isnull|), j requires j >= 0 => MaskedByte(isnull, j, 8))
  }

  /** The reader's test: bit idx & 7 of byte idx >> 3. */
  predicate BitIsSet(bitmap: seq<bv8>, idx: nat)
    requires idx / 8 < |bitmap|
  {
    Meets(bitmap[idx / 8], Mask(idx % 8))
  }

  /** The bitmap written is the bitmap read: a bit is set exactly for an attribute that is not NULL. */
  lemma {:induction false} BitmapReads(isnull: seq<bool>, idx: nat)
    requires idx < |isnull|
    ensures idx / 8 < BitmapSize(|isnull|)
    ensures BitIsSet(Bitmap(isnull), idx) <==> !isnull[idx]
  {
    MaskedByteBits(isnull, idx / 8, 8, idx % 8);
    hide MaskedByte, Mask, Meets;
  }

  lemma {:induction false} MaskIsTheBit(k: nat)
    requires k < 8
    ensures Mask(k) == (1 as bv8) << k
  {}

  /**
   In the bytes themselves: bit i % 8 of byte i / 8, counted from the lowest, is set exactly for
   an attribute that is not NULL.
   */
  lemma {:induction false} BitmapLayout(isnull: seq<bool>, i: nat)
    requires i < |isnull|
    ensures |Bitmap(isnull)| == (|isnull| + 7) / 8 && i / 8 < |Bitmap(isnull)|
    ensures Bitmap(isnull)[i / 8] & ((1 as bv8) << (i % 8)) != 0 <==> !isnull[i]
  {
    BitmapReads(isnull, i);
    MaskIsTheBit(i % 8);
    hide Mask, Bitmap;
  }

  /** The writer's state after n attributes: bytes before the current one are complete. */
  function Written(isnull: seq<bool>, j: nat, n: nat): bv8 {
    MaskedByte(isnull, j, if n <= 8 * j then 0 else if n >= 8 * j + 8 then 8 else n - 8 * j)
  }

  lemma {:induction false} WrittenAll(isnull: seq<bool>, j: nat)
    ensures Written(isnull, j, |isnull|) == MaskedByte(isnull, j, 8)
  {
    var k := if |isnull| <= 8 * j then 0 else if |isnull| >= 8 * j + 8 then 8 else |isnull| - 8 * j;
    if k < 8 { MaskedByteStops(isnull, j, k, 8); }
  }

  lemma {:induction false} WrittenNext(isnull: seq<bool>, j: nat, n: nat)
    ensures Written(isnull, j, n + 1) ==
      if j == n / 8 && IsPresent(isnull, n) then Or(Written(isnull, j, n), Mask(n % 8)) else Written(isnull, j, n)
  {
    hide Mask, Or;
  }

  /**
   The bitmap writer: a mask shifted once an attribute, which after the high bit
   starts the next byte.  The byte index starts one before the buffer.
   */
  method WriteBitmap(buffer: array<bv8>, isnull: seq<bool>)
    requires BitmapSize(|isnull|) <= buffer.Length
    modifies buffer
    ensures buffer[..] == Bitmap(isnull) + old(buffer[BitmapSize(|isnull|)..])
  {
    var size := (|isnull| + 7) / 8;
    for i := 0 to size
      invariant forall j :: 0 <= j < i ==> buffer[j] == 0
      invariant forall j :: i <= j < buffer.Length ==> buffer[j] == old(buffer[j])
    {
      buffer[i] := 0;
    }
    var bitmap := -1;
    var bitmask := HIGHBIT;
    assert Mask(0) == 1;
    hide *;
    assert forall j :: 0 <= j < size ==> buffer[j] == Written(isnull, j, 0) by { NothingWritten(isnull); }
    MasksAreHigh(7);
    for idx := 0 to |isnull|
      invariant bitmap == (idx + 7) / 8 - 1
      invariant bitmask == Mask((idx + 7) % 8)
      invariant forall j :: 0 <= j < size ==> buffer[j] == Written(isnull, j, idx)
      invariant forall j :: size <= j < buffer.Length ==> buffer[j] == old(buffer[j])
    {
      MasksAreHigh((idx + 7) % 8);
      if bitmask == HIGHBIT {
        bitmask := 1;
        bitmap := bitmap + 1;
      } else {
        MaskShifts((idx + 7) % 8);
        bitmask := ShiftLeft(bitmask);
      }
      assert bitmap == idx / 8 && bitmask == Mask(idx % 8);
      forall j | 0 <= j < size
        ensures Written(isnull, j, idx + 1) ==
          if j == idx / 8 && !isnull[idx] then Or(Written(isnull, j, idx), Mask(idx % 8)) else Written(isnull, j, idx)
      {
        WrittenNext(isnull, j, idx);
      }
      if !isnull[idx] {
        buffer[bitmap] := Or(buffer[bitmap], bitmask);
      }
    }
    forall j | 0 <= j < size ensures buffer[j] == Bitmap(isnull)[j] {
      WrittenAll(isnull, j);
    }
    assert buffer[..] == buffer[..size] + buffer[size..];
  }

  lemma {:induction false} NothingWritten(isnull: seq<bool>)
    ensures forall j: nat :: Written(isnull, j, 0) == 0
  {}
}
