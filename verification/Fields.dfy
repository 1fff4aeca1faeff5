/** In-place editing of bit fields inside little-endian byte buffers.
    The functions on bit strings say what an edit means; the methods are the source's loops
    over bytes, proved to compute them. */
module Fields {
  import opened Bits

  // ------------------------------------------------------- meaning, on bit strings

  /** Shift towards bit 0 by `n`, filling with zeros; the length is kept. */
  function ShiftRight(s: seq<bool>, n: nat): (r: seq<bool>)
    ensures |r| == |s|
  {
    if n >= |s| then Zeros(|s|) else s[n..] + Zeros(n)
  }

  /** Clear bits `n` and up of the one byte that holds bit `n`; every other byte is kept. */
  function MaskOff(s: seq<bool>, n: nat): (r: seq<bool>)
    requires |s| % 8 == 0
    ensures |r| == |s|
  {
    if n < |s| then s[..n] + Zeros(8 - n % 8) + s[n / 8 * 8 + 8..] else s
  }

  /** Exactly `w` bits of `v`: cut when too long, zero-extended when too short. */
  function Fit(v: seq<bool>, w: nat): (r: seq<bool>)
    ensures |r| == w
  {
    if |v| >= w then v[..w] else v + Zeros(w - |v|)
  }

  /** Replace bits lower..=upper of `s` by the low bits of `v`. */
  function Splice(s: seq<bool>, v: seq<bool>, lower: nat, upper: nat): (r: seq<bool>)
    requires lower <= upper < |s|
    ensures |r| == |s|
  {
    s[..lower] + Fit(v, upper - lower + 1) + s[upper + 1..]
  }

  /** What the buffer holds after a field has been read in place. */
  function Extract(s: seq<bool>, lower: nat, upper: nat): (r: seq<bool>)
    requires |s| % 8 == 0 && lower <= upper
    ensures |r| == |s|
  {
    MaskOff(ShiftRight(s, lower), upper - lower + 1)
  }

  /** The number of bytes in the slice that a field read returns. */
  function SliceLength(len: nat, width: nat): nat {
    if width / 8 + 1 <= len then width / 8 + 1 else len
  }

  // ------------------------------------------------------- right_shift

  /** The bits that byte `j` hands down to byte `j - 1`. */
  function ShiftCarry(a: seq<bv8>, j: nat, n: nat): bv8
    requires 0 < n < 8
  {
    if j < |a| then Shl(And(a[j], LowMask(n)), 8 - n) else 0
  }

  function ShiftedByte(a: seq<bv8>, j: nat, n: nat): bv8
    requires 0 < n < 8 && j < |a|
  {
    Or(Shr(a[j], n), ShiftCarry(a, j + 1, n))
  }

  lemma ZeroByteBit(k: nat)
    requires k < 8
    ensures !ByteBit(0, k)
  {
  }

  lemma ShiftedByteBit(a: seq<bv8>, j: nat, n: nat, k: nat)
    requires 0 < n < 8 && j < |a| && k < 8
    ensures ByteBit(ShiftedByte(a, j, n), k)
            == if k + n < 8 then ByteBit(a[j], k + n) else j + 1 < |a| && ByteBit(a[j + 1], k + n - 8)
  {
    hide ByteBit, And, Or, Shl, Shr, LowMask;
    ZeroByteBit(k);
  }

  lemma ShiftRightIndex(s: seq<bool>, n: nat, i: nat)
    requires i < |s|
    ensures ShiftRight(s, n)[i] == (i + n < |s| && s[i + n])
  {
  }

  /** Bit `8 * j + k` of a buffer that has been shifted right by `8 * m + n`. */
  lemma ShiftRightAt(a: seq<bv8>, m: nat, n: nat, j: nat, k: nat)
    requires n < 8 && j < |a| && k < 8
    ensures At(ShiftRight(BitsOf(a), 8 * m + n), j, k)
            == if k + n < 8 then j + m < |a| && ByteBit(a[j + m], k + n)
               else j + m + 1 < |a| && ByteBit(a[j + m + 1], k + n - 8)
  {
    hide ByteBit, BitsOf, ShiftRight;
    ShiftRightIndex(BitsOf(a), 8 * m + n, 8 * j + k);
    if k + n < 8 {
      if j + m < |a| {
        BitAt(a, j + m, k + n);
      }
    } else if j + m + 1 < |a| {
      BitAt(a, j + m + 1, k + n - 8);
    }
  }

  lemma ShiftedBytesBits(a: seq<bv8>, n: nat, b: seq<bv8>)
    requires 0 < n < 8 && |a| == |b|
    requires forall j: nat :: j < |a| ==> b[j] == ShiftedByte(a, j, n)
    ensures BitsOf(b) == ShiftRight(BitsOf(a), n)
  {
    hide ByteBit, ShiftedByte, BitsOf, ShiftRight;
    forall j: nat, k: nat | j < |a| && k < 8
      ensures At(BitsOf(b), j, k) == At(ShiftRight(BitsOf(a), n), j, k)
    {
      BitAt(b, j, k);
      ShiftedByteBit(a, j, n, k);
      ShiftRightAt(a, 0, n, j, k);
    }
    SameByteWise(BitsOf(b), ShiftRight(BitsOf(a), n), |a|);
  }

  lemma MovedBytesBits(a: seq<bv8>, m: nat, b: seq<bv8>)
    requires m < |a| == |b|
    requires forall j: nat :: j < |a| ==> b[j] == if j + m < |a| then a[j + m] else 0
    ensures BitsOf(b) == ShiftRight(BitsOf(a), 8 * m)
  {
    hide ByteBit, BitsOf, ShiftRight;
    forall j: nat, k: nat | j < |a| && k < 8
      ensures At(BitsOf(b), j, k) == At(ShiftRight(BitsOf(a), 8 * m), j, k)
    {
      BitAt(b, j, k);
      ZeroByteBit(k);
      ShiftRightAt(a, m, 0, j, k);
    }
    SameByteWise(BitsOf(b), ShiftRight(BitsOf(a), 8 * m), |a|);
  }

  lemma ZeroBytesBits(a: seq<bv8>)
    requires forall j: nat :: j < |a| ==> a[j] == 0
    ensures BitsOf(a) == Zeros(8 * |a|)
  {
    hide ByteBit;
    forall j: nat, k: nat | j < |a| && k < 8
      ensures At(BitsOf(a), j, k) == At(Zeros(8 * |a|), j, k)
    {
      BitAt(a, j, k);
      ZeroByteBit(k);
    }
    SameByteWise(BitsOf(a), Zeros(8 * |a|), |a|);
  }

  /** Shifts compose additively. */
  lemma ShiftRightAdds(s: seq<bool>, m: nat, n: nat)
    ensures ShiftRight(ShiftRight(s, m), n) == ShiftRight(s, m + n)
  {
    var once, twice := ShiftRight(s, m), ShiftRight(ShiftRight(s, m), n);
    forall i: nat | i < |s|
      ensures twice[i] == ShiftRight(s, m + n)[i]
    {
      assert i + n < |s| ==> twice[i] == once[i + n];
    }
  }

  /** A whole-buffer right shift is integer division by 2^n. */
  lemma ShiftRightDivides(s: seq<bool>, n: nat)
    ensures NatOf(ShiftRight(s, n)) == NatOf(s) / Pow2(n)
  {
    if n >= |s| {
      NatOfZeros(|s|);
      NatOfBound(s);
      Pow2Monotone(|s|, n);
      DivModUnique(NatOf(s), Pow2(n), 0, NatOf(s));
    } else {
      NatOfSplit(s, n);
      NatOfConcat(s[n..], Zeros(n));
      NatOfZeros(n);
    }
  }

  /** The byte-wise move and the bit-wise carry pass of a whole-buffer right shift. */
  method RightShift(existing: array<bv8>, shift: nat)
    modifies existing
    ensures BitsOf(existing[..]) == ShiftRight(BitsOf(old(existing[..])), shift)
  {
    hide BitsOf, ShiftRight;
    var byteShift, bitShift := shift / 8, shift % 8;
    ghost var before := BitsOf(existing[..]);
    if shift >= existing.Length * 8 {
      ZeroFill(existing);
      ShiftAllOut(before, shift);
    } else {
      ShiftByZero(before);
      if byteShift > 0 {
        MoveBytes(existing, byteShift);
      }
      ghost var moved := BitsOf(existing[..]);
      ShiftByZero(moved);
      if bitShift > 0 {
        ShiftBits(existing, bitShift);
      }
      ShiftRightAdds(before, 8 * byteShift, bitShift);
      assert BitsOf(existing[..]) == ShiftRight(moved, bitShift);
    }
  }

  lemma ShiftAllOut(s: seq<bool>, n: nat)
    requires n >= |s|
    ensures ShiftRight(s, n) == Zeros(|s|)
  {
  }

  lemma ShiftByZero(s: seq<bool>)
    ensures ShiftRight(s, 0) == s
  {
  }

  method ZeroFill(existing: array<bv8>)
    modifies existing
    ensures BitsOf(existing[..]) == Zeros(8 * existing.Length)
  {
    for o := 0 to existing.Length
      invariant forall j: nat :: j < o ==> existing[j] == 0
    {
      existing[o] := 0;
    }
    ZeroBytesBits(existing[..]);
  }

  method MoveBytes(existing: array<bv8>, byteShift: nat)
    requires byteShift < existing.Length
    modifies existing
    ensures BitsOf(existing[..]) == ShiftRight(BitsOf(old(existing[..])), 8 * byteShift)
  {
    ghost var before := existing[..];
    for index := 0 to existing.Length
      invariant forall j: nat :: j < index ==>
        existing[j] == if j + byteShift < |before| then before[j + byteShift] else 0
      invariant forall j: nat :: index <= j < existing.Length ==> existing[j] == before[j]
    {
      existing[index] := if index + byteShift < existing.Length then existing[index + byteShift] else 0;
    }
    MovedBytesBits(before, byteShift, existing[..]);
  }

  /** The carry pass: each byte takes the low bits of the byte above it. */
  method ShiftBits(existing: array<bv8>, bitShift: nat)
    requires 0 < bitShift < 8
    modifies existing
    ensures BitsOf(existing[..]) == ShiftRight(BitsOf(old(existing[..])), bitShift)
  {
    hide And, Or, Shl, Shr, LowMask, BitsOf, ShiftRight;
    ghost var before := existing[..];
    var carry: bv8 := 0;
    for i := existing.Length downto 0
      invariant carry == ShiftCarry(before, i, bitShift)
      invariant forall j: nat :: j < i ==> existing[j] == before[j]
      invariant forall j: nat :: i <= j < existing.Length ==> existing[j] == ShiftedByte(before, j, bitShift)
    {
      var nextCarry := Shl(And(existing[i], LowMask(bitShift)), 8 - bitShift);
      existing[i] := Or(Shr(existing[i], bitShift), carry);
      carry := nextCarry;
    }
    ShiftedBytesBits(before, bitShift, existing[..]);
  }

  // ------------------------------------------------------- mask_off

  lemma MaskOffAt(s: seq<bool>, n: nat, j: nat, k: nat)
    requires |s| % 8 == 0 && n < |s| && 8 * j + k < |s| && k < 8
    ensures At(MaskOff(s, n), j, k) == (At(s, j, k) && (j == n / 8 ==> k < n % 8))
  {
  }

  lemma MaskedByteBits(a: seq<bv8>, n: nat, b: seq<bv8>)
    requires n / 8 < |a|
    requires b == a[n / 8 := And(a[n / 8], LowMask(n % 8))]
    ensures BitsOf(b) == MaskOff(BitsOf(a), n)
  {
    hide ByteBit, And, LowMask, BitsOf, MaskOff;
    forall j: nat, k: nat | j < |a| && k < 8
      ensures At(BitsOf(b), j, k) == At(MaskOff(BitsOf(a), n), j, k)
    {
      BitAt(a, j, k);
      BitAt(b, j, k);
      MaskOffAt(BitsOf(a), n, j, k);
    }
    SameByteWise(BitsOf(b), MaskOff(BitsOf(a), n), |a|);
  }

  /** Returns the length of the prefix that the source hands back as a slice. */
  method MaskOffInPlace(existing: array<bv8>, highBit: nat) returns (len: nat)
    modifies existing
    ensures BitsOf(existing[..]) == MaskOff(BitsOf(old(existing[..])), highBit)
    ensures len == SliceLength(existing.Length, highBit)
  {
    hide And, LowMask, BitsOf;
    var topByte, topBit := highBit / 8, highBit % 8;
    if topByte < existing.Length {
      existing[topByte] := And(existing[topByte], LowMask(topBit));
      MaskedByteBits(old(existing[..]), highBit, existing[..]);
    }
    len := if topByte + 1 < existing.Length then topByte + 1 else existing.Length;
  }

  // ------------------------------------------------------- read_modify

  /** The returned slice holds the field's bits and nothing else. */
  lemma ExtractedSlice(s: seq<bool>, lower: nat, upper: nat)
    requires |s| % 8 == 0 && lower <= upper < |s|
    ensures var w, len := upper - lower + 1, SliceLength(|s| / 8, upper - lower + 1);
            8 * len <= |s|
            && Extract(s, lower, upper)[..8 * len] == s[lower..upper + 1] + Zeros(8 * len - w)
  {
    var w, len := upper - lower + 1, SliceLength(|s| / 8, upper - lower + 1);
    var shifted := ShiftRight(s, lower);
    assert shifted[..w] == s[lower..upper + 1];
    if w < |s| {
      assert 8 * len == w / 8 * 8 + 8;
      assert MaskOff(shifted, w)[..8 * len] == shifted[..w] + Zeros(8 - w % 8);
    } else {
      assert 8 * len == |s|;
    }
  }

  /** The bits lower..=upper of a buffer, as a number. */
  lemma FieldValue(s: seq<bool>, lower: nat, upper: nat)
    requires lower <= upper < |s|
    ensures NatOf(s[lower..upper + 1]) == NatOf(s) / Pow2(lower) % Pow2(upper - lower + 1)
  {
    NatOfSplit(s, lower);
    NatOfSplit(s[lower..], upper - lower + 1);
    assert s[lower..][..upper - lower + 1] == s[lower..upper + 1];
  }

  lemma ExtractedSliceBits(a: seq<bv8>, b: seq<bv8>, lower: nat, upper: nat)
    requires lower <= upper < 8 * |a|
    requires BitsOf(b) == Extract(BitsOf(a), lower, upper)
    ensures var w, len := upper - lower + 1, SliceLength(|a|, upper - lower + 1);
            len <= |b| && w <= 8 * len && BitsOf(b[..len]) == BitsOf(a)[lower..upper + 1] + Zeros(8 * len - w)
  {
    hide BitsOf, Extract;
    var len := SliceLength(|a|, upper - lower + 1);
    ExtractedSlice(BitsOf(a), lower, upper);
    BitsOfSlice(b, 0, len);
    assert b[0..len] == b[..len];
  }

  lemma ExtractedSliceValue(a: seq<bv8>, b: seq<bv8>, lower: nat, upper: nat)
    requires lower <= upper < 8 * |a|
    requires BitsOf(b) == Extract(BitsOf(a), lower, upper)
    ensures var len := SliceLength(|a|, upper - lower + 1);
            len <= |b| && Value(b[..len]) == Value(a) / Pow2(lower) % Pow2(upper - lower + 1)
  {
    hide BitsOf, Extract, NatOf, Pow2, Value, SliceLength;
    var s, len := BitsOf(a), SliceLength(|a|, upper - lower + 1);
    ExtractedSliceBits(a, b, lower, upper);
    FieldValue(s, lower, upper);
    ValueIsNatOf(a);
    ValueIsNatOf(b[..len]);
    var pad := 8 * len - (upper - lower + 1);
    NatOfConcat(s[lower..upper + 1], Zeros(pad));
    NatOfZeros(pad);
    assert Pow2(upper + 1 - lower) * 0 == 0;
  }

  lemma ExtractIs(s: seq<bool>, lower: nat, upper: nat)
    requires |s| % 8 == 0 && lower <= upper
    ensures Extract(s, lower, upper) == MaskOff(ShiftRight(s, lower), upper - lower + 1)
  {
  }

  method ReadModify(existing: array<bv8>, lower: nat, upper: nat) returns (len: nat)
    requires lower <= upper < 8 * existing.Length
    modifies existing
    ensures BitsOf(existing[..]) == Extract(BitsOf(old(existing[..])), lower, upper)
    ensures len == SliceLength(existing.Length, upper - lower + 1)
    ensures Value(existing[..len]) == Value(old(existing[..])) / Pow2(lower) % Pow2(upper - lower + 1)
  {
    hide BitsOf, Extract, MaskOff, ShiftRight, Value, Pow2;
    ghost var before := existing[..];
    RightShift(existing, lower);
    len := MaskOffInPlace(existing, upper - lower + 1);
    ExtractIs(BitsOf(before), lower, upper);
    ExtractedSliceValue(before, existing[..], lower, upper);
  }

  // ------------------------------------------------------- write_modify

  /** Byte `r` of a value buffer that reads as zero past its end. */
  function ByteOrZero(value: seq<bv8>, r: nat): bv8 {
    if r < |value| then value[r] else 0
  }

  /** The low bits that iteration `r` merges under the shifted value byte: the untouched bits
      of the buffer the first time, the top bits of the previous value byte afterwards. */
  function WriteCarry(before: bv8, value: seq<bv8>, ws: nat, r: nat): bv8
    requires ws < 8
  {
    if r == 0 || ws == 0 then And(before, LowMask(ws)) else And(Shr(ByteOrZero(value, r - 1), 8 - ws), LowMask(ws))
  }

  /** How many low bits of byte `j` a write up to bit `upper` covers. */
  function Covered(upper: nat, j: nat): (n: nat)
    requires 8 * j <= upper
    ensures 0 < n <= 8
  {
    if upper + 1 - 8 * j < 8 then upper + 1 - 8 * j else 8
  }

  function Merge(to: bv8, from: bv8, n: nat): bv8
    requires n <= 8
  {
    Or(And(to, LowMask(n)), And(from, Not(LowMask(n))))
  }

  /** The byte that iteration `r` of the write loop stores. */
  function WrittenByte(before: seq<bv8>, value: seq<bv8>, lower: nat, upper: nat, r: nat): bv8
    requires lower <= upper < 8 * |before| && 8 * (lower / 8 + r) <= upper
  {
    var ws, j := lower % 8, lower / 8 + r;
    Merge(Or(Shl(ByteOrZero(value, r), ws), WriteCarry(before[lower / 8], value, ws, r)), before[j], Covered(upper, j))
  }

  lemma MergeBit(to: bv8, from: bv8, n: nat, k: nat)
    requires n <= 8 && k < 8
    ensures ByteBit(Merge(to, from, n), k) == if k < n then ByteBit(to, k) else ByteBit(from, k)
  {
    hide ByteBit, And, Or, Not, LowMask;
  }

  lemma WriteCarryBit(before: bv8, value: seq<bv8>, ws: nat, r: nat, k: nat)
    requires ws < 8 && k < 8
    ensures ByteBit(WriteCarry(before, value, ws, r), k)
            == (k < ws && if r == 0 then ByteBit(before, k) else ByteBit(ByteOrZero(value, r - 1), 8 - ws + k))
  {
    hide ByteBit, And, Shr, LowMask, ByteOrZero;
  }

  /** Bit `i` of a value that is zero-extended without end. */
  function ValueBit(value: seq<bv8>, i: nat): bool {
    i < 8 * |value| && Bit(value, i)
  }

  lemma ValueBitAt(value: seq<bv8>, r: nat, k: nat)
    requires k < 8
    ensures ValueBit(value, 8 * r + k) == ByteBit(ByteOrZero(value, r), k)
  {
    hide ByteBit;
    ZeroByteBit(k);
    assert (8 * r + k) / 8 == r && (8 * r + k) % 8 == k;
  }

  /** The merged byte before masking: value bits above the carry. */
  lemma ToWriteBit(before: bv8, value: seq<bv8>, ws: nat, r: nat, k: nat)
    requires ws < 8 && k < 8
    ensures ByteBit(Or(Shl(ByteOrZero(value, r), ws), WriteCarry(before, value, ws, r)), k)
            == if r == 0 && k < ws then ByteBit(before, k) else ValueBit(value, 8 * r + k - ws)
  {
    hide ByteBit, Or, Shl, WriteCarry, ByteOrZero, ValueBit;
    WriteCarryBit(before, value, ws, r, k);
    if k >= ws {
      ValueBitAt(value, r, k - ws);
    } else if r > 0 {
      ValueBitAt(value, r - 1, 8 - ws + k);
    }
  }

  lemma WrittenByteBit(before: seq<bv8>, value: seq<bv8>, lower: nat, upper: nat, r: nat, k: nat)
    requires lower <= upper < 8 * |before| && 8 * (lower / 8 + r) <= upper && k < 8
    ensures var i := 8 * (lower / 8 + r) + k;
            ByteBit(WrittenByte(before, value, lower, upper, r), k)
            == if lower <= i <= upper then ValueBit(value, i - lower) else ByteBit(before[lower / 8 + r], k)
  {
    hide ByteBit, Merge, Or, Shl, WriteCarry, ByteOrZero, ValueBit;
    var ws, j := lower % 8, lower / 8 + r;
    var to := Or(Shl(ByteOrZero(value, r), ws), WriteCarry(before[lower / 8], value, ws, r));
    MergeBit(to, before[j], Covered(upper, j), k);
    ToWriteBit(before[lower / 8], value, ws, r, k);
  }

  lemma SpliceAt(s: seq<bool>, v: seq<bool>, lower: nat, upper: nat, i: nat)
    requires lower <= upper < |s| && i < |s|
    ensures Splice(s, v, lower, upper)[i]
            == if lower <= i <= upper then i - lower < |v| && v[i - lower] else s[i]
  {
  }

  lemma WrittenBytesBits(before: seq<bv8>, value: seq<bv8>, lower: nat, upper: nat, after: seq<bv8>)
    requires lower <= upper < 8 * |before| && |after| == |before|
    requires forall j: nat :: j < |before| ==>
      after[j] == if lower / 8 <= j <= upper / 8
                  then WrittenByte(before, value, lower, upper, j - lower / 8)
                  else before[j]
    ensures BitsOf(after) == Splice(BitsOf(before), BitsOf(value), lower, upper)
  {
    hide ByteBit, WrittenByte, BitsOf, Splice;
    forall j: nat, k: nat | j < |before| && k < 8
      ensures At(BitsOf(after), j, k) == At(Splice(BitsOf(before), BitsOf(value), lower, upper), j, k)
    {
      SpliceAt(BitsOf(before), BitsOf(value), lower, upper, 8 * j + k);
      BitAt(before, j, k);
      BitAt(after, j, k);
      if lower / 8 <= j <= upper / 8 {
        WrittenByteBit(before, value, lower, upper, j - lower / 8, k);
      }
    }
    SameByteWise(BitsOf(after), Splice(BitsOf(before), BitsOf(value), lower, upper), |before|);
  }

  /** Places the low bits of `value` onto bits lower..=upper of `existing`. */
  method WriteModify(existing: array<bv8>, value: seq<bv8>, lower: nat, upper: nat)
    requires lower <= upper < 8 * existing.Length
    modifies existing
    ensures BitsOf(existing[..]) == Splice(BitsOf(old(existing[..])), BitsOf(value), lower, upper)
  {
    hide ByteBit, And, Or, Not, Shl, Shr, LowMask, BitsOf, Splice;
    ghost var before := existing[..];
    var shiftCount := upper - lower + 1;
    var readPtr, writePtr, writeShift := 0, lower / 8, lower % 8;
    var firstTimeLengthen := writeShift;
    var carry := And(existing[writePtr], LowMask(writeShift));
    while shiftCount > 0
      invariant writePtr == lower / 8 + readPtr
      invariant firstTimeLengthen == if readPtr == 0 then writeShift else 0
      invariant shiftCount == if 8 * writePtr <= upper then upper + 1 - 8 * writePtr - firstTimeLengthen else 0
      invariant carry == WriteCarry(before[lower / 8], value, writeShift, readPtr)
      invariant forall j: nat :: j < existing.Length ==>
        existing[j] == if lower / 8 <= j < writePtr && 8 * j <= upper
                       then WrittenByte(before, value, lower, upper, j - lower / 8)
                       else before[j]
      decreases shiftCount
    {
      var v := if readPtr < |value| then value[readPtr] else 0;
      var toWrite := Or(Shl(v, writeShift), carry);
      if writeShift > 0 {
        carry := And(Shr(v, 8 - writeShift), LowMask(writeShift));
      }
      var writeCount := if shiftCount < 8 - firstTimeLengthen then shiftCount else 8 - firstTimeLengthen;
      var writeBits := if writeCount + firstTimeLengthen < 8 then writeCount + firstTimeLengthen else 8;
      var writeMask := LowMask(writeBits);
      assert writeBits == Covered(upper, writePtr);
      firstTimeLengthen := 0;
      existing[writePtr] := Or(And(toWrite, writeMask), And(existing[writePtr], Not(writeMask)));
      readPtr, writePtr := readPtr + 1, writePtr + 1;
      shiftCount := shiftCount - writeCount;
    }
    WrittenBytesBits(before, value, lower, upper, existing[..]);
  }
}
