/** Reading and writing bit fields of registers in a device's byte memory. */
module FieldIo {
  import opened Bits
  import opened Fields
  import opened FieldLaws
  import opened Wrappers

  datatype FieldBits = Whole | Range(lower: nat, upper: nat)

  /** A field: byte address, size in bytes, and the bits it covers. */
  datatype Field = Field(addr: nat, size: nat, bits: FieldBits)

  /** `m` with the bytes at `addr` replaced by `d`. */
  function Patch(m: seq<bv8>, addr: nat, d: seq<bv8>): (r: seq<bv8>)
    requires addr + |d| <= |m|
    ensures |r| == |m|
  {
    m[..addr] + d + m[addr + |d|..]
  }

  /** A device as the host sees it: bytes that can be read and written in blocks. */
  class ByteDevice {
    var mem: seq<bv8>

    constructor (mem: seq<bv8>)
      ensures this.mem == mem
    {
      this.mem := mem;
    }

    /** Fill the first `n` bytes of `data`. */
    method Read(addr: nat, data: array<bv8>, n: nat)
      requires n <= data.Length && addr + n <= |mem|
      modifies data
      ensures data[..] == mem[addr..addr + n] + old(data[n..])
    {
      for i := 0 to n
        invariant forall j: nat :: j < i ==> data[j] == mem[addr + j]
        invariant forall j: nat :: i <= j < data.Length ==> data[j] == old(data[j])
      {
        data[i] := mem[addr + i];
      }
    }

    method Write(addr: nat, data: seq<bv8>)
      requires addr + |data| <= |mem|
      modifies this
      ensures mem == Patch(old(mem), addr, data)
    {
      mem := mem[..addr] + data + mem[addr + |data|..];
    }
  }

  // ------------------------------------------------------- read_field, write_field

  /** The buffer after the raw register bytes were read into its front. */
  function Loaded(m: seq<bv8>, f: Field, buffer: seq<bv8>): (r: seq<bv8>)
    requires f.addr + f.size <= |m| && f.size <= |buffer|
    ensures |r| == |buffer|
  {
    m[f.addr..f.addr + f.size] + buffer[f.size..]
  }

  /** On success returns how much of `value` is handed back: for a bit range the whole
      buffer, because the trimmed slice of the in-place read is dropped. */
  method ReadField(dev: ByteDevice, field: Field, value: array<bv8>) returns (len: Option<nat>)
    requires field.size <= value.Length ==> field.addr + field.size <= |dev.mem|
    requires field.size <= value.Length && field.bits.Range? ==> field.bits.lower <= field.bits.upper < 8 * value.Length
    modifies value
    ensures value.Length < field.size ==> len == None && value[..] == old(value[..])
    ensures field.size <= value.Length && field.bits.Whole? ==>
      len == Some(field.size) && value[..] == Loaded(dev.mem, field, old(value[..]))
    ensures field.size <= value.Length && field.bits.Range? ==>
      len == Some(value.Length)
      && BitsOf(value[..])
         == Extract(BitsOf(Loaded(dev.mem, field, old(value[..]))), field.bits.lower, field.bits.upper)
  {
    hide BitsOf, Extract;
    if value.Length < field.size {
      return None;
    }
    ghost var before := value[..];
    dev.Read(field.addr, value, field.size);
    assert value[..] == Loaded(dev.mem, field, before);
    if field.bits.Range? {
      var _ := ReadModify(value, field.bits.lower, field.bits.upper);
      return Some(value.Length);
    } else {
      return Some(field.size);
    }
  }

  lemma PatchBits(m: seq<bv8>, addr: nat, d: seq<bv8>)
    requires addr + |d| <= |m|
    ensures BitsOf(Patch(m, addr, d)) == BitsOf(m)[..8 * addr] + BitsOf(d) + BitsOf(m)[8 * (addr + |d|)..]
  {
    hide BitsOf;
    BitsOfSlice(m, 0, addr);
    BitsOfSlice(m, addr + |d|, |m|);
    BitsOfConcat(m[..addr] + d, m[addr + |d|..]);
    BitsOfConcat(m[..addr], d);
    assert m[0..addr] == m[..addr] && m[addr + |d|..|m|] == m[addr + |d|..];
  }

  lemma SpliceInside(s: seq<bool>, lo: nat, hi: nat, v: seq<bool>, lower: nat, upper: nat)
    requires lo <= hi <= |s| && lower <= upper < hi - lo
    ensures s[..lo] + Splice(s[lo..hi], v, lower, upper) + s[hi..] == Splice(s, v, lo + lower, lo + upper)
  {
    hide Fit;
    var f := Fit(v, upper - lower + 1);
    assert s[lo..hi][..lower] == s[lo..lo + lower];
    assert s[lo..hi][upper + 1..] == s[lo + upper + 1..hi];
    assert s[..lo] + s[lo..lo + lower] == s[..lo + lower];
    assert s[lo + upper + 1..hi] + s[hi..] == s[lo + upper + 1..];
  }

  lemma PatchedBits(m: seq<bv8>, addr: nat, n: nat, d: seq<bv8>, v: seq<bool>, lower: nat, upper: nat)
    requires addr + n <= |m| && lower <= upper < 8 * n
    requires BitsOf(d) == Splice(BitsOf(m[addr..addr + n]), v, lower, upper)
    ensures |d| == n
    ensures BitsOf(Patch(m, addr, d)) == Splice(BitsOf(m), v, 8 * addr + lower, 8 * addr + upper)
  {
    hide BitsOf, Splice, Patch;
    PatchBits(m, addr, d);
    BitsOfSlice(m, addr, addr + n);
    SpliceInside(BitsOf(m), 8 * addr, 8 * (addr + n), v, lower, upper);
  }

  /** A bit-range write is a read, an in-place splice and a write of the whole scratch buffer;
      it changes the bits of the field and nothing else in memory. */
  method WriteField(dev: ByteDevice, field: Field, existing: array<bv8>, value: seq<bv8>) returns (ok: bool)
    requires field.size <= |value| && field.bits.Whole? ==> field.addr + field.size <= |dev.mem|
    requires field.size <= |value| && field.bits.Range? ==>
      field.addr + existing.Length <= |dev.mem| && field.bits.lower <= field.bits.upper < 8 * existing.Length
    modifies dev, existing
    ensures ok == (field.size <= |value|)
    ensures !ok ==> dev.mem == old(dev.mem)
    ensures ok && field.bits.Whole? ==> dev.mem == Patch(old(dev.mem), field.addr, value[..field.size])
    ensures ok && field.bits.Range? ==>
      BitsOf(dev.mem)
      == Splice(BitsOf(old(dev.mem)), BitsOf(value),
                8 * field.addr + field.bits.lower, 8 * field.addr + field.bits.upper)
  {
    hide BitsOf, Splice, Patch;
    if |value| < field.size {
      return false;
    }
    if field.bits.Range? {
      dev.Read(field.addr, existing, existing.Length);
      assert existing[..] == dev.mem[field.addr..field.addr + existing.Length];
      WriteModify(existing, value, field.bits.lower, field.bits.upper);
      var n, lower, upper := existing.Length, field.bits.lower, field.bits.upper;
      PatchedBits(dev.mem, field.addr, n, existing[..], BitsOf(value), lower, upper);
      dev.Write(field.addr, existing[..]);
    } else {
      dev.Write(field.addr, value[..field.size]);
    }
    return true;
  }

  // ------------------------------------------------------- the u32 wrappers

  function ZeroBytes(n: nat): (r: seq<bv8>)
    ensures |r| == n
  {
    seq(n, _ => 0)
  }

  /** What a u32 read of a field returns: zero when the field is wider than four bytes,
      otherwise the number held by the whole four-byte buffer. */
  function FieldU32(m: seq<bv8>, f: Field): nat
    requires f.size <= 4 ==> f.addr + f.size <= |m|
    requires f.size <= 4 && f.bits.Range? ==> f.bits.lower <= f.bits.upper < 32
  {
    if f.size > 4 then 0
    else
      var raw := BitsOf(Loaded(m, f, ZeroBytes(4)));
      NatOf(if f.bits.Range? then Extract(raw, f.bits.lower, f.bits.upper) else raw)
  }

  method ReadFieldU32(dev: ByteDevice, field: Field) returns (v: nat)
    requires field.size <= 4 ==> field.addr + field.size <= |dev.mem|
    requires field.size <= 4 && field.bits.Range? ==> field.bits.lower <= field.bits.upper < 32
    ensures v == FieldU32(dev.mem, field)
  {
    hide BitsOf, Extract, NatOf, Loaded;
    var output := new bv8[4](_ => 0);
    assert output[..] == ZeroBytes(4);
    var _ := ReadField(dev, field, output);
    ValueIsNatOf(output[..]);
    if field.size > 4 {
      ZeroBytesValue(4);
    }
    v := Value(output[..]);
  }

  lemma {:induction false} ZeroBytesValue(n: nat)
    ensures Value(ZeroBytes(n)) == 0
  {
    if n > 0 {
      assert ZeroBytes(n)[1..] == ZeroBytes(n - 1);
      ZeroBytesValue(n - 1);
    }
  }

  method WriteFieldU32(dev: ByteDevice, field: Field, value: nat)
    requires value < 0x1_0000_0000
    requires field.size <= 4 && field.bits.Whole? ==> field.addr + field.size <= |dev.mem|
    requires field.size <= 4 && field.bits.Range? ==>
      field.addr + 4 <= |dev.mem| && field.bits.lower <= field.bits.upper < 32
    modifies dev
    ensures field.size > 4 ==> dev.mem == old(dev.mem)
    ensures field.size <= 4 && field.bits.Whole? ==>
      dev.mem == Patch(old(dev.mem), field.addr, LeBytes(value, 4)[..field.size])
    ensures field.size <= 4 && field.bits.Range? ==>
      BitsOf(dev.mem)
      == Splice(BitsOf(old(dev.mem)), BitsOf(LeBytes(value, 4)),
                8 * field.addr + field.bits.lower, 8 * field.addr + field.bits.upper)
  {
    hide BitsOf, Splice, Patch, LeBytes;
    var temp := new bv8[4](_ => 0);
    var _ := WriteField(dev, field, temp, LeBytes(value, 4));
  }

  method WriteFieldVec(dev: ByteDevice, field: Field, value: seq<bv8>)
    requires field.size <= |value| ==> field.addr + field.size <= |dev.mem|
    requires field.size <= |value| && field.bits.Range? ==> field.bits.lower <= field.bits.upper < 8 * field.size
    modifies dev
    ensures |value| < field.size ==> dev.mem == old(dev.mem)
    ensures field.size <= |value| && field.bits.Whole? ==>
      dev.mem == Patch(old(dev.mem), field.addr, value[..field.size])
    ensures field.size <= |value| && field.bits.Range? ==>
      BitsOf(dev.mem)
      == Splice(BitsOf(old(dev.mem)), BitsOf(value),
                8 * field.addr + field.bits.lower, 8 * field.addr + field.bits.upper)
  {
    hide BitsOf, Splice, Patch;
    var temp := new bv8[field.size](_ => 0);
    var _ := WriteField(dev, field, temp, value);
  }

  // ------------------------------------------------------- round trip through the u32 wrappers

  /** The field's bits in the buffer a read loads. */
  lemma LoadedBits(m: seq<bv8>, f: Field, buffer: seq<bv8>, lo: nat, hi: nat)
    requires f.addr + f.size <= |m| && f.size <= |buffer| && lo <= hi <= 8 * f.size
    ensures BitsOf(Loaded(m, f, buffer))[lo..hi] == BitsOf(m)[8 * f.addr + lo..8 * f.addr + hi]
  {
    hide BitsOf;
    BitsOfConcat(m[f.addr..f.addr + f.size], buffer[f.size..]);
    BitsOfSlice(m, f.addr, f.addr + f.size);
    assert BitsOf(m)[8 * f.addr..8 * (f.addr + f.size)][lo..hi] == BitsOf(m)[8 * f.addr + lo..8 * f.addr + hi];
  }

  /** Bit `i` of the buffer a read loads: the register's within its size, the buffer's own past it. */
  lemma LoadedBit(m: seq<bv8>, f: Field, buffer: seq<bv8>, i: nat)
    requires f.addr + f.size <= |m| && f.size <= |buffer| && i < 8 * |buffer|
    ensures BitsOf(Loaded(m, f, buffer))[i] == if i < 8 * f.size then BitsOf(m)[8 * f.addr + i] else BitsOf(buffer)[i]
  {
    hide BitsOf, ByteBit;
    if i < 8 * f.size {
      LoadedBits(m, f, buffer, i, i + 1);
      assert BitsOf(Loaded(m, f, buffer))[i..i + 1][0] == BitsOf(m)[8 * f.addr + i..8 * f.addr + i + 1][0];
    } else {
      BitsOfConcat(m[f.addr..f.addr + f.size], buffer[f.size..]);
      BitsOfSlice(buffer, f.size, |buffer|);
      assert buffer[f.size..|buffer|] == buffer[f.size..];
    }
  }

  lemma LoadedTail(m: seq<bv8>, f: Field, n: nat, i: nat)
    requires f.addr + f.size <= |m| && f.size <= n && i < 8 * n
    ensures BitsOf(Loaded(m, f, ZeroBytes(n)))[i] == (i < 8 * f.size && BitsOf(m)[8 * f.addr + i])
  {
    hide BitsOf, ByteBit, Zeros;
    LoadedBit(m, f, ZeroBytes(n), i);
    ZeroBytesBits(ZeroBytes(n));
  }

  /** The part of a field that lies past the size of its register, which a read takes from the
      caller's buffer, already holds the written value. A field inside its register has none. */
  predicate PastSizeAgrees(f: Field, value: seq<bool>, buffer: seq<bool>)
    requires f.bits.Range?
  {
    forall i: nat :: f.bits.lower <= i <= f.bits.upper && 8 * f.size <= i < |buffer| ==>
      buffer[i] == (i - f.bits.lower < |value| && value[i - f.bits.lower])
  }

  /** Bit `j` of the field that a read finds after a write. */
  lemma ReadFieldBit(m: seq<bv8>, f: Field, value: seq<bool>, m': seq<bv8>, buffer: seq<bv8>, j: nat)
    requires f.bits.Range? && f.bits.lower <= f.bits.upper < 8 * |buffer| && f.bits.lower + j <= f.bits.upper
    requires f.addr + f.size <= |m| && |m'| == |m| && f.size <= |buffer| && 8 * f.addr + f.bits.upper < 8 * |m|
    requires BitsOf(m') == Splice(BitsOf(m), value, 8 * f.addr + f.bits.lower, 8 * f.addr + f.bits.upper)
    ensures BitsOf(Loaded(m', f, buffer))[f.bits.lower + j]
            == if f.bits.lower + j < 8 * f.size then j < |value| && value[j] else BitsOf(buffer)[f.bits.lower + j]
  {
    hide BitsOf, Splice, Loaded;
    var lower, upper := f.bits.lower, f.bits.upper;
    LoadedBit(m', f, buffer, lower + j);
    SpliceAt(BitsOf(m), value, 8 * f.addr + lower, 8 * f.addr + upper, 8 * f.addr + lower + j);
  }

  lemma FieldAgreesIff(f: Field, value: seq<bool>, buffer: seq<bool>, raw: seq<bool>)
    requires f.bits.Range? && f.bits.lower <= f.bits.upper < |buffer| == |raw|
    requires forall i: nat :: f.bits.lower <= i <= f.bits.upper ==>
      raw[i] == if i < 8 * f.size then i - f.bits.lower < |value| && value[i - f.bits.lower] else buffer[i]
    ensures raw[f.bits.lower..f.bits.upper + 1] == Fit(value, f.bits.upper - f.bits.lower + 1)
            <==> PastSizeAgrees(f, value, buffer)
  {
    var lower, upper, w := f.bits.lower, f.bits.upper, f.bits.upper - f.bits.lower + 1;
    hide Fit;
    forall j: nat | j < w
      ensures Fit(value, w)[j] == (j < |value| && value[j])
    {
      FitAt(value, w, j);
    }
    if PastSizeAgrees(f, value, buffer) {
      forall j: nat | j < w
        ensures raw[lower..upper + 1][j] == Fit(value, w)[j]
      {
        assert raw[lower + j] == (j < |value| && value[j]);
      }
    } else {
      var i: nat :| lower <= i <= upper && 8 * f.size <= i < |buffer|
                    && buffer[i] != (i - lower < |value| && value[i - lower]);
      assert raw[lower..upper + 1][i - lower] == raw[i];
      assert Fit(value, w)[i - lower] != raw[i];
    }
  }

  lemma ReadFieldIff(m: seq<bv8>, f: Field, value: seq<bool>, m': seq<bv8>, buffer: seq<bv8>)
    requires f.bits.Range? && f.bits.lower <= f.bits.upper < 8 * |buffer|
    requires f.addr + f.size <= |m| && |m'| == |m| && f.size <= |buffer| && 8 * f.addr + f.bits.upper < 8 * |m|
    requires BitsOf(m') == Splice(BitsOf(m), value, 8 * f.addr + f.bits.lower, 8 * f.addr + f.bits.upper)
    ensures BitsOf(Loaded(m', f, buffer))[f.bits.lower..f.bits.upper + 1] == Fit(value, f.bits.upper - f.bits.lower + 1)
            <==> PastSizeAgrees(f, value, BitsOf(buffer))
  {
    hide BitsOf, Splice, Loaded, Fit, PastSizeAgrees;
    var raw := BitsOf(Loaded(m', f, buffer));
    forall i: nat | f.bits.lower <= i <= f.bits.upper
      ensures raw[i] == if i < 8 * f.size then i - f.bits.lower < |value| && value[i - f.bits.lower]
                        else BitsOf(buffer)[i]
    {
      ReadFieldBit(m, f, value, m', buffer, i - f.bits.lower);
    }
    FieldAgreesIff(f, value, BitsOf(buffer), raw);
  }

  lemma FitAt(v: seq<bool>, w: nat, j: nat)
    requires j < w
    ensures Fit(v, w)[j] == (j < |v| && v[j])
  {
  }

  /** Writing a field and reading it back into any buffer: the low width / 8 + 1 bytes of the
      buffer, or all of it when it is shorter, encode the value modulo 2^width, whatever the rest
      of the memory and of the buffer held, if and only if the buffer agrees with the value where
      the field reaches past its register. */
  lemma WriteThenRead(
    m: seq<bv8>, f: Field, value: seq<bv8>, m': seq<bv8>, buffer: seq<bv8>, read: seq<bv8>)
    requires f.bits.Range? && f.bits.lower <= f.bits.upper < 8 * |buffer|
    requires f.addr + f.size <= |m| && |m'| == |m| && f.size <= |buffer| && 8 * f.addr + f.bits.upper < 8 * |m|
    requires BitsOf(m') == Splice(BitsOf(m), BitsOf(value), 8 * f.addr + f.bits.lower, 8 * f.addr + f.bits.upper)
    requires BitsOf(read) == Extract(BitsOf(Loaded(m', f, buffer)), f.bits.lower, f.bits.upper)
    ensures var w := f.bits.upper - f.bits.lower + 1;
            var len := SliceLength(|buffer|, w);
            && len <= |read|
            && (Value(read[..len]) == Value(value) % Pow2(w) <==> PastSizeAgrees(f, BitsOf(value), BitsOf(buffer)))
            && (f.bits.upper < 8 * f.size ==> PastSizeAgrees(f, BitsOf(value), BitsOf(buffer)))
  {
    hide BitsOf, NatOf, Pow2, Extract, Splice, Loaded, Value, SliceLength, Fit;
    var lower, upper := f.bits.lower, f.bits.upper;
    var raw, w := Loaded(m', f, buffer), f.bits.upper - f.bits.lower + 1;
    ExtractedSliceValue(raw, read, lower, upper);
    ValueIsNatOf(raw);
    FieldValue(BitsOf(raw), lower, upper);
    FitIsMod(BitsOf(value), w);
    ValueIsNatOf(value);
    ReadFieldIff(m, f, BitsOf(value), m', buffer);
    SameNumberIff(BitsOf(raw)[lower..upper + 1], Fit(BitsOf(value), w));
  }

  lemma SameNumberIff(s: seq<bool>, t: seq<bool>)
    requires |s| == |t|
    ensures NatOf(s) == NatOf(t) <==> s == t
  {
    if NatOf(s) == NatOf(t) {
      NatOfInjective(s, t);
    }
  }

  /** After the field's own bits and their padding, an in-place read leaves raw register bits:
      this says when they are all clear. */
  predicate ClearAbove(s: seq<bool>, lower: nat, upper: nat) {
    forall i: nat :: lower + 8 * ((upper - lower + 1) / 8 + 1) <= i < |s| ==> !s[i]
  }

  lemma ExtractTail(s: seq<bool>, lower: nat, upper: nat, i: nat)
    requires |s| % 8 == 0 && lower <= upper < |s|
    requires 8 * SliceLength(|s| / 8, upper - lower + 1) <= i < |s|
    ensures Extract(s, lower, upper)[i] == (lower + i < |s| && s[lower + i])
  {
    hide ShiftRight;
    var w := upper - lower + 1;
    ShiftRightIndex(s, lower, i);
    if w < |s| {
      assert 8 * (w / 8 + 1) <= |s|;
      assert MaskOff(ShiftRight(s, lower), w)[i] == ShiftRight(s, lower)[i];
    }
  }

  /** The number in the whole buffer is the field's value exactly when no raw bits remain. */
  lemma ExtractIsFieldIff(s: seq<bool>, lower: nat, upper: nat)
    requires |s| % 8 == 0 && lower <= upper < |s|
    ensures NatOf(Extract(s, lower, upper)) == NatOf(s[lower..upper + 1]) <==> ClearAbove(s, lower, upper)
  {
    hide Extract, NatOf, Pow2, Zeros;
    var w, e := upper - lower + 1, Extract(s, lower, upper);
    var low := 8 * SliceLength(|s| / 8, w);
    ExtractedSlice(s, lower, upper);
    NatOfSplit(e, low);
    NatOfConcat(s[lower..upper + 1], Zeros(low - w));
    NatOfZeros(low - w);
    assert Pow2(w) * 0 == 0;
    assert NatOf(e) == NatOf(s[lower..upper + 1]) + Pow2(low) * NatOf(e[low..]);
    ProductZero(Pow2(low), NatOf(e[low..]));
    TailClearIff(s, lower, upper);
    ZeroIffClear(e[low..]);
  }

  lemma ProductZero(p: nat, x: nat)
    requires p > 0
    ensures p * x == 0 <==> x == 0
  {
  }

  lemma ZeroIffClear(t: seq<bool>)
    ensures NatOf(t) == 0 <==> t == Zeros(|t|)
  {
    NatOfZeros(|t|);
    if NatOf(t) == 0 {
      NatOfInjective(t, Zeros(|t|));
    }
  }

  lemma TailClearIff(s: seq<bool>, lower: nat, upper: nat)
    requires |s| % 8 == 0 && lower <= upper < |s|
    ensures var low, e := 8 * SliceLength(|s| / 8, upper - lower + 1), Extract(s, lower, upper);
            low <= |s| && (e[low..] == Zeros(|s| - low) <==> ClearAbove(s, lower, upper))
  {
    hide Extract;
    var w, e := upper - lower + 1, Extract(s, lower, upper);
    var low := 8 * SliceLength(|s| / 8, w);
    forall i: nat | low <= i < |s|
      ensures e[i] == (lower + i < |s| && s[lower + i])
    {
      ExtractTail(s, lower, upper, i);
    }
    if ClearAbove(s, lower, upper) {
      forall i: nat | i < |s| - low
        ensures e[low..][i] == Zeros(|s| - low)[i]
      {
        assert e[low + i] == (lower + low + i < |s| && s[lower + low + i]);
      }
    } else {
      var i: nat :| lower + 8 * (w / 8 + 1) <= i < |s| && s[i];
      assert e[i - lower] && e[low..][i - lower - low];
    }
  }

  /** The whole buffer of an in-place read stands for a given field value exactly when the field has
      that value and no raw bits remain. */
  lemma ExtractEqualsIff(s: seq<bool>, lower: nat, upper: nat, t: seq<bool>)
    requires |s| % 8 == 0 && lower <= upper < |s| && |t| == upper - lower + 1
    ensures NatOf(Extract(s, lower, upper)) == NatOf(t) <==> s[lower..upper + 1] == t && ClearAbove(s, lower, upper)
  {
    hide Extract, NatOf, Pow2, Zeros, ClearAbove;
    var w, e := upper - lower + 1, Extract(s, lower, upper);
    var low := 8 * SliceLength(|s| / 8, w);
    ExtractIsFieldIff(s, lower, upper);
    SameNumberIff(s[lower..upper + 1], t);
    if !ClearAbove(s, lower, upper) {
      TailClearIff(s, lower, upper);
      ZeroIffClear(e[low..]);
      NatOfSplit(e, low);
      NatOfBound(t);
      Pow2Monotone(w, low);
      AtLeast(Pow2(low), NatOf(e[low..]));
    }
  }

  lemma AtLeast(p: nat, x: nat)
    requires x > 0
    ensures p * x >= p
  {
  }

  /** Writing a u32 to a field and reading it back gives the value modulo 2^width if and only if
      the register bits from `lower + 8 * (width / 8 + 1)` up were clear beforehand, and the value
      has no bits where the field reaches past its register. */
  lemma U32RoundTrip(m: seq<bv8>, f: Field, v: nat, m': seq<bv8>)
    requires f.size <= 4 && f.bits.Range? && f.bits.lower <= f.bits.upper < 32
    requires f.addr + 4 <= |m| && |m'| == |m|
    requires BitsOf(m')
             == Splice(BitsOf(m), BitsOf(LeBytes(v, 4)), 8 * f.addr + f.bits.lower, 8 * f.addr + f.bits.upper)
    ensures FieldU32(m', f) == v % Pow2(32) % Pow2(f.bits.upper - f.bits.lower + 1)
            <==> ClearAbove(BitsOf(m)[8 * f.addr..8 * f.addr + 8 * f.size], f.bits.lower, f.bits.upper)
                 && PastSizeAgrees(f, BitsOf(LeBytes(v, 4)), Zeros(32))
  {
    hide BitsOf, NatOf, Pow2, Extract, LeBytes, Splice, Loaded, Fit, PastSizeAgrees, Zeros, ClearAbove;
    var lower, upper := f.bits.lower, f.bits.upper;
    var raw, value, w := BitsOf(Loaded(m', f, ZeroBytes(4))), BitsOf(LeBytes(v, 4)), f.bits.upper - f.bits.lower + 1;
    ExtractEqualsIff(raw, lower, upper, Fit(value, w));
    ReadFieldIff(m, f, value, m', ZeroBytes(4));
    ZeroBytesBits(ZeroBytes(4));
    FitIsMod(value, w);
    ValueIsNatOf(LeBytes(v, 4));
    LeBytesValue(v, 4);
    ClearAboveUntouched(m, f, v, m');
  }

  lemma ClearAboveUntouched(m: seq<bv8>, f: Field, v: nat, m': seq<bv8>)
    requires f.size <= 4 && f.bits.Range? && f.bits.lower <= f.bits.upper < 32
    requires f.addr + 4 <= |m| && |m'| == |m|
    requires BitsOf(m')
             == Splice(BitsOf(m), BitsOf(LeBytes(v, 4)), 8 * f.addr + f.bits.lower, 8 * f.addr + f.bits.upper)
    ensures ClearAbove(BitsOf(Loaded(m', f, ZeroBytes(4))), f.bits.lower, f.bits.upper)
            <==> ClearAbove(BitsOf(m)[8 * f.addr..8 * f.addr + 8 * f.size], f.bits.lower, f.bits.upper)
  {
    hide BitsOf, LeBytes, Splice, Loaded;
    var lower, upper := f.bits.lower, f.bits.upper;
    var top := lower + 8 * ((upper - lower + 1) / 8 + 1);
    var raw, reg := BitsOf(Loaded(m', f, ZeroBytes(4))), BitsOf(m)[8 * f.addr..8 * f.addr + 8 * f.size];
    forall i: nat | top <= i < 32
      ensures raw[i] == (i < |reg| && reg[i])
    {
      LoadedTail(m', f, 4, i);
      if i < 8 * f.size {
        SpliceAt(BitsOf(m), BitsOf(LeBytes(v, 4)), 8 * f.addr + lower, 8 * f.addr + upper, 8 * f.addr + i);
      }
    }
    if !ClearAbove(reg, lower, upper) {
      var i: nat :| top <= i < |reg| && reg[i];
      assert raw[i];
    }
  }

  lemma FirstBytesValue(b: seq<bv8>, n: nat)
    requires n <= |b|
    ensures Value(b[..n]) == Value(b) % Pow2(8 * n)
  {
    hide BitsOf, NatOf, Value, Pow2;
    ValueIsNatOf(b);
    ValueIsNatOf(b[..n]);
    BitsOfSlice(b, 0, n);
    assert b[0..n] == b[..n] && BitsOf(b)[0..8 * n] == BitsOf(b)[..8 * n];
    NatOfSplit(BitsOf(b), 8 * n);
  }

  lemma PaddedValue(b: seq<bv8>, n: nat)
    ensures Value(b + ZeroBytes(n)) == Value(b)
  {
    hide BitsOf, NatOf, Value, Pow2, Zeros;
    ValueIsNatOf(b);
    ValueIsNatOf(b + ZeroBytes(n));
    BitsOfConcat(b, ZeroBytes(n));
    ZeroBytesBits(ZeroBytes(n));
    NatOfConcat(BitsOf(b), Zeros(8 * n));
    NatOfZeros(8 * n);
    assert Pow2(8 * |b|) * 0 == 0;
  }

  /** A whole register of at most four bytes reads as the number its bytes stand for. */
  lemma WholeRead(m: seq<bv8>, f: Field)
    requires f.size <= 4 && f.bits.Whole? && f.addr + f.size <= |m|
    ensures FieldU32(m, f) == Value(m[f.addr..f.addr + f.size])
  {
    hide BitsOf, NatOf, Value;
    var register := m[f.addr..f.addr + f.size];
    ValueIsNatOf(Loaded(m, f, ZeroBytes(4)));
    assert ZeroBytes(4)[f.size..] == ZeroBytes(4 - f.size);
    PaddedValue(register, 4 - f.size);
  }

  /** And a u32 written to it is read back cut to the register's size. */
  lemma WholeRoundTrip(m: seq<bv8>, f: Field, v: nat, m': seq<bv8>)
    requires f.size <= 4 && f.bits.Whole? && f.addr + f.size <= |m|
    requires m' == Patch(m, f.addr, LeBytes(v, 4)[..f.size])
    ensures FieldU32(m', f) == v % Pow2(32) % Pow2(8 * f.size)
  {
    hide BitsOf, NatOf, Value, Pow2, LeBytes, FieldU32;
    WholeRead(m', f);
    assert m'[f.addr..f.addr + f.size] == LeBytes(v, 4)[..f.size];
    FirstBytesValue(LeBytes(v, 4), f.size);
    LeBytesValue(v, 4);
  }
}
