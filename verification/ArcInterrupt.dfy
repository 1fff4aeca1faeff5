/** Raising the firmware interrupt by editing one bit of a shared register. */
module ArcInterrupt {
  import opened Bits
  import opened Fields
  import opened FieldLaws
  import opened FieldIo
  import MailboxModel
  import opened MailboxWords

  /** The memory bit that raises the interrupt: the lowest bit of the field. */
  function InterruptBit(f: Field): nat {
    8 * f.addr + if f.bits.Range? then f.bits.lower else 0
  }

  predicate ValidInterrupt(m: seq<bv8>, f: Field) {
    0 < f.size && f.addr + f.size <= |m|
    && (f.bits.Range? ==> f.bits.lower <= f.bits.upper < 8 * f.size)
  }

  lemma LowBitOf(b: bv8)
    ensures (And(b, 1) != 0) == ByteBit(b, 0)
    ensures ByteBit(Or(b, 1), 0)
    ensures forall k: nat :: 0 < k < 8 ==> ByteBit(Or(b, 1), k) == ByteBit(b, k)
  {
    forall k: nat | 0 < k < 8
      ensures ByteBit(Or(b, 1), k) == ByteBit(b, k)
    {
      OneBit(k);
    }
    OneBit(0);
  }

  lemma OneBit(k: nat)
    requires k < 8
    ensures ByteBit(1, k) == (k == 0)
  {
  }

  /** Or-ing 1 into the first byte sets bit 0 of the buffer. */
  lemma SetLowBit(a: seq<bv8>, b: seq<bv8>)
    requires 0 < |a| && b == a[0 := Or(a[0], 1)]
    ensures BitsOf(b) == BitsOf(a)[0 := true]
  {
    hide ByteBit, BitsOf, Or, And;
    LowBitOf(a[0]);
    forall j: nat, k: nat | j < |a| && k < 8
      ensures At(BitsOf(b), j, k) == At(BitsOf(a)[0 := true], j, k)
    {
      BitAt(a, j, k);
      BitAt(b, j, k);
      if j == 0 {
        assert b[0] == Or(a[0], 1);
      } else {
        assert b[j] == a[j];
      }
    }
    SameByteWise(BitsOf(b), BitsOf(a)[0 := true], |a|);
  }

  /** Bit `k` of a field read in place is bit `lower + k` of the register. */
  lemma ExtractedBit(reg: seq<bool>, lower: nat, upper: nat, k: nat)
    requires |reg| % 8 == 0 && lower <= upper < |reg| && lower + k <= upper
    ensures Extract(reg, lower, upper)[k] == reg[lower + k]
  {
    hide Extract;
    var w := upper - lower + 1;
    ExtractStartsWithField(reg, lower, upper);
    assert Extract(reg, lower, upper)[..w][k] == reg[lower..upper + 1][k];
  }

  /** Writing back a read field with its lowest bit set changes that bit only. */
  lemma WriteBackWithLowBit(s: seq<bool>, addr: nat, size: nat, lower: nat, upper: nat, e: seq<bool>)
    requires 8 * (addr + size) <= |s| && lower <= upper < 8 * size
    requires e == Extract(s[8 * addr..8 * (addr + size)], lower, upper)[0 := true]
    ensures Splice(s, e, 8 * addr + lower, 8 * addr + upper) == s[8 * addr + lower := true]
  {
    hide Extract, Splice;
    var reg, base := s[8 * addr..8 * (addr + size)], 8 * addr;
    var spliced, raised := Splice(s, e, base + lower, base + upper), s[base + lower := true];
    forall i: nat | i < |s|
      ensures spliced[i] == raised[i]
    {
      SpliceAt(s, e, base + lower, base + upper, i);
      if base + lower < i <= base + upper {
        ExtractedBit(reg, lower, upper, i - base - lower);
        assert reg[i - base] == s[i];
      }
    }
  }

  /** What a read of the interrupt field leaves in a buffer of the field's size. */
  predicate ReadBack(m: seq<bv8>, f: Field, raw: seq<bv8>)
    requires ValidInterrupt(m, f)
  {
    var reg := m[f.addr..f.addr + f.size];
    |raw| == f.size
    && if f.bits.Range? then BitsOf(raw) == Extract(BitsOf(reg), f.bits.lower, f.bits.upper) else raw == reg
  }

  lemma PendingBit(m: seq<bv8>, f: Field, raw: seq<bv8>)
    requires ValidInterrupt(m, f) && ReadBack(m, f, raw)
    ensures (And(raw[0], 1) != 0) == BitsOf(m)[InterruptBit(f)]
  {
    hide BitsOf, Extract, And, ByteBit;
    var reg := m[f.addr..f.addr + f.size];
    BitsOfSlice(m, f.addr, f.addr + f.size);
    BitAt(raw, 0, 0);
    LowBitOf(raw[0]);
    if f.bits.Range? {
      ExtractedBit(BitsOf(reg), f.bits.lower, f.bits.upper, 0);
    }
  }

  lemma RaisedRange(m: seq<bv8>, f: Field, raw: seq<bv8>, v: seq<bv8>, m': seq<bv8>)
    requires ValidInterrupt(m, f) && f.bits.Range? && ReadBack(m, f, raw)
    requires BitsOf(v) == BitsOf(raw)[0 := true]
    requires BitsOf(m') == Splice(BitsOf(m), BitsOf(v), 8 * f.addr + f.bits.lower, 8 * f.addr + f.bits.upper)
    ensures BitsOf(m') == BitsOf(m)[InterruptBit(f) := true]
  {
    hide BitsOf, Extract, Splice;
    BitsOfSlice(m, f.addr, f.addr + f.size);
    WriteBackWithLowBit(BitsOf(m), f.addr, f.size, f.bits.lower, f.bits.upper, BitsOf(v));
  }

  lemma SetInside(s: seq<bool>, lo: nat, hi: nat)
    requires lo < hi <= |s|
    ensures s[..lo] + s[lo..hi][0 := true] + s[hi..] == s[lo := true]
  {
  }

  lemma RaisedWhole(m: seq<bv8>, f: Field, v: seq<bv8>, m': seq<bv8>)
    requires ValidInterrupt(m, f) && f.bits.Whole?
    requires BitsOf(v) == BitsOf(m[f.addr..f.addr + f.size])[0 := true] && |v| == f.size
    requires m' == Patch(m, f.addr, v)
    ensures BitsOf(m') == BitsOf(m)[InterruptBit(f) := true]
  {
    hide BitsOf, Patch;
    BitsOfSlice(m, f.addr, f.addr + f.size);
    PatchBits(m, f.addr, v);
    assert InterruptBit(f) == 8 * f.addr;
    SetInside(BitsOf(m), 8 * f.addr, 8 * (f.addr + f.size));
  }

  lemma RaisedMemory(m: seq<bv8>, f: Field, raw: seq<bv8>, v: seq<bv8>, m': seq<bv8>)
    requires ValidInterrupt(m, f) && ReadBack(m, f, raw)
    requires v == raw[0 := Or(raw[0], 1)]
    requires if f.bits.Range?
             then BitsOf(m') == Splice(BitsOf(m), BitsOf(v), 8 * f.addr + f.bits.lower, 8 * f.addr + f.bits.upper)
             else m' == Patch(m, f.addr, v)
    ensures BitsOf(m') == BitsOf(m)[InterruptBit(f) := true]
  {
    hide BitsOf, Extract, Splice, Patch, Or, InterruptBit;
    SetLowBit(raw, v);
    if f.bits.Range? {
      RaisedRange(m, f, raw, v, m');
    } else {
      RaisedWhole(m, f, v, m');
    }
  }

  /** Returns true when a new interrupt was raised, false when one was already pending. */
  method TriggerInt(dev: ByteDevice, fwInt: Field) returns (raised: bool)
    requires ValidInterrupt(dev.mem, fwInt)
    modifies dev
    ensures raised == !BitsOf(old(dev.mem))[InterruptBit(fwInt)]
    ensures BitsOf(dev.mem) == BitsOf(old(dev.mem))[InterruptBit(fwInt) := true]
  {
    hide BitsOf, Extract, Splice, Patch, And, Or, ByteBit;
    ghost var m := dev.mem;
    var mvalue := new bv8[fwInt.size](_ => 0);
    var _ := ReadField(dev, fwInt, mvalue);
    ghost var raw := mvalue[..];
    assert Loaded(m, fwInt, ZeroBytes(fwInt.size)) == m[fwInt.addr..fwInt.addr + fwInt.size];
    assert ReadBack(m, fwInt, raw);
    PendingBit(m, fwInt, raw);
    if And(mvalue[0], 1) != 0 {
      return false;
    }
    mvalue[0] := Or(mvalue[0], 1);
    WriteFieldVec(dev, fwInt, mvalue[..]);
    RaisedMemory(m, fwInt, raw, mvalue[..], dev.mem);
    return true;
  }

  /** The older chips' direct edit of their control register is the same operation: it tests and
      sets bit 16 and changes nothing else. */
  lemma DirectRaiseAgrees(misc: MailboxModel.Word)
    ensures MailboxModel.Pending(misc) == BitsOf(RegisterBytes(misc))[16]
    ensures BitsOf(RegisterBytes(MailboxModel.Raise(misc))) == BitsOf(RegisterBytes(misc))[16 := true]
  {
    hide BitsOf, ByteBit, And, Or;
    var a, b := RegisterBytes(misc), RegisterBytes(MailboxModel.Raise(misc));
    LowBitOf(misc.hi.lo);
    BitAt(a, 2, 0);
    assert a[..2] + a[2..] == a && a[..2] + b[2..] == b;
    BitsOfConcat(a[..2], a[2..]);
    BitsOfConcat(a[..2], b[2..]);
    SetLowBit(a[2..], b[2..]);
  }

  /** In numbers: raising a clear interrupt bit adds its weight and nothing else. */
  lemma RaisingAddsWeight(s: seq<bool>, p: nat)
    requires p < |s| && !s[p]
    ensures NatOf(s[p := true]) == NatOf(s) + Pow2(p)
  {
    hide NatOf, Pow2;
    var t := s[p := true];
    NatOfSplit(s, p);
    NatOfSplit(t, p);
    assert t[..p] == s[..p];
    HeadBit(s[p..]);
    HeadBit(t[p..]);
    assert t[p..][1..] == s[p..][1..];
    Distribute(Pow2(p), NatOf(s[p..]), 1);
  }

  lemma HeadBit(s: seq<bool>)
    requires s != []
    ensures NatOf(s) == Unit(s[0]) + 2 * NatOf(s[1..])
  {
  }
}
