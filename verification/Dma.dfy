/** A DMA buffer seen from an aligned physical address on. */
module Dma {
  import opened Bits
  import opened Alignment

  /** A window on a buffer that host and device share: the host indexes it from `offset` on, the
      device sees byte `p - base` of the buffer at physical address `p`. */
  class AlignedDmaBuffer {
    const buffer: array<bv8>
    const base: nat
    const offset: nat
    const align: nat
    const size: nat

    /** The window that `AllocDmaAligned` sets up: it starts inside the buffer and runs to the
        buffer's end, at most one alignment after its beginning. */
    ghost predicate Valid() {
      && 0 < align && offset < align && align <= buffer.Length
      && size == buffer.Length - offset
    }

    /** Places the window in a fresh buffer of `requested + align` bytes at physical address `base`.
        For every positive alignment the first `requested` indices lie in the window; for a power
        of two its physical address is the first aligned one in the buffer. */
    constructor AllocDmaAligned(buffer: array<bv8>, base: nat, requested: nat, align: nat)
      requires align > 0 && buffer.Length == requested + align < 0x1_0000_0000
      requires base + (align - 1) < Pow2(WORD)
      ensures this.buffer == buffer && this.base == base && this.align == align
      ensures Valid() && requested < size
      ensures PhysicalAddress() + requested <= base + buffer.Length
      ensures IsPow2(align) ==> LeastAligned(PhysicalAddress(), base, align)
    {
      hide Pow2, AlignUp, LeastAligned;
      AlignUpIsClose(base, align);
      var aligned := AlignUp(base, align);
      this.buffer := buffer;
      this.base := base;
      this.align := align;
      this.offset := aligned - base;
      this.size := requested + align - (aligned - base);
      new;
      if IsPow2(align) {
        AlignUpIsLeast(base, align);
      }
    }

    function PhysicalAddress(): nat {
      base + offset
    }

    /** The byte a device reads at physical address `p`. */
    function DeviceByte(p: nat): bv8
      requires base <= p < base + buffer.Length
      reads buffer
    {
      buffer[p - base]
    }

    /** Index `i` of the window is the byte at the window's physical address plus `i`. */
    method Index(i: nat) returns (b: bv8)
      requires Valid() && i < size
      ensures b == DeviceByte(PhysicalAddress() + i)
    {
      b := buffer[offset + i];
    }

    method IndexRange(lo: nat, hi: nat) returns (s: seq<bv8>)
      requires Valid() && lo <= hi <= size
      ensures |s| == hi - lo
      ensures forall k :: 0 <= k < |s| ==> s[k] == DeviceByte(PhysicalAddress() + lo + k)
    {
      s := buffer[offset..][lo..hi];
    }

    method SetIndex(i: nat, value: bv8)
      requires Valid() && i < size
      modifies buffer
      ensures DeviceByte(PhysicalAddress() + i) == value
      ensures forall p :: base <= p < base + buffer.Length && p != PhysicalAddress() + i ==>
        DeviceByte(p) == old(DeviceByte(p))
    {
      buffer[offset + i] := value;
    }

    /** Fills the whole buffer, the bytes before the window included. */
    method Fill(value: bv8)
      requires Valid()
      modifies buffer
      ensures forall p :: base <= p < base + buffer.Length ==> DeviceByte(p) == value
    {
      for i := 0 to buffer.Length
        invariant forall k :: 0 <= k < i ==> buffer[k] == value
      {
        buffer[i] := value;
      }
    }
  }
}
