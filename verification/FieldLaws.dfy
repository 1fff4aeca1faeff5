/** The laws of bit-field reads and writes: exact arithmetic, and the lens laws. */
module FieldLaws {
  import opened Bits
  import opened Fields

  // ------------------------------------------------------- arithmetic

  lemma FitIsMod(v: seq<bool>, w: nat)
    ensures NatOf(Fit(v, w)) == NatOf(v) % Pow2(w)
  {
    if |v| >= w {
      NatOfSplit(v, w);
    } else {
      NatOfConcat(v, Zeros(w - |v|));
      NatOfZeros(w - |v|);
      NatOfBound(v);
      Pow2Monotone(|v|, w);
      DivModUnique(NatOf(v), Pow2(w), 0, NatOf(v));
    }
  }

  /** A write keeps the number below the field and the number above it, and puts the value,
      reduced to the field's width, in between. */
  lemma WriteIsExact(a: seq<bv8>, value: seq<bv8>, b: seq<bv8>, lower: nat, upper: nat)
    requires lower <= upper < 8 * |a|
    requires BitsOf(b) == Splice(BitsOf(a), BitsOf(value), lower, upper)
    ensures Value(b) == Value(a) % Pow2(lower)
                        + Pow2(lower) * (Value(value) % Pow2(upper - lower + 1))
                        + Pow2(upper + 1) * (Value(a) / Pow2(upper + 1))
  {
    hide BitsOf, NatOf, Value, Pow2, Fit;
    var s, v, w := BitsOf(a), BitsOf(value), upper - lower + 1;
    ValueIsNatOf(a);
    ValueIsNatOf(b);
    ValueIsNatOf(value);
    NatOfSplit(s, lower);
    NatOfSplit(s, upper + 1);
    FitIsMod(v, w);
    NatOfConcat(s[..lower] + Fit(v, w), s[upper + 1..]);
    NatOfConcat(s[..lower], Fit(v, w));
  }

  /** Reading a field after writing it gives the value modulo 2^width. */
  lemma ReadAfterWrite(a: seq<bv8>, value: seq<bv8>, b: seq<bv8>, lower: nat, upper: nat)
    requires lower <= upper < 8 * |a|
    requires BitsOf(b) == Splice(BitsOf(a), BitsOf(value), lower, upper)
    ensures Value(b) / Pow2(lower) % Pow2(upper - lower + 1) == Value(value) % Pow2(upper - lower + 1)
  {
    hide BitsOf, NatOf, Value, Pow2, Fit;
    ValueIsNatOf(b);
    ValueIsNatOf(value);
    FieldValue(BitsOf(b), lower, upper);
    GetAfterSplice(BitsOf(a), BitsOf(value), lower, upper);
    FitIsMod(BitsOf(value), upper - lower + 1);
  }

  // ------------------------------------------------------- lens laws, on bit strings

  lemma GetAfterSplice(s: seq<bool>, v: seq<bool>, lower: nat, upper: nat)
    requires lower <= upper < |s|
    ensures Splice(s, v, lower, upper)[lower..upper + 1] == Fit(v, upper - lower + 1)
  {
  }

  /** Reading a field that does not overlap the written one is unaffected by the write. */
  lemma DisjointWriteKeepsField(s: seq<bool>, v: seq<bool>, lower: nat, upper: nat, lo: nat, hi: nat)
    requires lower <= upper < |s| && lo <= hi < |s|
    requires hi < lower || upper < lo
    ensures Splice(s, v, lower, upper)[lo..hi + 1] == s[lo..hi + 1]
  {
  }

  /** Only the field's own bits decide what is written. */
  lemma SpliceUsesLowBits(s: seq<bool>, v: seq<bool>, v': seq<bool>, lower: nat, upper: nat)
    requires lower <= upper < |s|
    requires Fit(v, upper - lower + 1) == Fit(v', upper - lower + 1)
    ensures Splice(s, v, lower, upper) == Splice(s, v', lower, upper)
  {
  }

  lemma SplicePrefix(s: seq<bool>, v: seq<bool>, lower: nat, upper: nat)
    requires lower <= upper < |s|
    requires |v| >= upper - lower + 1 && v[..upper - lower + 1] == s[lower..upper + 1]
    ensures Splice(s, v, lower, upper) == s
  {
    assert s == s[..lower] + s[lower..upper + 1] + s[upper + 1..];
  }

  lemma ExtractStartsWithField(s: seq<bool>, lower: nat, upper: nat)
    requires |s| % 8 == 0 && lower <= upper < |s|
    ensures Extract(s, lower, upper)[..upper - lower + 1] == s[lower..upper + 1]
  {
    var w, len := upper - lower + 1, SliceLength(|s| / 8, upper - lower + 1);
    ExtractedSlice(s, lower, upper);
    assert Extract(s, lower, upper)[..w] == Extract(s, lower, upper)[..8 * len][..w];
  }

  /** Writing back what a field read left behind changes nothing: neither with the slice
      that the read returned, nor with the whole buffer it was read into. */
  lemma WriteBackIsIdentity(a: seq<bv8>, r: seq<bv8>, lower: nat, upper: nat)
    requires lower <= upper < 8 * |a|
    requires BitsOf(r) == Extract(BitsOf(a), lower, upper)
    ensures Splice(BitsOf(a), BitsOf(r), lower, upper) == BitsOf(a)
    ensures var len := SliceLength(|a|, upper - lower + 1);
            len <= |r| && Splice(BitsOf(a), BitsOf(r[..len]), lower, upper) == BitsOf(a)
  {
    hide BitsOf, Extract, Splice;
    var s, len := BitsOf(a), SliceLength(|a|, upper - lower + 1);
    ExtractStartsWithField(s, lower, upper);
    SplicePrefix(s, BitsOf(r), lower, upper);
    ExtractedSliceBits(a, r, lower, upper);
    SplicePrefix(s, BitsOf(r[..len]), lower, upper);
  }

  /** A second write to the same field hides the first. */
  lemma SecondWriteHidesFirst(s: seq<bool>, v: seq<bool>, v': seq<bool>, lower: nat, upper: nat)
    requires lower <= upper < |s|
    ensures Splice(Splice(s, v, lower, upper), v', lower, upper) == Splice(s, v', lower, upper)
  {
    var once := Splice(s, v, lower, upper);
    assert once[..lower] == s[..lower];
    assert once[upper + 1..] == s[upper + 1..];
  }

  /** Writes to disjoint fields commute. */
  lemma DisjointWritesCommute(s: seq<bool>, v: seq<bool>, lower: nat, upper: nat, v': seq<bool>, lo: nat, hi: nat)
    requires lower <= upper < |s| && lo <= hi < |s|
    requires hi < lower || upper < lo
    ensures Splice(Splice(s, v, lower, upper), v', lo, hi) == Splice(Splice(s, v', lo, hi), v, lower, upper)
  {
    forall i: nat | i < |s|
      ensures Splice(Splice(s, v, lower, upper), v', lo, hi)[i] == Splice(Splice(s, v', lo, hi), v, lower, upper)[i]
    {
      SpliceAt(s, v, lower, upper, i);
      SpliceAt(s, v', lo, hi, i);
      SpliceAt(Splice(s, v, lower, upper), v', lo, hi, i);
      SpliceAt(Splice(s, v', lo, hi), v, lower, upper, i);
    }
  }
}
