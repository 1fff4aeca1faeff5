/** Rounding an address up to an alignment with a mask, as tiles and DMA buffers do. */
module Alignment {
  import opened Bits
  import opened NocGrid

  // ------------------------------------------------------- 64-bit words

  const WORD: nat := 64

  function AndBits(a: seq<bool>, b: seq<bool>): (r: seq<bool>)
    requires |a| == |b|
    ensures |r| == |a|
    ensures forall i :: 0 <= i < |r| ==> r[i] == (a[i] && b[i])
  {
    seq(|a|, i requires 0 <= i < |a| => a[i] && b[i])
  }

  function NotBits(a: seq<bool>): (r: seq<bool>)
    ensures |r| == |a|
    ensures forall i :: 0 <= i < |r| ==> r[i] == !a[i]
  {
    seq(|a|, i requires 0 <= i < |a| => !a[i])
  }

  /** `(addr + (align - 1)) & !(align - 1)` on u64, where the sum does not overflow. */
  function AlignUp(addr: nat, align: nat): nat
    requires align > 0 && addr + (align - 1) < Pow2(WORD)
  {
    NatOf(AndBits(ToBits(addr + (align - 1), WORD), NotBits(ToBits(align - 1, WORD))))
  }

  // ------------------------------------------------------- powers of two

  ghost predicate IsPow2(a: nat) {
    exists k: nat :: Pow2(k) == a
  }

  function Ones(n: nat): (s: seq<bool>)
    ensures |s| == n
    ensures forall i: nat :: i < n ==> s[i]
  {
    seq(n, _ => true)
  }

  lemma {:induction false} ZeroBits(n: nat)
    ensures ToBits(0, n) == Zeros(n)
  {
    if n > 0 {
      ZeroBits(n - 1);
    }
  }

  /** Below a power of two the mask is all ones, and zeros follow. */
  lemma {:induction false} MaskBits(k: nat, n: nat)
    requires k <= n
    ensures ToBits(Pow2(k) - 1, n) == Ones(k) + Zeros(n - k)
  {
    if k == 0 {
      ZeroBits(n);
    } else {
      MaskBits(k - 1, n - 1);
      assert (Pow2(k) - 1) / 2 == Pow2(k - 1) - 1;
    }
  }

  /** For a power of two, masking drops the low bits: it rounds down to a multiple. */
  lemma MaskingRoundsDown(x: nat, k: nat)
    requires k <= WORD && x < Pow2(WORD)
    ensures NatOf(AndBits(ToBits(x, WORD), NotBits(ToBits(Pow2(k) - 1, WORD)))) == Pow2(k) * (x / Pow2(k))
  {
    hide Pow2, ToBits;
    var s := ToBits(x, WORD);
    MaskBits(k, WORD);
    assert AndBits(s, NotBits(Ones(k) + Zeros(WORD - k))) == Zeros(k) + s[k..];
    NatOfConcat(Zeros(k), s[k..]);
    NatOfZeros(k);
    NatOfSplit(s, k);
    NatOfToBits(x, WORD);
    Below(x, Pow2(WORD));
  }

  lemma Below(x: nat, m: nat)
    requires x < m
    ensures x % m == x
  {
  }

  // ------------------------------------------------------- the least aligned address

  /** `r` is the first multiple of `align` at or above `addr`. */
  ghost predicate LeastAligned(r: nat, addr: nat, align: nat)
    requires align > 0
  {
    && addr <= r && r % align == 0
    && forall s: nat :: addr <= s && s % align == 0 ==> r <= s
  }

  lemma RoundUpIsLeast(addr: nat, align: nat)
    requires align > 0
    ensures LeastAligned(align * ((addr + (align - 1)) / align), addr, align)
  {
    var q := (addr + (align - 1)) / align;
    var t := (addr + (align - 1)) % align;
    assert addr + (align - 1) == t + align * q;
    DivModUnique(align * q, align, q, 0);
    forall s: nat | addr <= s && s % align == 0
      ensures align * q <= s
    {
      var e := s / align;
      assert s == align * e;
      if e < q {
        SmallerMultiple(align, e, q);
      } else if q < e {
        SmallerMultiple(align, q, e);
      }
    }
  }

  lemma ExponentInWord(k: nat, align: nat)
    requires Pow2(k) == align && align <= Pow2(WORD)
    ensures k <= WORD
  {
    if WORD < k {
      Pow2Monotone(WORD, k - 1);
    }
  }

  /** With a power of two, the masked sum is the first aligned address at or above the input. */
  lemma AlignUpIsLeast(addr: nat, align: nat)
    requires IsPow2(align) && align > 0 && addr + (align - 1) < Pow2(WORD)
    ensures LeastAligned(AlignUp(addr, align), addr, align)
  {
    hide Pow2, NatOf, AndBits, NotBits, ToBits, LeastAligned;
    var k: nat :| Pow2(k) == align;
    ExponentInWord(k, align);
    MaskingRoundsDown(addr + (align - 1), k);
    RoundUpIsLeast(addr, align);
  }

  // ------------------------------------------------------- only powers of two

  predicate NoCommonBit(s: seq<bool>, t: seq<bool>)
    requires |s| == |t|
  {
    forall i :: 0 <= i < |s| ==> !(s[i] && t[i])
  }

  lemma TailsApart(v: nat, w: nat, n: nat)
    requires n > 0 && NoCommonBit(ToBits(v, n), ToBits(w, n))
    ensures NoCommonBit(ToBits(v / 2, n - 1), ToBits(w / 2, n - 1))
  {
    var s, t := ToBits(v, n), ToBits(w, n);
    assert s[1..] == ToBits(v / 2, n - 1) && t[1..] == ToBits(w / 2, n - 1);
    assert forall i :: 0 <= i < n - 1 ==> s[1..][i] == s[i + 1] && t[1..][i] == t[i + 1];
  }

  lemma {:induction false} BitsOfNothing(v: nat, n: nat)
    requires v < Pow2(n) && NoCommonBit(ToBits(v, n), ToBits(v, n))
    ensures v == 0
  {
    if n > 0 {
      TailsApart(v, v, n);
      BitsOfNothing(v / 2, n - 1);
      assert !ToBits(v, n)[0];
    }
  }

  /** A number that shares no bit with its predecessor is a power of two. */
  lemma {:induction false} PredecessorApart(a: nat, n: nat)
    requires 0 < a < Pow2(n) && NoCommonBit(ToBits(a, n), ToBits(a - 1, n))
    ensures IsPow2(a)
  {
    hide NoCommonBit;
    TailsApart(a, a - 1, n);
    if a % 2 == 1 {
      assert (a - 1) / 2 == a / 2;
      BitsOfNothing(a / 2, n - 1);
      assert Pow2(0) == a;
    } else {
      assert (a - 1) / 2 == a / 2 - 1;
      PredecessorApart(a / 2, n - 1);
      var k: nat :| Pow2(k) == a / 2;
      assert Pow2(k + 1) == a;
    }
  }

  /** Which alignments the masked sum serves: it finds the first aligned address for every input
      that does not overflow exactly when the alignment is a power of two. Otherwise it already
      goes wrong at address 1. */
  lemma ServesPowersOfTwo(align: nat)
    requires 0 < align < Pow2(WORD)
    ensures (forall addr: nat :: addr + (align - 1) < Pow2(WORD) ==> LeastAligned(AlignUp(addr, align), addr, align))
            <==> IsPow2(align)
  {
    hide Pow2, NatOf, AndBits, NotBits, ToBits, LeastAligned, AlignUp, IsPow2;
    if IsPow2(align) {
      forall addr: nat | addr + (align - 1) < Pow2(WORD)
        ensures LeastAligned(AlignUp(addr, align), addr, align)
      {
        AlignUpIsLeast(addr, align);
      }
    } else {
      assert 1 + (align - 1) < Pow2(WORD);
      if LeastAligned(AlignUp(1, align), 1, align) {
        LeastAboveOne(AlignUp(1, align), align);
        KeptWhole(align);
      }
    }
  }

  lemma LeastAboveOne(r: nat, align: nat)
    requires align > 0 && LeastAligned(r, 1, align)
    ensures r == align
  {
    assert align % align == 0;
    if r < align {
      Below(r, align);
    }
  }

  /** If the mask keeps all of an alignment, the alignment is a power of two. */
  lemma KeptWhole(align: nat)
    requires 0 < align < Pow2(WORD) && AlignUp(1, align) == align
    ensures IsPow2(align)
  {
    hide Pow2, NatOf, ToBits, IsPow2;
    var s, t := ToBits(align, WORD), ToBits(align - 1, WORD);
    NatOfToBits(align, WORD);
    Below(align, Pow2(WORD));
    assert 1 + (align - 1) == align;
    NatOfInjective(AndBits(s, NotBits(t)), s);
    forall i | 0 <= i < |s|
      ensures !(s[i] && t[i])
    {
      assert AndBits(s, NotBits(t))[i] == (s[i] && !t[i]);
    }
    PredecessorApart(align, WORD);
  }

  // ------------------------------------------------------- every alignment

  lemma {:induction false} MaskSplits(s: seq<bool>, t: seq<bool>)
    requires |s| == |t|
    ensures NatOf(AndBits(s, NotBits(t))) + NatOf(AndBits(s, t)) == NatOf(s)
    ensures NatOf(AndBits(s, t)) <= NatOf(t)
  {
    if s != [] {
      var u, v := s[1..], t[1..];
      MaskSplits(u, v);
      assert AndBits(s, t)[1..] == AndBits(u, v);
      assert AndBits(s, NotBits(t))[1..] == AndBits(u, NotBits(v));
    }
  }

  /** Whatever the alignment, a power of two or not, the masked sum is at or above the input and
      less than the alignment away from it. */
  lemma AlignUpIsClose(addr: nat, align: nat)
    requires align > 0 && addr + (align - 1) < Pow2(WORD)
    ensures addr <= AlignUp(addr, align) < addr + align
  {
    hide Pow2, NatOf, ToBits, AndBits, NotBits;
    var s, t := ToBits(addr + (align - 1), WORD), ToBits(align - 1, WORD);
    MaskSplits(s, t);
    NatOfToBits(addr + (align - 1), WORD);
    NatOfToBits(align - 1, WORD);
    Below(addr + (align - 1), Pow2(WORD));
    Below(align - 1, Pow2(WORD));
  }

  // ------------------------------------------------------- tiles

  function AlignRwPtr(tile: Tile, addr: nat): (r: nat)
    requires tile.alignRead > 0 && tile.alignWrite > 0
    requires addr + (tile.alignRead - 1) < Pow2(WORD) && addr + (tile.alignWrite - 1) < Pow2(WORD)
  {
    var read, write := AlignUp(addr, tile.alignRead), AlignUp(addr, tile.alignWrite);
    if read < write then write else read
  }

  /** A multiple of the larger of two powers of two is a multiple of the smaller. */
  lemma PowersNest(j: nat, k: nat, r: nat)
    requires j <= k && r % Pow2(k) == 0
    ensures r % Pow2(j) == 0
  {
    Pow2Add(j, k - j);
    Factor(r, Pow2(j), Pow2(k - j));
  }

  lemma Factor(r: nat, d: nat, e: nat)
    requires d > 0 && e > 0 && d * e > 0 && r % (d * e) == 0
    ensures r % d == 0
  {
    var q := r / (d * e);
    assert r == (d * e) * q;
    Regroup(d, e, q);
    DivModUnique(r, d, e * q, 0);
  }

  lemma Regroup(d: nat, e: nat, q: nat)
    ensures (d * e) * q == d * (e * q)
  {
  }

  /** The pointer for reading and writing is the first address at or above the input that both
      accept. */
  lemma AlignRwIsLeast(tile: Tile, addr: nat)
    requires tile.alignRead > 0 && tile.alignWrite > 0 && IsPow2(tile.alignRead) && IsPow2(tile.alignWrite)
    requires addr + (tile.alignRead - 1) < Pow2(WORD) && addr + (tile.alignWrite - 1) < Pow2(WORD)
    ensures var r := AlignRwPtr(tile, addr);
            && addr <= r && r % tile.alignRead == 0 && r % tile.alignWrite == 0
            && forall s: nat :: addr <= s && s % tile.alignRead == 0 && s % tile.alignWrite == 0 ==> r <= s
  {
    hide Pow2, AlignUp;
    var a, b := tile.alignRead, tile.alignWrite;
    AlignUpIsLeast(addr, a);
    AlignUpIsLeast(addr, b);
    var j: nat :| Pow2(j) == a;
    var k: nat :| Pow2(k) == b;
    if j <= k {
      PowersNest(j, k, AlignUp(addr, b));
    } else {
      PowersNest(k, j, AlignUp(addr, a));
    }
  }
}
