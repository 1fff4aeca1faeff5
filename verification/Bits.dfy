/** Bytes, bit strings and the numbers they stand for.
    A buffer of bytes is read three ways: as bytes, as the little-endian bit string
    `BitsOf(bytes)`, and as the number `Value(bytes)`. The lemmas tie the three together. */
module Bits {

  function Pow2(n: nat): (p: nat)
    ensures p > 0
  {
    if n == 0 then 1 else 2 * Pow2(n - 1)
  }

  lemma TwiceProduct(x: int, y: int)
    ensures 2 * (x * y) == (2 * x) * y
  {
  }

  lemma {:induction false} Pow2Add(m: nat, n: nat)
    ensures Pow2(m + n) == Pow2(m) * Pow2(n)
  {
    if m > 0 {
      Pow2Add(m - 1, n);
      TwiceProduct(Pow2(m - 1), Pow2(n));
    } else {
      assert 1 * Pow2(n) == Pow2(n);
    }
  }

  lemma {:induction false} Pow2Monotone(m: nat, n: nat)
    requires m <= n
    ensures Pow2(m) <= Pow2(n)
  {
    if m < n {
      Pow2Monotone(m, n - 1);
    }
  }

  // ---------------------------------------------------------------- single bytes

  function ByteBit(b: bv8, k: nat): bool
    requires k < 8
  {
    match k
    case 0 => b & 0x01 != 0
    case 1 => b & 0x02 != 0
    case 2 => b & 0x04 != 0
    case 3 => b & 0x08 != 0
    case 4 => b & 0x10 != 0
    case 5 => b & 0x20 != 0
    case 6 => b & 0x40 != 0
    case _ => b & 0x80 != 0
  }

  // The byte operators, each with what it does to every single bit.

  function Shl(b: bv8, n: nat): (r: bv8)
    requires n < 8
    ensures forall k: nat :: k < 8 ==> ByteBit(r, k) == (k >= n && ByteBit(b, k - n))
  {
    b << n
  }

  function Shr(b: bv8, n: nat): (r: bv8)
    requires n <= 8
    ensures forall k: nat :: k < 8 ==> ByteBit(r, k) == (k + n < 8 && ByteBit(b, k + n))
  {
    b >> n
  }

  lemma AndBit(a: bv8, b: bv8, k: nat)
    requires k < 8
    ensures ByteBit(a & b, k) == (ByteBit(a, k) && ByteBit(b, k))
  {
    match k
    case 0 =>
    case 1 =>
    case 2 =>
    case 3 =>
    case 4 =>
    case 5 =>
    case 6 =>
    case _ => assert k == 7;
  }

  function And(a: bv8, b: bv8): (r: bv8)
    ensures forall k: nat :: k < 8 ==> ByteBit(r, k) == (ByteBit(a, k) && ByteBit(b, k))
  {
    assert forall k: nat :: k < 8 ==> ByteBit(a & b, k) == (ByteBit(a, k) && ByteBit(b, k)) by {
      forall k: nat | k < 8
        ensures ByteBit(a & b, k) == (ByteBit(a, k) && ByteBit(b, k))
      {
        hide ByteBit;
        AndBit(a, b, k);
      }
    }
    a & b
  }

  lemma OrBit(a: bv8, b: bv8, k: nat)
    requires k < 8
    ensures ByteBit(a | b, k) == (ByteBit(a, k) || ByteBit(b, k))
  {
    match k
    case 0 =>
    case 1 =>
    case 2 =>
    case 3 =>
    case 4 =>
    case 5 =>
    case 6 =>
    case _ => assert k == 7;
  }

  function Or(a: bv8, b: bv8): (r: bv8)
    ensures forall k: nat :: k < 8 ==> ByteBit(r, k) == (ByteBit(a, k) || ByteBit(b, k))
  {
    assert forall k: nat :: k < 8 ==> ByteBit(a | b, k) == (ByteBit(a, k) || ByteBit(b, k)) by {
      forall k: nat | k < 8
        ensures ByteBit(a | b, k) == (ByteBit(a, k) || ByteBit(b, k))
      {
        hide ByteBit;
        OrBit(a, b, k);
      }
    }
    a | b
  }

  function Not(a: bv8): (r: bv8)
    ensures forall k: nat :: k < 8 ==> ByteBit(r, k) == !ByteBit(a, k)
  {
    !a
  }

  /** The mask `(1 << n) - 1` that the source builds for a bit count `n` of at most 8. */
  function LowMask(n: nat): (m: bv8)
    requires n <= 8
    ensures forall k: nat :: k < 8 ==> ByteBit(m, k) == (k < n)
  {
    if n == 8 then 0xff else (1 << n) - 1
  }

  function Unit(x: bool): nat {
    if x then 1 else 0
  }

  function UnitSum(b0: bool, b1: bool, b2: bool, b3: bool, b4: bool, b5: bool, b6: bool, b7: bool): nat {
    Unit(b0) + 2 * Unit(b1) + 4 * Unit(b2) + 8 * Unit(b3)
    + 16 * Unit(b4) + 32 * Unit(b5) + 64 * Unit(b6) + 128 * Unit(b7)
  }

  lemma ByteAsBits(a: bv8)
    ensures a as nat == UnitSum(ByteBit(a, 0), ByteBit(a, 1), ByteBit(a, 2), ByteBit(a, 3),
                                ByteBit(a, 4), ByteBit(a, 5), ByteBit(a, 6), ByteBit(a, 7))
  {
  }

  // ---------------------------------------------------------------- bit strings

  function Bit(bytes: seq<bv8>, i: nat): bool
    requires i < 8 * |bytes|
  {
    ByteBit(bytes[i / 8], i % 8)
  }

  function BitsOf(bytes: seq<bv8>): (s: seq<bool>)
    ensures |s| == 8 * |bytes|
    ensures forall i: nat :: i < |s| ==> s[i] == Bit(bytes, i)
  {
    seq(8 * |bytes|, i requires 0 <= i < 8 * |bytes| => Bit(bytes, i))
  }

  /** Bit `k` of byte `j` of a bit string. */
  function At(s: seq<bool>, j: nat, k: nat): bool
    requires 8 * j + k < |s|
  {
    s[8 * j + k]
  }

  lemma BitAt(bytes: seq<bv8>, j: nat, k: nat)
    requires j < |bytes| && k < 8
    ensures 8 * j + k < |BitsOf(bytes)| && At(BitsOf(bytes), j, k) == ByteBit(bytes[j], k)
  {
    hide ByteBit;
    assert (8 * j + k) / 8 == j && (8 * j + k) % 8 == k;
  }

  /** Bit strings that agree byte by byte are equal. */
  lemma SameByteWise(s: seq<bool>, t: seq<bool>, n: nat)
    requires |s| == |t| == 8 * n
    requires forall j: nat, k: nat :: j < n && k < 8 ==> At(s, j, k) == At(t, j, k)
    ensures s == t
  {
    forall i: nat | i < 8 * n
      ensures s[i] == t[i]
    {
      assert At(s, i / 8, i % 8) == At(t, i / 8, i % 8);
    }
  }

  function Zeros(n: nat): (s: seq<bool>)
    ensures |s| == n
    ensures forall i: nat :: i < n ==> !s[i]
  {
    seq(n, _ => false)
  }

  lemma BitsOfConcat(a: seq<bv8>, b: seq<bv8>)
    ensures BitsOf(a + b) == BitsOf(a) + BitsOf(b)
  {
    hide ByteBit;
    forall j: nat, k: nat | j < |a + b| && k < 8
      ensures At(BitsOf(a + b), j, k) == At(BitsOf(a) + BitsOf(b), j, k)
    {
      BitAt(a + b, j, k);
      if j < |a| {
        BitAt(a, j, k);
      } else {
        BitAt(b, j - |a|, k);
      }
    }
    SameByteWise(BitsOf(a + b), BitsOf(a) + BitsOf(b), |a + b|);
  }

  lemma BitsOfSlice(a: seq<bv8>, lo: nat, hi: nat)
    requires lo <= hi <= |a|
    ensures BitsOf(a[lo..hi]) == BitsOf(a)[8 * lo..8 * hi]
  {
    BitsOfConcat(a[..lo], a[lo..hi]);
    BitsOfConcat(a[..hi], a[hi..]);
    assert a[..lo] + a[lo..hi] == a[..hi];
    assert a[..hi] + a[hi..] == a;
    assert BitsOf(a)[..8 * hi] == BitsOf(a[..hi]);
  }

  function ByteOf(s: seq<bool>): (b: bv8)
    requires |s| == 8
  {
    (if s[0] then 0x01 else 0) | (if s[1] then 0x02 else 0) | (if s[2] then 0x04 else 0) | (if s[3] then 0x08 else 0)
    | (if s[4] then 0x10 else 0) | (if s[5] then 0x20 else 0) | (if s[6] then 0x40 else 0) | (if s[7] then 0x80 else 0)
  }

  lemma ByteOfBit(s: seq<bool>, k: nat)
    requires |s| == 8 && k < 8
    ensures ByteBit(ByteOf(s), k) == s[k]
  {
    match k
    case 0 =>
    case 1 =>
    case 2 =>
    case 3 =>
    case 4 =>
    case 5 =>
    case 6 =>
    case _ => assert k == 7;
  }

  /** The buffer with the given bits: the inverse of `BitsOf`. */
  function BytesOf(s: seq<bool>): (r: seq<bv8>)
    requires |s| % 8 == 0
    ensures |s| == 8 * |r|
    ensures BitsOf(r) == s
  {
    hide ByteOf, ByteBit, BitsOf;
    var r := seq(|s| / 8, j requires 0 <= j < |s| / 8 => ByteOf(s[8 * j..8 * j + 8]));
    assert BitsOf(r) == s by {
      forall j: nat, k: nat | j < |r| && k < 8
        ensures At(BitsOf(r), j, k) == At(s, j, k)
      {
        BitAt(r, j, k);
        ByteOfBit(s[8 * j..8 * j + 8], k);
      }
      SameByteWise(BitsOf(r), s, |r|);
    }
    r
  }

  // ---------------------------------------------------------------- numbers

  /** The number a little-endian bit string stands for. */
  function NatOf(s: seq<bool>): nat {
    if s == [] then 0 else Unit(s[0]) + 2 * NatOf(s[1..])
  }

  /** The number a little-endian byte buffer stands for: the sum of bytes[i] * 256^i. */
  function Value(bytes: seq<bv8>): nat {
    if bytes == [] then 0 else bytes[0] as nat + 256 * Value(bytes[1..])
  }

  /** The low `n` bits of a number. */
  function ToBits(v: nat, n: nat): (s: seq<bool>)
    ensures |s| == n
  {
    if n == 0 then [] else [v % 2 == 1] + ToBits(v / 2, n - 1)
  }

  lemma {:induction false} NatOfConcat(a: seq<bool>, b: seq<bool>)
    ensures NatOf(a + b) == NatOf(a) + Pow2(|a|) * NatOf(b)
  {
    if a == [] {
      assert a + b == b;
    } else {
      assert (a + b)[1..] == a[1..] + b;
      NatOfConcat(a[1..], b);
      TwiceProduct(Pow2(|a| - 1), NatOf(b));
    }
  }

  lemma {:induction false} NatOfBound(s: seq<bool>)
    ensures NatOf(s) < Pow2(|s|)
  {
    if s != [] {
      NatOfBound(s[1..]);
    }
  }

  lemma {:induction false} NatOfZeros(n: nat)
    ensures NatOf(Zeros(n)) == 0
  {
    if n > 0 {
      assert Zeros(n)[1..] == Zeros(n - 1);
      NatOfZeros(n - 1);
    }
  }

  lemma DivModUnique(v: nat, d: nat, q: nat, r: nat)
    requires v == r + d * q && r < d
    ensures v / d == q && v % d == r
  {
    var q', r' := v / d, v % d;
    assert v == r' + d * q' && r' < d;
    if q' < q {
      SmallerMultiple(d, q', q);
      assert false;
    } else if q < q' {
      SmallerMultiple(d, q, q');
      assert false;
    }
  }

  lemma Distribute(d: int, x: int, y: int)
    ensures d * (x + y) == d * x + d * y
  {
  }

  lemma SmallerMultiple(d: nat, x: nat, y: nat)
    requires x < y
    ensures d * x + d <= d * y
  {
    Distribute(d, x, y - x);
    Distribute(d, y - x - 1, 1);
    assert d * (y - x - 1) >= 0;
  }

  /** Splitting a bit string at `n` is division with remainder by 2^n. */
  lemma NatOfSplit(s: seq<bool>, n: nat)
    requires n <= |s|
    ensures NatOf(s) / Pow2(n) == NatOf(s[n..])
    ensures NatOf(s) % Pow2(n) == NatOf(s[..n])
    ensures NatOf(s) == NatOf(s[..n]) + Pow2(n) * NatOf(s[n..])
  {
    assert s[..n] + s[n..] == s;
    NatOfConcat(s[..n], s[n..]);
    NatOfBound(s[..n]);
    DivModUnique(NatOf(s), Pow2(n), NatOf(s[n..]), NatOf(s[..n]));
  }

  lemma {:induction false} NatOfInjective(s: seq<bool>, t: seq<bool>)
    requires |s| == |t| && NatOf(s) == NatOf(t)
    ensures s == t
  {
    if s != [] {
      assert NatOf(s) % 2 == Unit(s[0]) && NatOf(t) % 2 == Unit(t[0]);
      NatOfInjective(s[1..], t[1..]);
      assert s == [s[0]] + s[1..] && t == [t[0]] + t[1..];
    }
  }

  lemma HalfMod(v: nat, p: nat)
    requires p > 0
    ensures v % (2 * p) == v % 2 + 2 * ((v / 2) % p)
  {
    var h := v / 2;
    var q, r := h / p, h % p;
    assert h == r + p * q;
    TwiceProduct(p, q);
    DivModUnique(v, 2 * p, q, v % 2 + 2 * r);
  }

  lemma {:induction false} NatOfToBits(v: nat, n: nat)
    ensures NatOf(ToBits(v, n)) == v % Pow2(n)
  {
    if n > 0 {
      NatOfToBits(v / 2, n - 1);
      assert ToBits(v, n)[1..] == ToBits(v / 2, n - 1);
      HalfMod(v, Pow2(n - 1));
    }
  }

  lemma NatOfByte(b: bv8)
    ensures NatOf(BitsOf([b])) == b as nat
  {
    var s := BitsOf([b]);
    ByteAsBits(b);
    assert s == [s[0], s[1], s[2], s[3], s[4], s[5], s[6], s[7]];
    assert s[0] == ByteBit(b, 0) && s[1] == ByteBit(b, 1) && s[2] == ByteBit(b, 2) && s[3] == ByteBit(b, 3);
    assert s[4] == ByteBit(b, 4) && s[5] == ByteBit(b, 5) && s[6] == ByteBit(b, 6) && s[7] == ByteBit(b, 7);
    NatOfEight(s);
  }

  lemma NatOfEight(s: seq<bool>)
    requires |s| == 8
    ensures NatOf(s) == Unit(s[0]) + 2 * Unit(s[1]) + 4 * Unit(s[2]) + 8 * Unit(s[3])
                        + 16 * Unit(s[4]) + 32 * Unit(s[5]) + 64 * Unit(s[6]) + 128 * Unit(s[7])
  {
    NatOfFour(s);
    NatOfFour(s[4..]);
    assert NatOf(s[4..][4..]) == 0;
  }

  lemma NatOfFour(s: seq<bool>)
    requires |s| >= 4
    ensures NatOf(s) == Unit(s[0]) + 2 * Unit(s[1]) + 4 * Unit(s[2]) + 8 * Unit(s[3]) + 16 * NatOf(s[4..])
  {
    assert s[1..][1..] == s[2..] && s[2..][1..] == s[3..] && s[3..][1..] == s[4..];
  }

  lemma Pow2Of8()
    ensures Pow2(8) == 256
  {
    assert Pow2(6) == 4 * Pow2(4) && Pow2(4) == 4 * Pow2(2);
    assert Pow2(8) == 4 * Pow2(6);
  }

  /** The byte reading and the bit reading of a buffer agree. */
  lemma {:induction false} ValueIsNatOf(bytes: seq<bv8>)
    ensures Value(bytes) == NatOf(BitsOf(bytes))
  {
    if bytes != [] {
      var hd, tl := [bytes[0]], bytes[1..];
      assert hd + tl == bytes;
      BitsOfConcat(hd, tl);
      NatOfConcat(BitsOf(hd), BitsOf(tl));
      NatOfByte(bytes[0]);
      ValueIsNatOf(tl);
      Pow2Of8();
    }
  }

  /** The `n` little-endian bytes of a number. */
  function LeBytes(v: nat, n: nat): (r: seq<bv8>)
    ensures |r| == n
    ensures BitsOf(r) == ToBits(v, 8 * n)
  {
    BytesOf(ToBits(v, 8 * n))
  }

  /** They stand for the number, cut to their width. */
  lemma LeBytesValue(v: nat, n: nat)
    ensures Value(LeBytes(v, n)) == v % Pow2(8 * n)
  {
    ValueIsNatOf(LeBytes(v, n));
    NatOfToBits(v, 8 * n);
  }

  lemma ValueOfFour(a: bv8, b: bv8, c: bv8, d: bv8)
    ensures Value([a, b, c, d]) == a as nat + 0x100 * b as nat + 0x1_0000 * c as nat + 0x100_0000 * d as nat
  {
    assert [a, b, c, d][1..] == [b, c, d] && [b, c, d][1..] == [c, d] && [c, d][1..] == [d] && [d][1..] == [];
    assert Value([d]) == d as nat;
    assert Value([c, d]) == c as nat + 256 * Value([d]);
    assert Value([b, c, d]) == b as nat + 256 * Value([c, d]);
  }
}
