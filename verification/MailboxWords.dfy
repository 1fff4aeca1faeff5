/** The mailbox's register words as numbers, the way the source computes them. */
module MailboxWords {
  import opened Bits
  import opened MailboxModel

  /** A mailbox register as its four little-endian bytes. */
  function RegisterBytes(w: Word): (r: seq<bv8>)
    ensures |r| == 4
  {
    [w.lo.lo, w.lo.hi, w.hi.lo, w.hi.hi]
  }

  function HalfBytes(h: Half): (r: seq<bv8>)
    ensures |r| == 2
  {
    [h.lo, h.hi]
  }

  function WordNumber(w: Word): nat {
    Value(RegisterBytes(w))
  }

  function HalfNumber(h: Half): nat {
    Value(HalfBytes(h))
  }

  lemma HalfIs(h: Half)
    ensures HalfNumber(h) == h.lo as nat + 0x100 * h.hi as nat < 0x1_0000
  {
    assert HalfBytes(h)[1..] == [h.hi] && [h.hi][1..] == [];
    assert Value([h.hi]) == h.hi as nat;
  }

  /** A register is its low half and 2^16 times its high half. */
  lemma WordIs(w: Word)
    ensures WordNumber(w) == HalfNumber(w.lo) + 0x1_0000 * HalfNumber(w.hi)
    ensures HalfNumber(w.lo) < 0x1_0000
    ensures WordNumber(w) % 0x1_0000 == HalfNumber(w.lo) && WordNumber(w) / 0x1_0000 == HalfNumber(w.hi)
  {
    hide Value;
    ValueOfFour(w.lo.lo, w.lo.hi, w.hi.lo, w.hi.hi);
    HalfIs(w.lo);
    HalfIs(w.hi);
  }

  lemma SameByte(a: bv8, b: bv8)
    requires a as nat == b as nat
    ensures a == b
  {
  }

  lemma SameHalf(h: Half, k: Half)
    ensures HalfNumber(h) == HalfNumber(k) <==> h == k
  {
    hide HalfNumber;
    HalfIs(h);
    HalfIs(k);
    if HalfNumber(h) == HalfNumber(k) {
      SameByte(h.lo, k.lo);
      SameByte(h.hi, k.hi);
    }
  }

  /** The argument word is the first argument and 2^16 times the second. */
  lemma ArgumentWord(m: Message)
    ensures WordNumber(m.Arg()) == HalfNumber(m.arg0) + 0x1_0000 * HalfNumber(m.arg1)
  {
    hide WordNumber, HalfNumber;
    WordIs(m.Arg());
  }

  /** The base of the request codes, as a half. */
  const BASE := Half(0xaa, 0x00)

  /** The request word is 0xaa00 or-ed with the message's 16-bit number, bit by bit. */
  lemma RequestBits(m: Message, k: nat)
    requires k < 32
    ensures HalfNumber(BASE) == 0xaa00
    ensures BitsOf(RegisterBytes(RequestWord(m)))[k]
            == (k < 16 && (BitsOf(HalfBytes(BASE))[k] || BitsOf(HalfBytes(m.short))[k]))
  {
    hide BitsOf, ByteBit, Or;
    HalfIs(BASE);
    var w := RegisterBytes(RequestWord(m));
    var j, i := k / 8, k % 8;
    BitAt(w, j, i);
    if j < 2 {
      BitAt(HalfBytes(BASE), j, i);
      BitAt(HalfBytes(m.short), j, i);
    }
    ZeroBit(i);
  }

  lemma ZeroBit(k: nat)
    requires k < 8
    ensures !ByteBit(0, k)
  {
  }

  lemma RequestNumber(m: Message)
    ensures WordNumber(RequestWord(m)) == HalfNumber(m.Code())
  {
    hide WordNumber, HalfNumber, Message.Code;
    WordIs(RequestWord(m));
    ZeroHalf();
  }

  lemma ZeroHalf()
    ensures HalfNumber(Half(0, 0)) == 0
  {
    HalfIs(Half(0, 0));
  }

  lemma SleepNumber()
    ensures HalfNumber(SLEEP) == 0xaa55
  {
    HalfIs(SLEEP);
  }

  /** The firmware is asleep when the low half of the register is 0xaa55. */
  lemma AsleepNumber(w: Word)
    ensures IsAsleep(w) <==> WordNumber(w) % 0x1_0000 == 0xaa55
  {
    hide WordNumber, HalfNumber;
    WordIs(w);
    SleepNumber();
    SameHalf(w.lo, SLEEP);
  }

  /** The error reply is the word of all ones. */
  lemma ErrorNumber(w: Word)
    ensures IsErrorReply(w) <==> WordNumber(w) == 0xffff_ffff
  {
    hide WordNumber, HalfNumber;
    WordIs(w);
    HalfIs(Half(0xff, 0xff));
    WordIs(ERROR_REPLY);
    SameHalf(w.lo, Half(0xff, 0xff));
    SameHalf(w.hi, Half(0xff, 0xff));
    HalfIs(w.lo);
    HalfIs(w.hi);
  }

  lemma LowByte(lo: nat, hi: nat)
    requires lo < 0x100
    ensures (lo + 0x100 * hi) % 0x100 == lo
  {
  }

  /** The low byte of a half, as a half. */
  lemma LowByteNumber(h: Half)
    ensures HalfNumber(Half(0, h.lo)) == HalfNumber(h) % 0x100
  {
    hide HalfNumber;
    HalfIs(h);
    HalfIs(Half(0, h.lo));
    LowByte(h.lo as nat, h.hi as nat);
  }

  /** A reply is a success when the low half of the register is the low byte of the request code. */
  lemma SuccessNumber(m: Message, w: Word)
    ensures IsSuccessFor(m, w) <==> WordNumber(w) % 0x1_0000 == HalfNumber(m.Code()) % 0x100
  {
    hide WordNumber, HalfNumber, Message.Code;
    WordIs(w);
    LowByteNumber(m.Code());
    SameHalf(w.lo, Half(0, m.Code().lo));
  }

  /** Its return code is the high half. */
  lemma ReturnCodeNumber(w: Word)
    ensures WordNumber(High16(w)) == WordNumber(w) / 0x1_0000
  {
    hide WordNumber, HalfNumber;
    WordIs(w);
    WordIs(High16(w));
    ZeroHalf();
  }
}
