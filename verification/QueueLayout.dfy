/** Where the Blackhole message queues live in device memory, and the ring-pointer arithmetic. */
module QueueLayout {
  import opened Bits

  /** The fields of a message queue that fix its layout. `n` is the number of words in a message. */
  datatype Layout = Layout(headerSize: nat, entrySize: nat, queueBase: nat, queueCount: nat, queueSize: nat, n: nat)
  {
    /** What the source relies on: a ring that is not empty, an entry as long as a message,
        a header that holds the pointer words 0, 1, 4 and 5, and sizes that fit a u32. */
    predicate Valid() {
      queueSize > 0 && entrySize == n && headerSize >= 6 && AreaBytes() < 0x1_0000_0000
    }

    /** The size of one queue's area, in bytes. */
    function AreaBytes(): nat {
      2 * queueSize * (entrySize * 4) + headerSize * 4
    }

    /** The size of one queue's area, in words. */
    function AreaWords(): nat {
      headerSize + 2 * queueSize * n
    }

    /** The byte address of queue `index`. */
    function Base(index: nat): nat {
      queueBase + index * AreaBytes()
    }

    /** The byte address of word `offset` of queue `index`. */
    function Address(index: nat, offset: nat): nat {
      Base(index) + 4 * offset
    }

    /** The word offset of ring slot `k`: the request ring is slots 0..queueSize,
        the response ring the queueSize slots after it. */
    function Slot(k: nat): nat {
      headerSize + k * n
    }

    /** A ring pointer runs modulo twice the ring length: the pointer that stands for a count. */
    function Pointer(count: nat): nat
      requires queueSize > 0
    {
      count % (2 * queueSize)
    }

    /** The pointer after `p`. */
    function Advance(p: nat): nat
      requires queueSize > 0
    {
      (p + 1) % (2 * queueSize)
    }

    function RequestSlot(wptr: nat): nat
      requires queueSize > 0
    {
      Slot(wptr % queueSize)
    }

    function ResponseSlot(rptr: nat): nat
      requires queueSize > 0
    {
      Slot(queueSize + rptr % queueSize)
    }
  }

  function AbsDiff(a: nat, b: nat): nat {
    if a < b then b - a else a - b
  }

  // ------------------------------------------------------- areas

  lemma AreaInWords(l: Layout)
    requires l.Valid()
    ensures l.AreaBytes() == 4 * l.AreaWords()
  {
    var a, b := 2 * l.queueSize, l.n;
    assert a * (b * 4) == 4 * (a * b);
  }

  /** Distinct slots do not overlap, avoid the header, and end inside the area. */
  lemma SlotsApart(l: Layout, j: nat, k: nat)
    requires j < k < 2 * l.queueSize
    ensures l.headerSize <= l.Slot(j) && l.Slot(j) + l.n <= l.Slot(k) && l.Slot(k) + l.n <= l.AreaWords()
  {
    SmallerMultiple(l.n, j, k);
    SmallerMultiple(l.n, k, 2 * l.queueSize);
    assert l.n * j == j * l.n && l.n * k == k * l.n && l.n * (2 * l.queueSize) == 2 * l.queueSize * l.n;
  }

  lemma RingSlot(p: nat, q: nat)
    requires q > 0
    ensures p % q < q
  {
  }

  /** Every request slot is apart from every response slot. */
  lemma RingsApart(l: Layout, w: nat, r: nat)
    requires l.queueSize > 0
    ensures l.headerSize <= l.RequestSlot(w) && l.RequestSlot(w) + l.n <= l.ResponseSlot(r)
    ensures l.ResponseSlot(r) + l.n <= l.AreaWords()
  {
    RingSlot(w, l.queueSize);
    RingSlot(r, l.queueSize);
    SlotsApart(l, w % l.queueSize, l.queueSize + r % l.queueSize);
  }

  lemma SlotNext(l: Layout, k: nat)
    ensures l.Slot(k + 1) == l.Slot(k) + l.n
  {
    Distribute(l.n, k, 1);
  }

  /** The slot after a ring's last is its first again. */
  lemma NextInRing(p: nat, q: nat)
    requires q > 0
    ensures (p + 1) % q == if p % q + 1 == q then 0 else p % q + 1
  {
    var d, r := p / q, p % q;
    assert p == r + q * d;
    if r + 1 == q {
      Distribute(q, d, 1);
      DivModUnique(p + 1, q, d + 1, 0);
    } else {
      DivModUnique(p + 1, q, d, r + 1);
    }
  }

  /** The rings fill the area: the requests begin right after the header, every entry stands right
      after the one before it and the last one is followed by the first, the responses begin where
      the requests end, and their last entry ends the area. */
  lemma RingsFill(l: Layout, p: nat)
    requires l.queueSize > 0
    ensures l.RequestSlot(0) == l.headerSize
    ensures l.RequestSlot(p + 1) == if p % l.queueSize + 1 == l.queueSize then l.headerSize else l.RequestSlot(p) + l.n
    ensures p % l.queueSize + 1 == l.queueSize ==> l.RequestSlot(p) + l.n == l.ResponseSlot(0)
    ensures l.ResponseSlot(p + 1)
            == if p % l.queueSize + 1 == l.queueSize then l.ResponseSlot(0) else l.ResponseSlot(p) + l.n
    ensures p % l.queueSize + 1 == l.queueSize ==> l.ResponseSlot(p) + l.n == l.AreaWords()
  {
    hide Layout.Slot;
    var q, k := l.queueSize, p % l.queueSize;
    NextInRing(p, q);
    ModSmall(0, q);
    SlotNext(l, k);
    SlotNext(l, q + k);
    SlotEnds(l);
  }

  lemma SlotEnds(l: Layout)
    ensures l.Slot(0) == l.headerSize && l.Slot(2 * l.queueSize) == l.AreaWords()
  {
  }

  /** The areas follow one another from the base of the region. */
  lemma QueuesFill(l: Layout, i: nat)
    requires l.Valid()
    ensures l.Base(0) == l.queueBase && l.Base(i + 1) == l.Address(i, l.AreaWords())
  {
    AreaInWords(l);
    Distribute(l.AreaBytes(), i, 1);
  }

  /** Words of different queues never share an address, and every word of a queue with an
      index below the count lies in the region set aside for the queues. */
  lemma QueuesApart(l: Layout, i: nat, x: nat, j: nat, y: nat)
    requires l.Valid() && i < j && x < l.AreaWords() && y < l.AreaWords()
    ensures l.Address(i, x) + 4 <= l.Address(j, y)
    ensures j < l.queueCount ==>
      l.queueBase <= l.Address(j, y) && l.Address(j, y) + 4 <= l.queueBase + l.queueCount * l.AreaBytes()
  {
    AreaInWords(l);
    var a := l.AreaBytes();
    SmallerMultiple(a, i, j);
    assert a * i == i * a && a * j == j * a;
    if j < l.queueCount {
      SmallerMultiple(a, j, l.queueCount);
      assert a * l.queueCount == l.queueCount * a;
    }
  }

  /** The guard in front of a send. */
  predicate IndexAccepted(l: Layout, index: nat) {
    !(index > l.queueCount)
  }

  /** A queue lies inside the region exactly when its index is below the count. The guard also
      lets the index equal to the count through, one whole area past the end. */
  lemma QueueInRegionIff(l: Layout, index: nat)
    requires l.Valid()
    ensures l.Base(index) + l.AreaBytes() <= l.queueBase + l.queueCount * l.AreaBytes() <==> index < l.queueCount
    ensures IndexAccepted(l, l.queueCount)
    ensures l.Base(l.queueCount) == l.queueBase + l.queueCount * l.AreaBytes()
  {
    var a := l.AreaBytes();
    assert a * index == index * a && a * l.queueCount == l.queueCount * a;
    if index < l.queueCount {
      SmallerMultiple(a, index, l.queueCount);
    } else if l.queueCount < index {
      SmallerMultiple(a, l.queueCount, index);
    }
  }

  // ------------------------------------------------------- pointers

  /** How many entries lie between two ring pointers. */
  function Occupancy(rptr: nat, wptr: nat, q: nat): int
    requires q > 0
  {
    (wptr - rptr) % (2 * q)
  }

  /** The full test on absolute differences agrees with modular occupancy for all pointer values,
      in range or not. */
  lemma FullTest(rptr: nat, wptr: nat, q: nat)
    requires q > 0
    ensures AbsDiff(rptr, wptr) % (2 * q) == q <==> Occupancy(rptr, wptr, q) == q
  {
    if wptr < rptr {
      ModNegate(rptr - wptr, 2 * q);
    }
  }

  lemma ModNegate(d: nat, m: nat)
    requires m > 0
    ensures (-(d as int)) % m == if d % m == 0 then 0 else m - d % m
  {
    var q, r := d / m, d % m;
    assert d == r + m * q;
    if r == 0 {
      IntModUnique(-(d as int), m, -(q as int), 0);
    } else {
      Distribute(m, -(q as int), -1);
      IntModUnique(-(d as int), m, -(q as int) - 1, m - r);
    }
  }

  lemma IntModUnique(v: int, m: nat, q: int, r: int)
    requires 0 <= r < m && v == r + m * q
    ensures v % m == r
  {
    var q', r' := v / m, v % m;
    assert v == r' + m * q';
    if q < q' {
      IntMultiple(m, q, q');
      assert false;
    } else if q' < q {
      IntMultiple(m, q', q);
      assert false;
    }
  }

  lemma IntMultiple(m: nat, x: int, y: int)
    requires x < y
    ensures m * x + m <= m * y
  {
    var k: nat := y - x;
    Distribute(m, x, k);
    SmallerMultiple(m, 0, k);
  }

  lemma ModSmall(x: nat, m: nat)
    requires x < m
    ensures x % m == x
  {
  }

  /** Advancing a pointer modulo `m` counts one more. */
  lemma ModNext(x: nat, m: nat)
    requires m > 1
    ensures (x % m + 1) % m == (x + 1) % m
  {
    var q, r := x / m, x % m;
    assert x == r + m * q;
    if r + 1 < m {
      DivModUnique(x + 1, m, q, r + 1);
      ModSmall(r + 1, m);
    } else {
      Distribute(m, q, 1);
      DivModUnique(x + 1, m, q + 1, 0);
      DivModUnique(m, m, 1, 0);
    }
  }

  lemma AdvancePointer(l: Layout, count: nat)
    requires l.queueSize > 0
    ensures l.Advance(l.Pointer(count)) == l.Pointer(count + 1)
  {
    ModNext(count, 2 * l.queueSize);
  }

  /** A pointer modulo 2q picks the same slot as the running count. */
  lemma ModHalf(x: nat, q: nat)
    requires q > 0
    ensures (x % (2 * q)) % q == x % q
  {
    HalfOf(x, q, x / (2 * q), x % (2 * q));
  }

  lemma HalfOf(x: nat, q: nat, d: nat, r: nat)
    requires q > 0 && x == r + (2 * q) * d
    ensures r % q == x % q
  {
    TwiceProduct(q, d);
    TwiceOf(q, d);
    SplitAgain(x, q, r, 2 * d);
  }

  lemma TwiceOf(q: nat, d: nat)
    ensures 2 * (q * d) == q * (2 * d)
  {
  }

  lemma SplitAgain(x: nat, q: nat, r: nat, k: nat)
    requires q > 0 && x == r + q * k
    ensures x % q == r % q
  {
    var e, t := r / q, r % q;
    assert r == t + q * e;
    Distribute(q, e, k);
    DivModUnique(x, q, e + k, t);
  }

  /** Two counts less than `m` apart have different remainders. */
  lemma ModDistinct(x: nat, y: nat, m: nat)
    requires x < y < x + m
    ensures x % m != y % m
  {
    if x % m == y % m {
      var d, e := x / m, y / m;
      assert x == x % m + m * d && y == y % m + m * e;
      if d < e {
        SmallerMultiple(m, d, e);
        assert false;
      } else {
        if e < d {
          SmallerMultiple(m, e, d);
        }
        assert false;
      }
    }
  }

  /** The distance between two counts at most `q` apart, seen through their pointers. */
  lemma OccupancyOf(x: nat, y: nat, q: nat)
    requires q > 0 && x <= y <= x + q
    ensures Occupancy(x % (2 * q), y % (2 * q), q) == y - x
  {
    var m := 2 * q;
    var d, e := x / m, y / m;
    assert x == x % m + m * d && y == y % m + m * e;
    assert m * (d - e) == m * d - m * e by { Distribute(m, d - e, e); }
    IntModUnique(y % m - x % m, m, d - e, y - x);
  }
}
