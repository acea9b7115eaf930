/** The window of live sequence numbers over a power-of-two slot array (ring_buffer.h).

`RingBuffer` keeps the two 16-bit ends of the window.  The ghost fields `lo` and
`hi` are the unbounded positions they stand for; every accessor is specified in
terms of those.
*/
module RingBuffers {
  import opened SeqNums

  const MAX_CAPACITY := 1024
  const ID_SPACE := 4096
  const HALF_IDS := 2048

  /** The capacities `1 << log2` with `log2 <= kMaxLinkBufferSizeLog2`. */
  predicate IsCapacity(c: int) {
    c == 1 || c == 2 || c == 4 || c == 8 || c == 16 || c == 32 || c == 64
    || c == 128 || c == 256 || c == 512 || c == 1024
  }

  function Pow2(n: nat): (r: nat)
    ensures r > 0
  {
    if n == 0 then 1 else 2 * Pow2(n - 1)
  }

  lemma CapacityOfLog2(n: nat)
    requires n <= 10
    ensures IsCapacity(Pow2(n))
  {
    assert Pow2(4) == 16;
    assert Pow2(8) == 16 * Pow2(4);
    assert n == 0 || n == 1 || n == 2 || n == 3 || n == 4 || n == 5 || n == 6 || n == 7 || n == 8 || n == 9 || n == 10;
  }

  /** The slot of a position: its low bits. */
  function Slot(pos: int, c: int): (i: nat)
    requires c > 0
    ensures i < c
  {
    pos % c
  }

  /** A multiple of c strictly between -c and c is zero. */
  lemma MultipleBelow(c: int, k: int)
    requires c > 0 && -c < c * k < c
    ensures k == 0
  {
  }

  /** Two different positions of one window never share a slot. */
  lemma SlotInjective(p: int, q: int, c: int)
    requires c > 0
    requires p < q < p + c
    ensures Slot(p, c) != Slot(q, c)
  {
    if p % c == q % c {
      var k := q / c - p / c;
      assert q - p == c * k;
      MultipleBelow(c, k);
    }
  }

  lemma SlotsDiffer(p: int, q: int, c: int)
    requires c > 0 && p != q && -c < p - q < c
    ensures Slot(p, c) != Slot(q, c)
  {
    if p < q { SlotInjective(p, q, c); } else { SlotInjective(q, p, c); }
  }

  lemma ModPlusMultiple(r: int, x: int, c: int)
    requires c > 0
    ensures (r + c * x) % c == r % c
  {
    var q := (r + c * x) / c - r / c - x;
    assert c * q == r % c - (r + c * x) % c by {
      assert r + c * x == c * ((r + c * x) / c) + (r + c * x) % c;
      assert r == c * (r / c) + r % c;
    }
    MultipleBelow(c, q);
  }

  /** Masking the 16-bit value selects the slot of the unbounded position. */
  lemma SlotOfWrap(pos: int, c: int)
    requires IsCapacity(c)
    ensures Slot(Wrap(pos), c) == Slot(pos, c)
  {
    var m := 0x1_0000 / c;
    assert 0x1_0000 == c * m;
    var q := pos / 0x1_0000;
    assert pos == Wrap(pos) + c * (m * q) by {
      assert c * (m * q) == (c * m) * q;
    }
    ModPlusMultiple(Wrap(pos), m * q, c);
  }

  /** `contains`: begin <= sn && sn < end in wrapped order. */
  predicate InWindow(begin: SeqNum, end: SeqNum, sn: SeqNum) {
    AtMost(begin, sn) && Less(sn, end)
  }

  /** The wrapped membership test is exact for every 16-bit value, except that an
      empty window claims to contain the one value that is half the number space away. */
  lemma InWindowExact(lo: int, hi: int, sn: SeqNum)
    requires lo <= hi <= lo + MAX_CAPACITY
    ensures InWindow(Wrap(lo), Wrap(hi), sn) <==>
            var d := (sn - lo) % 0x1_0000;
            d < hi - lo || (lo == hi && d == 0x8000)
  {
    var d := (sn - lo) % 0x1_0000;
    SameNumber(lo, sn);
    hide Wrap, Diff;
    if d < 0x8000 {
      OrderExact(lo, lo + d);
      OrderExact(lo + d, hi);
    } else if d > 0x8000 {
      OrderExact(lo, lo + d - 0x1_0000);
    } else {
      Opposite(lo, hi);
    }
  }

  /** A 16-bit value as a position at or above `lo`, and as one below it. */
  lemma SameNumber(lo: int, sn: SeqNum)
    ensures var d := (sn - lo) % 0x1_0000; sn == Wrap(lo + d) && sn == Wrap(lo + d - 0x1_0000)
  {
    var d := (sn - lo) % 0x1_0000;
    assert lo + d == sn - 0x1_0000 * ((sn - lo) / 0x1_0000);
  }

  /** The value half the number space away. */
  lemma Opposite(lo: int, hi: int)
    requires lo <= hi <= lo + MAX_CAPACITY
    ensures AtMost(Wrap(lo), Wrap(lo + 0x8000)) && (Less(Wrap(lo + 0x8000), Wrap(hi)) <==> lo == hi)
  {
    DiffExact(lo, lo + 0x8000);
    if lo < hi {
      OrderExact(hi, lo + 0x8000);
    } else {
      SameNumber(lo, Wrap(lo + 0x8000));
      DiffExact(lo - 0x8000, lo);
    }
  }

  /** A concrete input on which the membership test of an empty window is wrong. */
  lemma EmptyWindowContainsOppositeValue()
    ensures InWindow(100, 100, 32868)
  {
  }

  /** `restorePosHighBits(id, 12)` on 16-bit values. */
  function RestoreBits(begin: SeqNum, id: nat): SeqNum {
    var left := Wrap(begin - HALF_IDS);
    Wrap(left + Wrap(id - left) % ID_SPACE)
  }

  /** The unbounded position a 12-bit id is taken for, seen from position `b`. */
  function Restore(b: int, id: nat): (p: int)
    ensures b - HALF_IDS <= p < b + HALF_IDS
  {
    b - HALF_IDS + (id - (b - HALF_IDS)) % ID_SPACE
  }

  /** The 16-bit computation is the unbounded one, for every id and window. */
  lemma RestoreBitsExact(b: int, id: nat)
    ensures RestoreBits(Wrap(b), id) == Wrap(Restore(b, id))
  {
    hide Wrap;
    var l := b - HALF_IDS;
    PlusWrap(b, -HALF_IDS);
    assert Wrap(Wrap(b) - HALF_IDS) == Wrap(l);
    OffsetExact(l, id);
    PlusWrap(l, (id - l) % ID_SPACE);
  }

  /** Reducing a 16-bit difference modulo the id space. */
  lemma OffsetExact(l: int, id: int)
    ensures Wrap(id - Wrap(l)) % ID_SPACE == (id - l) % ID_SPACE
  {
    var x := id - Wrap(l);
    var q, k := l / 0x1_0000, x / 0x1_0000;
    assert l == Wrap(l) + 0x1_0000 * q && x == Wrap(x) + 0x1_0000 * k;
    assert id - l == Wrap(x) + ID_SPACE * (16 * (k - q));
    ModPlusMultiple(Wrap(x), 16 * (k - q), ID_SPACE);
  }

  /** A 12-bit id is restored to the position it was cut from exactly when that
      position lies within half of the id space of the window's begin. */
  lemma RestoreExact(b: int, p: int)
    ensures Restore(b, p % ID_SPACE) == p <==> b - HALF_IDS <= p < b + HALF_IDS
  {
    var l := b - HALF_IDS;
    var q := p / ID_SPACE;
    assert p - l == (p % ID_SPACE - l) + ID_SPACE * q;
    assert (p % ID_SPACE - l) % ID_SPACE == (p - l) % ID_SPACE;
  }

  /** The one position just above the restorable range is taken for the one just below it. */
  lemma RestoreJustAbove(b: int)
    ensures Restore(b, (b + HALF_IDS) % ID_SPACE) == b - HALF_IDS
  {
    assert (b + HALF_IDS) % ID_SPACE == (b - HALF_IDS) % ID_SPACE;
    RestoreExact(b, b - HALF_IDS);
  }

  class RingBuffer {
    const capacity: nat
    var begin: SeqNum
    var end: SeqNum
    ghost var lo: int
    ghost var hi: int

    ghost predicate Valid()
      reads this
    {
      && IsCapacity(capacity)
      && lo <= hi <= lo + capacity
      && begin == Wrap(lo)
      && end == Wrap(hi)
    }

    constructor (capacityLog2: nat, initialSeq: SeqNum)
      requires capacityLog2 <= 10
      ensures Valid() && capacity == Pow2(capacityLog2)
      ensures lo == hi == initialSeq
    {
      CapacityOfLog2(capacityLog2);
      capacity := Pow2(capacityLog2);
      begin, end := initialSeq, initialSeq;
      lo, hi := initialSeq, initialSeq;
    }

    function SlotsUsed(): (n: nat)
      requires Valid()
      reads this
      ensures n == hi - lo
    {
      DiffExact(hi, lo);
      Diff(end, begin)
    }

    function SlotsFree(): (n: nat)
      requires Valid()
      reads this
      ensures n == capacity - (hi - lo)
    {
      capacity - SlotsUsed()
    }

    predicate Empty()
      requires Valid()
      reads this
      ensures Empty() <==> lo == hi
    {
      SlotsUsed() == 0
    }

    /** Membership of a value that stands for a position near the window. */
    predicate Contains(sn: SeqNum, ghost pos: int)
      requires Valid()
      requires sn == Wrap(pos) && lo - 0x8000 < pos < lo + 0x8000
      reads this
      ensures Contains(sn, pos) <==> lo <= pos < hi
    {
      InWindowExact(lo, hi, sn);
      assert (sn - lo) % 0x1_0000 == (pos - lo) % 0x1_0000 by { WrapMinus(pos, lo); }
      InWindow(begin, end, sn)
    }

    function OffsetFor(sn: SeqNum, ghost pos: int): (i: nat)
      requires Valid()
      requires sn == Wrap(pos)
      reads this
      ensures i == Slot(pos, capacity)
    {
      SlotOfWrap(pos, capacity);
      Slot(sn, capacity)
    }

    function RestorePosHighBits(id: nat): (sn: SeqNum)
      requires Valid()
      reads this
      ensures sn == Wrap(Restore(lo, id))
    {
      RestoreBitsExact(lo, id);
      RestoreBits(begin, id)
    }

    method Push() returns (sn: SeqNum)
      requires Valid() && SlotsFree() > 0
      modifies this
      ensures Valid()
      ensures lo == old(lo) && hi == old(hi) + 1
      ensures sn == Wrap(old(hi))
    {
      PlusWrap(hi, 1);
      sn := end;
      end := Plus(end, 1);
      hi := hi + 1;
    }

    method Pop() returns (sn: SeqNum)
      requires Valid() && SlotsUsed() > 0
      modifies this
      ensures Valid()
      ensures lo == old(lo) + 1 && hi == old(hi)
      ensures sn == Wrap(old(lo))
    {
      PlusWrap(lo, 1);
      sn := begin;
      begin := Plus(begin, 1);
      lo := lo + 1;
    }

    method Reset(sn: SeqNum)
      requires Valid() && begin == end
      modifies this
      ensures Valid() && lo == hi == sn
    {
      begin, end := sn, sn;
      lo, hi := sn, sn;
    }
  }

  lemma WrapMinus(pos: int, x: int)
    ensures (Wrap(pos) - x) % 0x1_0000 == (pos - x) % 0x1_0000
  {
    assert pos - x == Wrap(pos) - x + 0x1_0000 * (pos / 0x1_0000);
  }
}
