/** Sequence numbers that wrap at 2^16 and their order (seq_num.h).

The program stores positions of an endless packet stream as 16-bit values and
compares them through the sign of a 16-bit difference.  The lemmas relate that
arithmetic to unbounded positions: it is exact as long as the two positions are
less than half of the number space apart.
*/
module SeqNums {

  type SeqNum = x: int | 0 <= x < 0x1_0000

  /** The 16-bit representation of an unbounded position. */
  function Wrap(x: int): SeqNum { x % 0x1_0000 }

  /** The value of `(int16_t)(a - b)`. */
  function Diff(a: SeqNum, b: SeqNum): int {
    var d := (a - b) % 0x1_0000;
    if d < 0x8000 then d else d - 0x1_0000
  }

  predicate Less(a: SeqNum, b: SeqNum) { Diff(a, b) < 0 }

  predicate AtMost(a: SeqNum, b: SeqNum) { Diff(a, b) <= 0 }

  /** Advances a sequence number, as `+`, `-` and `++` do. */
  function Plus(a: SeqNum, n: int): SeqNum { Wrap(a + n) }

  /** The signed distance is exact exactly within half of the number space. */
  lemma DiffExact(x: int, y: int)
    ensures Diff(Wrap(x), Wrap(y)) == x - y <==> -0x8000 <= x - y < 0x8000
  {
    var d := (Wrap(x) - Wrap(y)) % 0x1_0000;
    assert d == (x - y) % 0x1_0000 by {
      var qx, qy := x / 0x1_0000, y / 0x1_0000;
      assert x - y == (Wrap(x) - Wrap(y)) + 0x1_0000 * (qx - qy);
    }
  }

  /** Wrapped comparison agrees with the order of nearby unbounded positions. */
  lemma OrderExact(x: int, y: int)
    requires -0x8000 < x - y < 0x8000
    ensures Less(Wrap(x), Wrap(y)) <==> x < y
    ensures AtMost(Wrap(x), Wrap(y)) <==> x <= y
    ensures Less(Wrap(y), Wrap(x)) <==> y < x
    ensures AtMost(Wrap(y), Wrap(x)) <==> y <= x
    ensures Wrap(x) == Wrap(y) <==> x == y
  {
    DiffExact(x, y);
    DiffExact(y, x);
  }

  lemma PlusWrap(x: int, n: int)
    ensures Plus(Wrap(x), n) == Wrap(x + n)
  {
    assert x + n == Wrap(x) + n + 0x1_0000 * (x / 0x1_0000);
  }
}
