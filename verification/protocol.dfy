/** Packet headers and the skip-ack bitmap of the link protocol (protocol.h). */
module Protocol {
  import opened Basics
  import opened SeqNums
  import opened RingBuffers

  const DATA_PACKET := 0
  const FIN_PACKET := 1
  const DATA_ACK_PACKET := 2
  const FLOW_CONTROL_PACKET := 4

  const MAX_PACKET_SIZE := 250
  const MAX_PAYLOAD := 248

  /** `FormatPacketHeader`: bit 15 is the control bit, bits 14-12 the type, bits 11-0 the id. */
  function Header(pos: int, kind: nat, control: bool): SeqNum
    requires kind < 8
  {
    pos % 4096 + kind * 4096 + (if control then 0x8000 else 0)
  }

  function ControlBit(header: SeqNum): bool { header >= 0x8000 }

  function PacketKind(header: SeqNum): nat { header % 0x8000 / 4096 }

  function PacketId(header: SeqNum): nat { header % 4096 }

  /** `SetPacketHeaderTypeFin` on a data or final packet: or-ing in bit 12. */
  function SetFin(header: SeqNum): SeqNum
    requires PacketKind(header) <= 1
  {
    if PacketKind(header) == FIN_PACKET then header else header + 4096
  }

  /** Parsing inverts formatting, and marking a data header final changes only its type. */
  lemma HeaderRoundTrip(pos: int, kind: nat, control: bool)
    requires kind < 8
    ensures var h := Header(pos, kind, control);
            ControlBit(h) == control && PacketKind(h) == kind && PacketId(h) == pos % 4096
    ensures kind == DATA_PACKET ==> SetFin(Header(pos, kind, control)) == Header(pos, FIN_PACKET, control)
  {
  }

  /** A header is the same whether formed from the position or from its 16-bit value. */
  lemma HeaderOfWrap(p: int, kind: nat, control: bool)
    requires kind < 8
    ensures Header(Wrap(p), kind, control) == Header(p, kind, control)
  {
    ModPlusMultiple(Wrap(p), 16 * (p / 0x1_0000), 4096);
    assert p == Wrap(p) + 4096 * (16 * (p / 0x1_0000));
  }

  /** A packet on the wire: the big-endian header followed by the payload. */
  function Packet(header: SeqNum, payload: seq<byte>): seq<byte> {
    [header / 256, header % 256] + payload
  }

  /** `LoadBeU16` on the first two bytes. */
  function LoadHeader(bytes: seq<byte>): SeqNum
    requires |bytes| >= 2
  {
    bytes[0] as int * 256 + bytes[1] as int
  }

  lemma PacketRoundTrip(header: SeqNum, payload: seq<byte>)
    ensures LoadHeader(Packet(header, payload)) == header
    ensures Packet(header, payload)[2..] == payload
  {
  }

  // ----- the skip-ack bitmap -----

  /** `(b & (1 << i)) != 0`. */
  function BitOf(b: nat, i: nat): bool
    decreases i
  {
    if i == 0 then b % 2 == 1 else BitOf(b / 2, i - 1)
  }

  /** The number with the given bits, most significant first. */
  function Value(bits: seq<bool>): nat {
    if bits == [] then 0
    else 2 * Value(bits[..|bits| - 1]) + (if bits[|bits| - 1] then 1 else 0)
  }

  lemma {:induction false} ValueBits(bits: seq<bool>, j: nat)
    requires j < |bits|
    ensures BitOf(Value(bits), |bits| - 1 - j) == bits[j]
    decreases |bits|
  {
    var front := bits[..|bits| - 1];
    assert Value(bits) / 2 == Value(front);
    if j < |bits| - 1 {
      ValueBits(front, j);
    }
  }

  lemma {:induction false} ValueBound(bits: seq<bool>)
    ensures Value(bits) < Pow2(|bits|)
    decreases |bits|
  {
    if bits != [] {
      ValueBound(bits[..|bits| - 1]);
    }
  }

  /** Eight bits, most significant first, as one byte. */
  function ByteOf(bits: seq<bool>): byte
    requires |bits| == 8
  {
    ValueBound(bits);
    assert Pow2(8) == 4 * Pow2(6);
    assert Pow2(6) == 4 * Pow2(4);
    assert Pow2(4) == 16;
    Value(bits)
  }

  lemma {:induction false} ZeroHasNoBits(i: nat)
    ensures !BitOf(0, i)
  {
    if i > 0 { ZeroHasNoBits(i - 1); }
  }

  /** `StoreBeU64` of a 64-bit word given by its bits, most significant first. */
  function StoreBits(bits: seq<bool>): (bytes: seq<byte>)
    requires |bits| % 8 == 0
    ensures |bytes| == |bits| / 8
    decreases |bits|
  {
    if |bits| == 0 then [] else [ByteOf(bits[..8])] + StoreBits(bits[8..])
  }

  /** Drops the zero bytes at the end. */
  function Trim(bytes: seq<byte>): (r: seq<byte>)
    ensures r <= bytes
    ensures forall k :: |r| <= k < |bytes| ==> bytes[k] == 0
    ensures r == [] || r[|r| - 1] != 0
  {
    if bytes == [] || bytes[|bytes| - 1] != 0 then bytes else Trim(bytes[..|bytes| - 1])
  }

  /** The bit the transmitter reads for the j-th position after the acknowledged one. */
  function BitmapBit(bitmap: seq<byte>, j: nat): bool {
    j / 8 < |bitmap| && BitOf(bitmap[j / 8], 7 - j % 8)
  }

  lemma {:induction false} StoreBitsAt(bits: seq<bool>, j: nat)
    requires |bits| % 8 == 0 && j < |bits|
    ensures BitmapBit(StoreBits(bits), j) == bits[j]
    decreases |bits|
  {
    var rest := bits[8..];
    if j < 8 {
      ValueBits(bits[..8], j);
    } else {
      StoreBitsAt(rest, j - 8);
      assert (j - 8) / 8 == j / 8 - 1;
      assert StoreBits(bits)[j / 8] == StoreBits(rest)[(j - 8) / 8];
    }
  }

  /** Zero bytes at the end carry no bits. */
  lemma TrimKeepsBits(bytes: seq<byte>, j: nat)
    ensures BitmapBit(Trim(bytes), j) == BitmapBit(bytes, j)
  {
    hide Trim, BitOf;
    var k := j / 8;
    if |Trim(bytes)| <= k < |bytes| {
      ZeroHasNoBits(7 - j % 8);
    }
  }

  /** What the receiver encodes, with trailing zero bytes left out, is what the
      transmitter decodes, at every position and beyond the end of the bitmap. */
  lemma BitmapRoundTrip(bits: seq<bool>, j: nat)
    requires |bits| % 8 == 0
    ensures BitmapBit(Trim(StoreBits(bits)), j) == (j < |bits| && bits[j])
  {
    TrimKeepsBits(StoreBits(bits), j);
    hide StoreBits, Trim, BitOf;
    if j < |bits| {
      StoreBitsAt(bits, j);
    }
  }
}
