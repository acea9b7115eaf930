/** Cutting a byte stream into packets at zero bytes (packets/over_stream).  The frame codec and the
checksum are parameters. */
module Segmenter {
  import opened Basics
  import opened Serialization

  const MIN_FRAME := 6
  const MAX_FRAME := 256

  /** The in-place frame encoder and decoder, the byte they expect at both ends, and the checksum of the payload. */
  datatype Codec = Codec(
    encode: seq<byte> -> seq<byte>,
    decode: seq<byte> -> Option<seq<byte>>,
    sentinel: byte,
    hash: seq<byte> -> Checksum)

  type Checksum = x: nat | x < 0x1_0000_0000

  /** `processPacket`: the payload of a frame of acceptable size, if it decodes and its checksum matches. */
  function Payload(c: Codec, frame: seq<byte>): Option<seq<byte>>
    requires |frame| >= MIN_FRAME
  {
    match c.decode(frame)
    case None => None
    case Some(d) =>
      if |d| != |frame| then None  // decoding in place keeps the size
      else
        var payload := d[1..|d| - 5];
        if c.hash(payload) == LoadBe(d[|d| - 5..|d| - 1]) then Some(payload) else None
  }

  /** The index of the first zero byte, or the length. */
  function Delimiter(s: seq<byte>): (i: nat)
    ensures i <= |s|
    ensures forall k :: 0 <= k < i ==> s[k] != 0
    ensures i < |s| ==> s[i] == 0
  {
    if s == [] || s[0] == 0 then 0 else 1 + Delimiter(s[1..])
  }

  /** The complete frames of a stream, each with its delimiter. */
  function Frames(s: seq<byte>): seq<seq<byte>>
    decreases |s|
  {
    var i := Delimiter(s);
    if i == |s| then [] else [s[..i + 1]] + Frames(s[i + 1..])
  }

  /** What follows the last complete frame. */
  function Rest(s: seq<byte>): (r: seq<byte>)
    ensures |r| <= |s| && forall k :: 0 <= k < |r| ==> r[k] != 0
    decreases |s|
  {
    var i := Delimiter(s);
    if i == |s| then s else Rest(s[i + 1..])
  }

  /** The packets delivered for some frames: those of acceptable size that decode. */
  function Delivered(c: Codec, frames: seq<seq<byte>>): seq<seq<byte>> {
    if frames == [] then []
    else
      var before, f := Delivered(c, frames[..|frames| - 1]), frames[|frames| - 1];
      if MIN_FRAME <= |f| <= MAX_FRAME && Payload(c, f).Some? then before + [Payload(c, f).value] else before
  }

  /** The packets of a whole stream. */
  function Packets(c: Codec, s: seq<byte>): seq<seq<byte>> { Delivered(c, Frames(s)) }

  // ----- splitting is exact -----

  predicate IsFrame(f: seq<byte>) {
    f != [] && f[|f| - 1] == 0 && forall k :: 0 <= k < |f| - 1 ==> f[k] != 0
  }

  function Concat(parts: seq<seq<byte>>): seq<byte> {
    if parts == [] then [] else parts[0] + Concat(parts[1..])
  }

  lemma DelimiterAt(s: seq<byte>, i: nat)
    requires i <= |s| && (forall k :: 0 <= k < i ==> s[k] != 0) && (i < |s| ==> s[i] == 0)
    ensures Delimiter(s) == i
  {
  }

  /** A stream that starts with a whole frame. */
  lemma FirstFrame(f: seq<byte>, tail: seq<byte>)
    requires IsFrame(f)
    ensures Frames(f + tail) == [f] + Frames(tail) && Rest(f + tail) == Rest(tail)
  {
    var s := f + tail;
    DelimiterAt(s, |f| - 1);
    assert s[..|f|] == f && s[|f|..] == tail;
  }

  /** A stream without a zero byte. */
  lemma NoFrame(s: seq<byte>)
    requires forall k :: 0 <= k < |s| ==> s[k] != 0
    ensures Frames(s) == [] && Rest(s) == s
  {
    DelimiterAt(s, |s|);
  }

  /** Every stream is of one of these two kinds. */
  lemma {:induction false} CutFirst(s: seq<byte>)
    ensures var i := Delimiter(s); i < |s| ==> IsFrame(s[..i + 1]) && s == s[..i + 1] + s[i + 1..]
  {
    hide Delimiter;
    var i := Delimiter(s);
    if i < |s| { assert s[..i + 1][i] == 0; }
  }

  /** A stream splits into frames in one way only. */
  lemma {:induction false} SplitIsUnique(s: seq<byte>, frames: seq<seq<byte>>, rest: seq<byte>)
    requires s == Concat(frames) + rest && (forall i :: 0 <= i < |frames| ==> IsFrame(frames[i]))
    requires forall k :: 0 <= k < |rest| ==> rest[k] != 0
    ensures Frames(s) == frames && Rest(s) == rest
    decreases |frames|
  {
    hide Frames, Rest, Delimiter, IsFrame;
    if frames == [] {
      assert s == rest;
      NoFrame(s);
    } else {
      var f, tail := frames[0], Concat(frames[1..]) + rest;
      assert s == f + tail;
      FirstFrame(f, tail);
      SplitIsUnique(tail, frames[1..], rest);
    }
  }

  /** The frames and the rest make up the whole stream. */
  lemma {:induction false} SplitIsExact(s: seq<byte>)
    ensures Concat(Frames(s)) + Rest(s) == s
    ensures forall i :: 0 <= i < |Frames(s)| ==> IsFrame(Frames(s)[i])
    decreases |s|
  {
    hide IsFrame, Frames, Rest;
    var i := Delimiter(s);
    if i < |s| {
      var f, tail := s[..i + 1], s[i + 1..];
      CutFirst(s);
      FirstFrame(f, tail);
      SplitIsExact(tail);
      assert Frames(s)[1..] == Frames(tail);
      assert Concat(Frames(s)) == f + Concat(Frames(tail));
    } else {
      NoFrame(s);
      assert Concat([]) == [];
    }
  }

  // ----- a stream in pieces -----

  /** The frames of two pieces are those of the first, then those of its rest with the second. */
  lemma {:induction false} FramesOfPieces(a: seq<byte>, b: seq<byte>)
    ensures Frames(a + b) == Frames(a) + Frames(Rest(a) + b)
    ensures Rest(a + b) == Rest(Rest(a) + b)
    decreases |a|
  {
    hide Frames, Rest, IsFrame;
    var i := Delimiter(a);
    if i < |a| {
      var f, tail := a[..i + 1], a[i + 1..];
      CutFirst(a);
      FirstFrame(f, tail);
      FirstFrame(f, tail + b);
      assert a + b == f + (tail + b);
      FramesOfPieces(tail, b);
    } else {
      NoFrame(a);
    }
  }

  lemma {:induction false} DeliveredConcat(c: Codec, a: seq<seq<byte>>, b: seq<seq<byte>>)
    ensures Delivered(c, a + b) == Delivered(c, a) + Delivered(c, b)
  {
    if b == [] {
      assert a + b == a;
    } else {
      var ab := a + b;
      assert ab[..|ab| - 1] == a + b[..|b| - 1];
      DeliveredConcat(c, a, b[..|b| - 1]);
    }
  }

  /** What a piece adds to the packets of the stream so far depends on the unfinished frame only. */
  lemma PacketsOfPieces(c: Codec, a: seq<byte>, b: seq<byte>)
    ensures Packets(c, a + b) == Packets(c, a) + Packets(c, Rest(a) + b)
  {
    FramesOfPieces(a, b);
    DeliveredConcat(c, Frames(a), Frames(Rest(a) + b));
  }

  /** After arbitrary noise, what follows a zero byte is handled as if it came first. */
  lemma Resynchronizes(c: Codec, noise: seq<byte>, s: seq<byte>)
    ensures Packets(c, noise + [0] + s) == Packets(c, noise + [0]) + Packets(c, s)
  {
    hide Packets, Frames, Rest;
    var a, r := noise + [0], Rest(noise) + [0];
    FramesOfPieces(noise, [0]);
    FirstFrame(r, []);
    NoFrame([]);
    assert r + [] == r;
    PacketsOfPieces(c, a, s);
    assert Rest(a) + s == s;
  }

  // ----- what is sent is received -----

  const MAX_SENT := 250

  /** `send`: the frame of a packet. */
  function FrameOf(c: Codec, packet: seq<byte>): seq<byte> {
    c.encode([c.sentinel] + packet + StoreBe(c.hash(packet), 4) + [c.sentinel])
  }

  /** What `send` hands to the encoder: a buffer with the sentinel at both ends. */
  predicate Framable(c: Codec, raw: seq<byte>) {
    MIN_FRAME <= |raw| <= MAX_FRAME && raw[0] == c.sentinel == raw[|raw| - 1]
  }

  /** What the link needs of its codec: the frame of such a buffer is zero-free up to its last byte, of the same
      size, and decodes to it.  `TinyFrames` has a codec that does this. */
  ghost predicate CodecOk(c: Codec) {
    forall raw :: Framable(c, raw) ==>
      IsFrame(c.encode(raw)) && |c.encode(raw)| == |raw| && c.decode(c.encode(raw)) == Some(raw)
  }

  lemma FrameIsReceived(c: Codec, packet: seq<byte>)
    requires CodecOk(c) && |packet| <= MAX_SENT
    ensures var f := FrameOf(c, packet);
            IsFrame(f) && MIN_FRAME <= |f| <= MAX_FRAME && Payload(c, f) == Some(packet)
  {
    assert Pow256(4) == 0x1_0000_0000 by { assert Pow256(2) == 256 * Pow256(1) == 65536; }
    hide StoreBe, LoadBe, Pow256, IsFrame;
    var raw := [c.sentinel] + packet + StoreBe(c.hash(packet), 4) + [c.sentinel];
    assert |raw| == |packet| + 6;
    assert raw[1..|raw| - 5] == packet;
    assert raw[|raw| - 5..|raw| - 1] == StoreBe(c.hash(packet), 4);
    assert Framable(c, raw);
    LoadOfStore(c.hash(packet), 4);
  }

  function FramesOf(c: Codec, packets: seq<seq<byte>>): (r: seq<seq<byte>>)
    ensures |r| == |packets|
  {
    seq(|packets|, i requires 0 <= i < |packets| => FrameOf(c, packets[i]))
  }

  /** Whatever noise came before a zero byte, packets sent after it are delivered exactly, in order. */
  lemma SentIsReceived(c: Codec, noise: seq<byte>, packets: seq<seq<byte>>)
    requires CodecOk(c) && forall i :: 0 <= i < |packets| ==> |packets[i]| <= MAX_SENT
    ensures Packets(c, noise + [0] + Concat(FramesOf(c, packets))) == Packets(c, noise + [0]) + packets
  {
    var frames := FramesOf(c, packets);
    forall i | 0 <= i < |frames|
      ensures IsFrame(frames[i]) && MIN_FRAME <= |frames[i]| <= MAX_FRAME && Payload(c, frames[i]) == Some(packets[i])
    {
      FrameIsReceived(c, packets[i]);
    }
    hide FramesOf, Payload, FrameOf, CodecOk;
    assert Concat(frames) == Concat(frames) + [];
    SplitIsUnique(Concat(frames), frames, []);
    AllDelivered(c, frames, packets);
    Resynchronizes(c, noise, Concat(frames));
  }

  lemma {:induction false} AllDelivered(c: Codec, frames: seq<seq<byte>>, packets: seq<seq<byte>>)
    requires |frames| == |packets|
    requires forall i :: 0 <= i < |frames| ==>
               MIN_FRAME <= |frames[i]| <= MAX_FRAME && Payload(c, frames[i]) == Some(packets[i])
    ensures Delivered(c, frames) == packets
  {
    var n := |frames| - 1;
    if frames != [] {
      AllDelivered(c, frames[..n], packets[..n]);
      assert packets == packets[..n] + [packets[n]];
    }
  }
}
