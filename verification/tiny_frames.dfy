/** A frame codec: consistent overhead byte stuffing in place, for buffers that have a sentinel at both ends.

The first byte of a frame, and every byte that was zero, holds the distance to the next such place; the last byte is
zero.  With at most 254 bytes between the sentinels every distance fits one byte.
*/
module TinyFrames {
  import opened Basics
  import opened Segmenter

  const MAX_INNER := 254

  /** The frame of the bytes between the sentinels. */
  function Stuff(inner: seq<byte>): (f: seq<byte>)
    requires |inner| <= MAX_INNER
    ensures |f| == |inner| + 2
    decreases |inner|
  {
    var i := Delimiter(inner);
    [i + 1] + inner[..i] + (if i == |inner| then [0] else Stuff(inner[i + 1..]))
  }

  /** The bytes a frame was made of; `None` if a distance leads nowhere. */
  function Unstuff(f: seq<byte>): (r: Option<seq<byte>>)
    ensures r.Some? ==> |r.value| == |f| - 2
    decreases |f|
  {
    if |f| < 2 || f[0] == 0 || f[0] >= |f| then None
    else
      var n := f[0];
      if n == |f| - 1 then
        if f[n] == 0 then Some(f[1..n]) else None
      else
        match Unstuff(f[n..])
        case None => None
        case Some(rest) => Some(f[1..n] + [0] + rest)
  }

  lemma {:induction false} StuffIsFrame(inner: seq<byte>)
    requires |inner| <= MAX_INNER
    ensures IsFrame(Stuff(inner))
    decreases |inner|
  {
    hide Delimiter, IsFrame;
    var i := Delimiter(inner);
    if i < |inner| {
      StuffIsFrame(inner[i + 1..]);
      FrameAfter([i + 1] + inner[..i], Stuff(inner[i + 1..]));
    } else {
      FrameEnd();
      FrameAfter([i + 1] + inner[..i], [0]);
    }
  }

  lemma FrameEnd()
    ensures IsFrame([0])
  {
  }

  lemma FrameAfter(block: seq<byte>, f: seq<byte>)
    requires IsFrame(f) && forall k :: 0 <= k < |block| ==> block[k] != 0
    ensures IsFrame(block + f)
  {
  }

  lemma UnstuffLast(block: seq<byte>)
    requires |block| <= MAX_INNER
    ensures Unstuff([|block| + 1] + block + [0]) == Some(block)
  {
    var f := [|block| + 1] + block + [0];
    assert f[1..|block| + 1] == block;
  }

  lemma UnstuffMore(block: seq<byte>, g: seq<byte>, rest: seq<byte>)
    requires |block| <= MAX_INNER && |g| >= 2 && Unstuff(g) == Some(rest)
    ensures Unstuff([|block| + 1] + block + g) == Some(block + [0] + rest)
  {
    var f := [|block| + 1] + block + g;
    assert f[1..|block| + 1] == block && f[|block| + 1..] == g;
  }

  /** Decoding inverts encoding. */
  lemma {:induction false} UnstuffStuffed(inner: seq<byte>)
    requires |inner| <= MAX_INNER
    ensures Unstuff(Stuff(inner)) == Some(inner)
    decreases |inner|
  {
    hide Unstuff, Delimiter;
    var i := Delimiter(inner);
    if i < |inner| {
      UnstuffStuffed(inner[i + 1..]);
      UnstuffMore(inner[..i], Stuff(inner[i + 1..]), inner[i + 1..]);
      assert inner == inner[..i] + [0] + inner[i + 1..];
    } else {
      assert inner[..i] == inner;
      UnstuffLast(inner);
    }
  }

  function Encode(raw: seq<byte>): seq<byte> {
    if 2 <= |raw| <= MAX_FRAME then Stuff(raw[1..|raw| - 1]) else raw
  }

  function Decode(sentinel: byte, frame: seq<byte>): Option<seq<byte>> {
    match Unstuff(frame)
    case None => None
    case Some(inner) => Some([sentinel] + inner + [sentinel])
  }

  function TinyFrameCodec(sentinel: byte, hash: seq<byte> -> Checksum): Codec {
    Codec(raw => Encode(raw), frame => Decode(sentinel, frame), sentinel, hash)
  }

  lemma EncodeExact(sentinel: byte, raw: seq<byte>)
    requires MIN_FRAME <= |raw| <= MAX_FRAME && raw[0] == sentinel == raw[|raw| - 1]
    ensures IsFrame(Encode(raw)) && |Encode(raw)| == |raw| && Decode(sentinel, Encode(raw)) == Some(raw)
  {
    hide Stuff, Unstuff, IsFrame;
    var inner := raw[1..|raw| - 1];
    StuffIsFrame(inner);
    UnstuffStuffed(inner);
    assert raw == [sentinel] + inner + [sentinel];
  }

  /** The codec does what the link needs, whatever the checksum. */
  lemma TinyFrameCodecOk(sentinel: byte, hash: seq<byte> -> Checksum)
    ensures CodecOk(TinyFrameCodec(sentinel, hash))
  {
    hide Encode, Decode, IsFrame;
    var c := TinyFrameCodec(sentinel, hash);
    forall raw | Framable(c, raw)
      ensures IsFrame(c.encode(raw)) && |c.encode(raw)| == |raw| && c.decode(c.encode(raw)) == Some(raw)
    {
      EncodeExact(sentinel, raw);
    }
  }

  /** With this codec, packets sent after any noise and a zero byte are delivered exactly, in order. */
  lemma TinyFramesAreReceived(sentinel: byte, hash: seq<byte> -> Checksum, noise: seq<byte>, packets: seq<seq<byte>>)
    requires forall i :: 0 <= i < |packets| ==> |packets[i]| <= MAX_SENT
    ensures var c := TinyFrameCodec(sentinel, hash);
            Packets(c, noise + [0] + Concat(FramesOf(c, packets))) == Packets(c, noise + [0]) + packets
  {
    TinyFrameCodecOk(sentinel, hash);
    hide TinyFrameCodec, CodecOk, Packets, FramesOf;
    SentIsReceived(TinyFrameCodec(sentinel, hash), noise, packets);
  }
}
