/** The receiver of framed packets (packets/over_stream/packet_receiver_over_stream.cpp).

The ghost field `stream` is everything read so far; the buffer holds its unfinished frame, or the position
is 256 when that frame is already too long.
*/
module PacketReceivers {
  import opened Basics
  import opened Segmenter

  class PacketReceiver {
    const buf: array<byte>
    const codec: Codec
    var pos: nat
    ghost var stream: seq<byte>

    ghost predicate Valid()
      reads this, buf
    {
      && buf.Length == MAX_FRAME
      && var rest := Rest(stream);
         if |rest| < MAX_FRAME then pos == |rest| && buf[..pos] == rest else pos == MAX_FRAME
    }

    constructor (codec: Codec)
      ensures Valid() && fresh(buf) && this.codec == codec && stream == []
    {
      buf := new byte[256](_ => 0);
      this.codec := codec;
      pos := 0;
      stream := [];
    }

    /** `memcpy` into the buffer at the current position. */
    method CopyIn(data: seq<byte>)
      requires pos + |data| <= buf.Length
      modifies buf
      ensures buf[..pos + |data|] == old(buf[..pos]) + data
    {
      var i := 0;
      while i < |data|
        invariant 0 <= i <= |data| && buf[..pos] == old(buf[..pos])
        invariant buf[pos..pos + i] == data[..i]
      {
        buf[pos + i] := data[i];
        i := i + 1;
      }
      assert buf[..pos + |data|] == buf[..pos] + buf[pos..pos + |data|];
    }

    /** A piece of data that ends the unfinished frame: returns the packet, if one is delivered. */
    method FinishFrame(data: seq<byte>) returns (packet: Option<seq<byte>>)
      requires Valid() && IsFrame(data)
      modifies this, buf
      ensures Valid() && stream == old(stream) + data
      ensures Packets(codec, stream) == Packets(codec, old(stream)) + (if packet.Some? then [packet.value] else [])
    {
      hide Rest, IsFrame, Packets, Payload;
      var increment := |data|;
      packet := None;
      ghost var frame := Rest(stream) + data;
      FinishedStream(codec, stream, data);
      if pos + increment <= 256 && pos + increment >= 6 {
        if pos == 0 {
          assert data == frame;
          packet := Payload(codec, data);
        } else {
          CopyIn(data);
          packet := Payload(codec, buf[..pos + increment]);
        }
      }
      pos := 0;
      stream := stream + data;
    }

    /** A piece of data with no end of frame in it. */
    method ExtendFrame(data: seq<byte>)
      requires Valid() && (forall k :: 0 <= k < |data| ==> data[k] != 0)
      modifies this, buf
      ensures Valid() && stream == old(stream) + data
      ensures Packets(codec, stream) == Packets(codec, old(stream))
    {
      hide Rest, Packets;
      var increment := |data|;
      ExtendedStream(codec, stream, data);
      if pos + increment < 256 {
        CopyIn(data);
        pos := pos + increment;
      } else {
        pos := 256;
      }
      stream := stream + data;
    }

    /** `processIncoming`: the packets delivered for one read are exactly those it adds to the packets of
        the whole stream, so that how the stream is divided into reads does not matter. */
    method ProcessIncoming(input: seq<byte>) returns (received: seq<seq<byte>>)
      requires Valid()
      modifies this, buf
      ensures Valid() && stream == old(stream) + input
      ensures Packets(codec, stream) == Packets(codec, old(stream)) + received
    {
      hide Packets, Delimiter, Rest, Valid;
      received := [];
      var data := input;
      assert old(stream) + input[..0] == old(stream);
      while |data| > 0
        invariant Valid() && |data| <= |input| && data == input[|input| - |data|..]
        invariant stream == old(stream) + input[..|input| - |data|]
        invariant Packets(codec, stream) == Packets(codec, old(stream)) + received
        decreases |data|
      {
        var increment := Delimiter(data);
        var finished := increment < |data|;
        if finished { increment := increment + 1; }
        var piece := data[..increment];
        CutFirst(data);
        assert input[..|input| - |data|] + piece == input[..|input| - |data| + increment];
        if finished {
          var packet := FinishFrame(piece);
          if packet.Some? { received := received + [packet.value]; }
        } else {
          ExtendFrame(piece);
        }
        data := data[increment..];
      }
    }

    /** A run over any division of a stream into reads. */
    method ProcessAll(parts: seq<seq<byte>>) returns (received: seq<seq<byte>>)
      requires Valid() && stream == []
      modifies this, buf
      ensures Valid() && received == Packets(codec, Concat(parts))
    {
      hide Packets;
      received := [];
      NothingYet(codec);
      ghost var whole := Concat(parts);
      var left := parts;
      while |left| > 0
        invariant Valid() && whole == stream + Concat(left) && received == Packets(codec, stream)
        decreases |left|
      {
        var more := ProcessIncoming(left[0]);
        received := received + more;
        left := left[1..];
      }
      assert whole == stream;
    }
  }

  lemma NothingYet(c: Codec)
    ensures Packets(c, []) == []
  {
  }

  lemma WholeFrame(rest: seq<byte>, data: seq<byte>)
    requires (forall k :: 0 <= k < |rest| ==> rest[k] != 0) && IsFrame(data)
    ensures Frames(rest + data) == [rest + data] && Rest(rest + data) == []
  {
    hide Frames, Rest;
    var f := rest + data;
    assert IsFrame(f);
    FirstFrame(f, []);
    NoFrame([]);
    assert f + [] == f;
  }

  lemma DeliveredOne(c: Codec, f: seq<byte>)
    ensures Delivered(c, [f]) ==
            if MIN_FRAME <= |f| <= MAX_FRAME && Payload(c, f).Some? then [Payload(c, f).value] else []
  {
    assert [f][..0] == [];
  }

  lemma FinishedStream(c: Codec, stream: seq<byte>, data: seq<byte>)
    requires IsFrame(data)
    ensures Rest(stream + data) == [] && data != []
    ensures var f := Rest(stream) + data;
            Packets(c, stream + data) == Packets(c, stream)
              + (if MIN_FRAME <= |f| <= MAX_FRAME && Payload(c, f).Some? then [Payload(c, f).value] else [])
  {
    hide Rest, Frames, Delivered, Payload;
    WholeFrame(Rest(stream), data);
    PacketsOfPieces(c, stream, data);
    FramesOfPieces(stream, data);
    DeliveredOne(c, Rest(stream) + data);
  }

  lemma ExtendedStream(c: Codec, stream: seq<byte>, data: seq<byte>)
    requires forall k :: 0 <= k < |data| ==> data[k] != 0
    ensures Rest(stream + data) == Rest(stream) + data && Packets(c, stream + data) == Packets(c, stream)
  {
    hide Rest, Frames;
    NoFrame(Rest(stream) + data);
    PacketsOfPieces(c, stream, data);
    FramesOfPieces(stream, data);
  }
}
