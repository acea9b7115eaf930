/** The buffer that members are serialized into: each member reserves two bytes, writes itself behind them,
and goes back to fill in its length (rpc/serialization.h). */
module DynamicSerializing {
  import opened Basics
  import opened Serialization

  /** The content once zeros fill the gap up to a position. */
  function Pad(data: seq<byte>, pos: nat): seq<byte> {
    if pos <= |data| then data else data + seq(pos - |data|, _ => 0)
  }

  /** The content after bytes are written at a position. */
  function Overlay(data: seq<byte>, pos: nat, bytes: seq<byte>): seq<byte> {
    var d := Pad(data, pos);
    d[..pos] + bytes + (if pos + |bytes| <= |d| then d[pos + |bytes|..] else [])
  }

  lemma OverlayAtEnd(data: seq<byte>, pos: nat, bytes: seq<byte>)
    requires pos >= |data|
    ensures Overlay(data, pos, bytes) == Pad(data, pos) + bytes && |Pad(data, pos)| == pos
  {
    var d := Pad(data, pos);
    assert d[..pos] == d;
  }

  lemma OverlayTwice(data: seq<byte>, pos: nat, a: byte, b: byte)
    ensures Overlay(Overlay(data, pos, [a]), pos + 1, [b]) == Overlay(data, pos, [a, b])
  {
  }

  /** Filling in the two bytes reserved before a member's code. */
  lemma BackPatch(data: seq<byte>, begin: nat, code: seq<byte>, prefix: seq<byte>)
    requires begin >= |data| && |prefix| == 2
    ensures Overlay(Pad(data, begin + 2) + code, begin, prefix) == Pad(data, begin) + (prefix + code)
  {
    var d := Pad(data, begin + 2) + code;
    assert d[..begin] == Pad(data, begin);
    assert d[begin + 2..] == code;
  }

  class DynamicSerialized {
    var ok: bool
    var data: seq<byte>
    var pos: nat

    constructor ()
      ensures ok && data == [] && pos == 0
    {
      ok, data, pos := true, [], 0;
    }

    method Fail()
      modifies this
      ensures !ok && data == [] && pos == 0
    {
      ok, data, pos := false, [], 0;
    }

    method Seek(position: nat)
      modifies `pos
      ensures pos == position
    {
      pos := position;
    }

    method WriteByte(b: byte)
      modifies `data, `pos
      ensures data == Overlay(old(data), old(pos), [b]) && pos == old(pos) + 1
    {
      if pos >= |data| {
        if pos > |data| { data := data + seq(pos - |data|, _ => 0); }
        data := data + [b];
      } else {
        data := data[pos := b];
      }
      pos := pos + 1;
    }

    method WriteBytes(bytes: seq<byte>) returns (count: nat)
      modifies `data, `pos
      ensures data == Overlay(old(data), old(pos), bytes) && pos == old(pos) + |bytes| && count == |bytes|
    {
      if pos > |data| { data := data + seq(pos - |data|, _ => 0); }
      ghost var d := data;
      assert d == Pad(old(data), old(pos));
      var copyOver := |data| - pos;
      if copyOver > |bytes| { copyOver := |bytes|; }
      data := data[..pos] + bytes[..copyOver] + data[pos + copyOver..];
      pos := pos + copyOver;
      var remaining := |bytes| - copyOver;
      if remaining == 0 {
        assert bytes[..copyOver] == bytes;
        return copyOver;
      }
      assert pos == |d| && data == d[..old(pos)] + bytes[..copyOver];
      assert bytes[..copyOver] + bytes[copyOver..] == bytes;
      data := data + bytes[copyOver..];
      pos := pos + remaining;
      return |bytes|;
    }

    method WriteBeU16(n: nat)
      requires n <= MAX_MEMBER
      modifies `data, `pos
      ensures data == Overlay(old(data), old(pos), StoreBe(n, 2)) && pos == old(pos) + 2
    {
      OverlayTwice(data, pos, n / 256, n % 256);
      assert StoreBe(n / 256, 1) == StoreBe(n / 256 / 256, 0) + [n / 256];
      assert StoreBe(n, 2) == [n / 256, n % 256];
      WriteByte(n / 256);
      WriteByte(n % 256);
    }

    /** Serialization of a whole value: it appends exactly its encoding, or fails as a whole when some
        member is too long.  A position past the end is first reached with zeros. */
    method SerializeInto(v: Value)
      requires ok && pos >= |data|
      modifies this
      ensures ok == Fits(v)
      ensures ok ==> data == Pad(old(data), old(pos)) + Encode(v) && pos == |data|
      ensures !ok ==> data == [] && pos == 0
      decreases v, 1
    {
      OverlayAtEnd(data, pos, Encode(v));
      if v.Tuple? {
        SerializeAllInto(v.members);
      } else {
        var bytes := Encode(v);
        var count := WriteBytes(bytes);
      }
    }

    /** The members of a pair or tuple, one after the other. */
    method SerializeAllInto(vs: Values)
      requires ok && pos >= |data|
      modifies this
      ensures ok == AllFit(vs)
      ensures ok ==> data == Pad(old(data), old(pos)) + EncodeAll(vs) && pos == |data|
      ensures !ok ==> data == [] && pos == 0
      decreases vs, 3
    {
      SerializeMemberInto(vs.v);
      if !ok { return; }
      if vs.Cons? {
        assert Pad(data, pos) == data;
        SerializeAllInto(vs.rest);
      }
    }

    method SerializeMemberInto(v: Value)
      requires ok && pos >= |data|
      modifies this
      ensures ok == MemberFits(v)
      ensures ok ==> data == Pad(old(data), old(pos)) + EncodeMember(v) && pos == |data|
      ensures !ok ==> data == [] && pos == 0
      decreases v, 2
    {
      var begin := pos;
      Seek(begin + 2);
      SerializeInto(v);
      if !ok { return; }
      var end := pos;
      var len := end - (begin + 2);
      assert len == |Encode(v)|;
      if len > 65535 {
        Fail();
        return;
      }
      BackPatch(old(data), begin, Encode(v), StoreBe(len, 2));
      Seek(begin);
      WriteBeU16(len);
      Seek(end);
    }
  }

  /** Serialization into a new buffer, as the serializers of pairs and tuples do it. */
  method Serialize(v: Value) returns (r: Option<seq<byte>>)
    ensures r == if Fits(v) then Some(Encode(v)) else None
  {
    var out := new DynamicSerialized();
    out.SerializeInto(v);
    assert Pad([], 0) + Encode(v) == Encode(v);
    r := if out.ok then Some(out.data) else None;
  }
}
