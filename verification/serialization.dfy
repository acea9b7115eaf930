/** The encoding of RPC arguments and results (rpc/serialization.h): scalars, text, and nested pairs and
tuples whose members carry 16-bit length prefixes. */
module Serialization {
  import opened Basics

  const MAX_MEMBER := 65535

  /** Types; a pair is a tuple of two members, and a tuple has at least one. */
  datatype Type = VoidType | BoolType | IntType(width: nat, signed: bool) | TextType | TupleType(members: Types)
  datatype Types = Last(t: Type) | More(t: Type, rest: Types)

  datatype Value =
    | VoidValue
    | BoolValue(b: bool)
    | IntValue(width: nat, n: int)
    | Text(bytes: seq<byte>)
    | Tuple(members: Values)
  datatype Values = Final(v: Value) | Cons(v: Value, rest: Values)

  /** The value is one of the type. */
  predicate HasType(v: Value, t: Type) {
    match t
    case VoidType => v.VoidValue?
    case BoolType => v.BoolValue?
    case IntType(width, signed) =>
      v.IntValue? && v.width == width
      && InRange(v.n, width, signed)
    case TextType => v.Text?
    case TupleType(ts) => v.Tuple? && HaveTypes(v.members, ts)
  }

  predicate InRange(n: int, width: nat, signed: bool) {
    if signed then 0 <= 2 * n + Pow256(width) < 2 * Pow256(width) else 0 <= n < Pow256(width)
  }

  predicate HaveTypes(vs: Values, ts: Types) {
    match ts
    case Last(t) => vs.Final? && HasType(vs.v, t)
    case More(t, rest) => vs.Cons? && HasType(vs.v, t) && HaveTypes(vs.rest, rest)
  }

  // ----- big-endian integers -----

  function Pow256(w: nat): (r: nat)
    ensures r > 0
  {
    if w == 0 then 1 else 256 * Pow256(w - 1)
  }

  /** The `w` low-order bytes of a number, most significant first; two's complement for negative ones. */
  function StoreBe(n: int, w: nat): (r: seq<byte>)
    ensures |r| == w
    decreases w
  {
    if w == 0 then [] else StoreBe(n / 256, w - 1) + [n % 256]
  }

  function LoadBe(bytes: seq<byte>): (n: nat)
    ensures n < Pow256(|bytes|)
  {
    if bytes == [] then 0 else 256 * LoadBe(bytes[..|bytes| - 1]) + bytes[|bytes| - 1]
  }

  function LoadSigned(bytes: seq<byte>): int {
    var n := LoadBe(bytes);
    if 2 * n < Pow256(|bytes|) then n else n - Pow256(|bytes|)
  }

  lemma {:induction false} LoadOfStore(n: nat, w: nat)
    requires n < Pow256(w)
    ensures LoadBe(StoreBe(n, w)) == n
  {
    if w > 0 {
      LoadOfStore(n / 256, w - 1);
      assert StoreBe(n, w)[..w - 1] == StoreBe(n / 256, w - 1);
    }
  }

  lemma {:induction false} StoreOfLoad(bytes: seq<byte>)
    ensures StoreBe(LoadBe(bytes), |bytes|) == bytes
  {
    if bytes != [] {
      StoreOfLoad(bytes[..|bytes| - 1]);
      assert bytes == bytes[..|bytes| - 1] + [bytes[|bytes| - 1]];
    }
  }

  /** Numbers that differ by a multiple of the modulus have the same bytes. */
  lemma {:induction false} StoreShift(n: int, w: nat)
    ensures StoreBe(n + Pow256(w), w) == StoreBe(n, w)
    decreases w
  {
    if w > 0 {
      assert (n + Pow256(w)) / 256 == n / 256 + Pow256(w - 1) && (n + Pow256(w)) % 256 == n % 256;
      StoreShift(n / 256, w - 1);
    }
  }

  lemma SignedInverse(n: int, w: nat)
    requires InRange(n, w, true)
    ensures LoadSigned(StoreBe(n, w)) == n
  {
    if n < 0 {
      StoreShift(n, w);
      LoadOfStore(n + Pow256(w), w);
    } else {
      LoadOfStore(n, w);
    }
  }

  lemma SignedCanonical(bytes: seq<byte>)
    ensures InRange(LoadSigned(bytes), |bytes|, true) && StoreBe(LoadSigned(bytes), |bytes|) == bytes
  {
    hide StoreBe, LoadBe, Pow256;
    StoreOfLoad(bytes);
    StoreShift(LoadBe(bytes) - Pow256(|bytes|), |bytes|);
  }

  // ----- the encoding -----

  /** The recursive length-prefixed encoding. */
  function Encode(v: Value): seq<byte>
    decreases v, 1
  {
    match v
    case VoidValue => []
    case BoolValue(b) => [if b then 1 else 0]
    case IntValue(width, n) => StoreBe(n, width)
    case Text(bytes) => bytes
    case Tuple(vs) => EncodeAll(vs)
  }

  function EncodeAll(vs: Values): seq<byte>
    decreases vs, 3
  {
    match vs
    case Final(v) => EncodeMember(v)
    case Cons(v, rest) => EncodeMember(v) + EncodeAll(rest)
  }

  function EncodeMember(v: Value): seq<byte>
    decreases v, 2
  {
    StoreBe(|Encode(v)|, 2) + Encode(v)
  }

  /** No member, at any depth, encodes to more bytes than its prefix can count. */
  predicate Fits(v: Value)
    decreases v, 1
  {
    v.Tuple? ==> AllFit(v.members)
  }

  predicate AllFit(vs: Values)
    decreases vs, 3
  {
    match vs
    case Final(v) => MemberFits(v)
    case Cons(v, rest) => MemberFits(v) && AllFit(rest)
  }

  predicate MemberFits(v: Value)
    decreases v, 2
  {
    Fits(v) && |Encode(v)| <= MAX_MEMBER
  }

  // ----- decoding -----

  function Decode(t: Type, bytes: seq<byte>): Option<Value>
    decreases t, 1
  {
    match t
    case VoidType => if |bytes| != 0 then None else Some(VoidValue)
    case BoolType => if |bytes| != 1 || bytes[0] > 1 then None else Some(BoolValue(bytes[0] != 0))
    case IntType(width, signed) =>
      if |bytes| != width then None else Some(IntValue(width, if signed then LoadSigned(bytes) else LoadBe(bytes)))
    case TextType => Some(Text(bytes))
    case TupleType(ts) =>
      match DecodeAll(ts, bytes)
      case None => None
      case Some(vs) => Some(Tuple(vs))
  }

  datatype Parsed = Parsed(v: Value, rest: seq<byte>)

  /** `DeserializeMember`: the value of the first member and the bytes after it. */
  function DecodeMember(t: Type, bytes: seq<byte>): (r: Option<Parsed>)
    decreases t, 2
  {
    if |bytes| < 2 then None
    else
      var n := LoadBe(bytes[..2]);
      if |bytes| - 2 < n then None
      else
        match Decode(t, bytes[2..2 + n])
        case None => None
        case Some(v) => Some(Parsed(v, bytes[2 + n..]))
  }

  function DecodeAll(ts: Types, bytes: seq<byte>): Option<Values>
    decreases ts, 3
  {
    match DecodeMember(ts.t, bytes)
    case None => None
    case Some(p) =>
      match ts
      case Last(_) => if p.rest != [] then None else Some(Final(p.v))
      case More(_, rest) =>
        match DecodeAll(rest, p.rest)
        case None => None
        case Some(vs) => Some(Cons(p.v, vs))
  }

  // ----- the parser inverts the encoding -----

  lemma PrefixOf(n: nat, tail: seq<byte>)
    requires n <= MAX_MEMBER
    ensures var bytes := StoreBe(n, 2) + tail;
            bytes[..2] == StoreBe(n, 2) && LoadBe(bytes[..2]) == n && bytes[2..] == tail
  {
    var bytes := StoreBe(n, 2) + tail;
    assert bytes[..2] == StoreBe(n, 2);
    assert Pow256(2) == 256 * Pow256(1) == 65536;
    LoadOfStore(n, 2);
  }

  lemma {:induction false} DecodeEncoded(v: Value, t: Type)
    requires HasType(v, t) && Fits(v)
    ensures Decode(t, Encode(v)) == Some(v)
    decreases v, 1
  {
    match t
    case VoidType =>
    case BoolType =>
    case IntType(width, signed) => if signed { SignedInverse(v.n, width); } else { LoadOfStore(v.n, width); }
    case TextType =>
    case TupleType(ts) => DecodeAllEncoded(v.members, ts);
  }

  lemma {:induction false} DecodeMemberEncoded(v: Value, t: Type, tail: seq<byte>)
    requires HasType(v, t) && MemberFits(v)
    ensures DecodeMember(t, EncodeMember(v) + tail) == Some(Parsed(v, tail))
    decreases v, 2
  {
    var code := Encode(v);
    var bytes := EncodeMember(v) + tail;
    assert bytes == StoreBe(|code|, 2) + (code + tail);
    PrefixOf(|code|, code + tail);
    assert bytes[2..2 + |code|] == (code + tail)[..|code|] == code;
    assert bytes[2 + |code|..] == (code + tail)[|code|..] == tail;
    DecodeEncoded(v, t);
  }

  lemma {:induction false} DecodeAllEncoded(vs: Values, ts: Types)
    requires HaveTypes(vs, ts) && AllFit(vs)
    ensures DecodeAll(ts, EncodeAll(vs)) == Some(vs)
    decreases vs, 3
  {
    match vs
    case Final(v) =>
      DecodeMemberEncoded(v, ts.t, []);
      assert EncodeMember(v) + [] == EncodeMember(v);
    case Cons(v, rest) =>
      DecodeMemberEncoded(v, ts.t, EncodeAll(rest));
      DecodeAllEncoded(rest, ts.rest);
  }

  lemma {:induction false} EncodeDecoded(t: Type, bytes: seq<byte>)
    requires Decode(t, bytes).Some?
    ensures var v := Decode(t, bytes).value; HasType(v, t) && Fits(v) && Encode(v) == bytes
    decreases t, 1
  {
    match t
    case VoidType =>
    case BoolType =>
    case IntType(width, signed) => if signed { SignedCanonical(bytes); } else { StoreOfLoad(bytes); }
    case TextType =>
    case TupleType(ts) => EncodeAllDecoded(ts, bytes);
  }

  lemma {:induction false} EncodeMemberDecoded(t: Type, bytes: seq<byte>)
    requires DecodeMember(t, bytes).Some?
    ensures var p := DecodeMember(t, bytes).value;
            HasType(p.v, t) && MemberFits(p.v) && EncodeMember(p.v) + p.rest == bytes
    decreases t, 2
  {
    var n := LoadBe(bytes[..2]);
    assert Pow256(2) == 256 * Pow256(1) == 65536;
    EncodeDecoded(t, bytes[2..2 + n]);
    StoreOfLoad(bytes[..2]);
    assert bytes == bytes[..2] + bytes[2..2 + n] + bytes[2 + n..];
  }

  lemma {:induction false} EncodeAllDecoded(ts: Types, bytes: seq<byte>)
    requires DecodeAll(ts, bytes).Some?
    ensures var vs := DecodeAll(ts, bytes).value; HaveTypes(vs, ts) && AllFit(vs) && EncodeAll(vs) == bytes
    decreases ts, 3
  {
    EncodeMemberDecoded(ts.t, bytes);
    var p := DecodeMember(ts.t, bytes).value;
    match ts
    case Last(_) => assert EncodeMember(p.v) + [] == EncodeMember(p.v);
    case More(_, rest) => EncodeAllDecoded(rest, p.rest);
  }

  /** Two-sided inverse, for every type and every byte string: a string is accepted as a value exactly
      when it is that value's encoding, and the value is of the type and could be serialized. */
  lemma DecodeIffEncoded(t: Type, bytes: seq<byte>, v: Value)
    ensures Decode(t, bytes) == Some(v) <==> HasType(v, t) && Fits(v) && Encode(v) == bytes
  {
    if Decode(t, bytes) == Some(v) {
      EncodeDecoded(t, bytes);
    } else if HasType(v, t) && Fits(v) && Encode(v) == bytes {
      DecodeEncoded(v, t);
    }
  }
}
