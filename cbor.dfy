/**
 * A definite-length CBOR data model (RFC 8949) with the deterministic
 * (shortest-argument) encoder and a decoder that reads one data item off the
 * front of a byte string. Encoded CBOR sequences (RFC 8742) are the
 * concatenation of their items.
 */
module Cbor {
  import opened Types

  datatype Cbor =
    | Int(v: int)                  // major types 0 and 1
    | Bytes(b: seq<byte>)          // major type 2
    | Text(t: seq<byte>)           // major type 3, the UTF-8 octets
    | Array(items: seq<Cbor>)      // major type 4
    | Map(kv: seq<Cbor>)           // major type 5, keys and values interleaved
    | Tag(tag: nat, item: Cbor)    // major type 6
    | Simple(n: nat)               // major type 7: false = 20, true = 21, null = 22
    | Float(width: nat, bits: nat) // major type 7, IEEE 754 half/single/double bits

  const True := Simple(21)
  const False := Simple(20)
  const Null := Simple(22)

  const TWO64: int := 0x1_0000_0000_0000_0000

  /** The type a CBOR library reports for an item; tags are transparent to it. */
  datatype CborType = Integer | ByteString | TextString | ArrayType | MapType | Boolean | SimpleValue | FloatingPoint

  function Untag(x: Cbor): (r: Cbor)
    ensures !r.Tag?
    ensures !x.Tag? ==> r == x
  {
    if x.Tag? then Untag(x.item) else x
  }

  function TypeOf(x: Cbor): CborType
  {
    match Untag(x)
    case Int(_) => Integer
    case Bytes(_) => ByteString
    case Text(_) => TextString
    case Array(_) => ArrayType
    case Map(_) => MapType
    case Simple(n) => if n == 20 || n == 21 then Boolean else SimpleValue
    case Float(_, _) => FloatingPoint
    case Tag(_, _) => Integer // unreachable: Untag removes every tag
  }

  /** The library's `AsInt32`: the value of an integer item that fits in 32 bits. */
  function AsInt32(x: Cbor): (r: Result<int, Exception>)
    ensures r.Ok? <==> TypeOf(x) == Integer && IsInt32(Untag(x).v)
    ensures r.Ok? ==> r.value == Untag(x).v
  {
    if TypeOf(x) != Integer then Err(IllegalState("not a number"))
    else if IsInt32(Untag(x).v) then Ok(Untag(x).v)
    else Err(Arithmetic)
  }

  /** Values that have an encoding: arguments fit in 64 bits, maps have whole pairs. */
  predicate Valid(x: Cbor)
  {
    match x
    case Int(v) => -TWO64 <= v < TWO64
    case Bytes(b) => |b| < TWO64
    case Text(t) => |t| < TWO64
    case Array(items) => |items| < TWO64 && forall i :: 0 <= i < |items| ==> Valid(items[i])
    case Map(kv) => |kv| % 2 == 0 && |kv| / 2 < TWO64 && forall i :: 0 <= i < |kv| ==> Valid(kv[i])
    case Tag(tag, item) => tag < TWO64 && Valid(item)
    case Simple(n) => n < 24 || 32 <= n < 256
    case Float(w, bits) => (w == 2 || w == 4 || w == 8) && bits < Pow256(w)
  }

  predicate ValidSeq(xs: seq<Cbor>)
  {
    forall i :: 0 <= i < |xs| ==> Valid(xs[i])
  }

  function Pow256(w: nat): (r: nat)
    ensures r >= 1
  {
    if w == 0 then 1 else 256 * Pow256(w - 1)
  }

  /** The `w` low-order octets of `a`, most significant first. */
  function BigEndian(a: nat, w: nat): (r: seq<byte>)
    ensures |r| == w
  {
    if w == 0 then [] else BigEndian(a / 256, w - 1) + [(a % 256) as byte]
  }

  function FromBigEndian(s: seq<byte>): nat
  {
    if s == [] then 0 else FromBigEndian(s[..|s| - 1]) * 256 + s[|s| - 1] as nat
  }

  lemma {:induction false} BigEndianRoundTrip(a: nat, w: nat)
    requires a < Pow256(w)
    ensures FromBigEndian(BigEndian(a, w)) == a
    decreases w
  {
    if w > 0 {
      var s := BigEndian(a, w);
      assert s[..|s| - 1] == BigEndian(a / 256, w - 1);
      BigEndianRoundTrip(a / 256, w - 1);
    }
  }

  /** The initial byte(s) of an item of major type `major` with argument `arg`, in shortest form. */
  function EncodeHead(major: nat, arg: nat): (r: seq<byte>)
    requires major < 8
    ensures 1 <= |r| <= 9
  {
    var m := major * 32;
    if arg < 24 then [(m + arg) as byte]
    else if arg < 0x100 then [(m + 24) as byte] + BigEndian(arg, 1)
    else if arg < 0x1_0000 then [(m + 25) as byte] + BigEndian(arg, 2)
    else if arg < 0x1_0000_0000 then [(m + 26) as byte] + BigEndian(arg, 4)
    else [(m + 27) as byte] + BigEndian(arg, 8)
  }

  function Encode(x: Cbor): (r: seq<byte>)
    ensures |r| >= 1
  {
    match x
    case Int(v) => if v >= 0 then EncodeHead(0, v) else EncodeHead(1, -1 - v)
    case Bytes(b) => EncodeHead(2, |b|) + b
    case Text(t) => EncodeHead(3, |t|) + t
    case Array(items) => EncodeHead(4, |items|) + EncodeSequence(items)
    case Map(kv) => EncodeHead(5, |kv| / 2) + EncodeSequence(kv)
    case Tag(tag, item) => EncodeHead(6, tag) + Encode(item)
    case Simple(n) => if n < 24 then [(0xE0 + n) as byte] else [0xF8] + BigEndian(n, 1)
    case Float(w, bits) =>
      if w == 2 then [0xF9] + BigEndian(bits, 2)
      else if w == 4 then [0xFA] + BigEndian(bits, 4)
      else [0xFB] + BigEndian(bits, 8)
  }

  /** An encoded CBOR sequence: the items' encodings one after the other. */
  function EncodeSequence(xs: seq<Cbor>): seq<byte>
  {
    if xs == [] then [] else Encode(xs[0]) + EncodeSequence(xs[1..])
  }

  datatype Head = Head(major: nat, ai: nat, arg: nat, rest: seq<byte>)

  /** The initial byte and argument of the item at the front of `s`; indefinite lengths and reserved values fail. */
  function ReadHead(s: seq<byte>): (r: Option<Head>)
    ensures r.Some? ==> r.value.major < 8 && |r.value.rest| < |s|
  {
    if |s| == 0 then None
    else
      var b := s[0] as int;
      var ai := b % 32;
      if ai < 24 then Some(Head(b / 32, ai, ai, s[1..]))
      else if ai < 28 then
        var w := ArgWidth(ai);
        if |s| < 1 + w then None else Some(Head(b / 32, ai, FromBigEndian(s[1..1 + w]), s[1 + w..]))
      else None
  }

  /** The number of argument octets that follow an initial byte with additional information 24..27. */
  function ArgWidth(ai: int): nat
  {
    if ai == 24 then 1 else if ai == 25 then 2 else if ai == 26 then 4 else 8
  }

  datatype Parsed = Parsed(value: Cbor, rest: seq<byte>)

  /** Reads one data item off the front of `s` and returns it with the bytes after it. */
  function Read(s: seq<byte>): (r: Option<Parsed>)
    ensures r.Some? ==> |r.value.rest| < |s|
    decreases |s|, 1
  {
    match ReadHead(s)
    case None => None
    case Some(h) => ReadBody(h)
  }

  /** The item whose initial byte and argument are `h`, its content read from `h.rest`. */
  function ReadBody(h: Head): (r: Option<Parsed>)
    ensures r.Some? ==> |r.value.rest| <= |h.rest|
    decreases |h.rest|, 3
  {
    if h.major == 4 then
      match ReadItems(h.rest, h.arg)
      case None => None
      case Some((items, rest)) => Some(Parsed(Array(items), rest))
    else if h.major == 5 then
      match ReadItems(h.rest, 2 * h.arg)
      case None => None
      case Some((kv, rest)) => Some(Parsed(Map(kv), rest))
    else if h.major == 6 then
      match Read(h.rest)
      case None => None
      case Some(p) => Some(Parsed(Tag(h.arg, p.value), p.rest))
    else ReadScalar(h)
  }

  /** Items of the major types without nested items: integers, strings and simple values. */
  function ReadScalar(h: Head): (r: Option<Parsed>)
    ensures r.Some? ==> |r.value.rest| <= |h.rest|
  {
    if h.major == 0 then Some(Parsed(Int(h.arg), h.rest))
    else if h.major == 1 then Some(Parsed(Int(-1 - h.arg), h.rest))
    else if h.major == 2 || h.major == 3 then
      if h.arg > |h.rest| then None
      else
        var body := h.rest[..h.arg];
        Some(Parsed(if h.major == 2 then Bytes(body) else Text(body), h.rest[h.arg..]))
    else if h.ai < 24 then Some(Parsed(Simple(h.ai), h.rest))
    else if h.ai == 24 then (if h.arg < 32 then None else Some(Parsed(Simple(h.arg), h.rest)))
    else Some(Parsed(Float(ArgWidth(h.ai), h.arg), h.rest))
  }

  /** Reads `n` consecutive items. */
  function ReadItems(s: seq<byte>, n: nat): (r: Option<(seq<Cbor>, seq<byte>)>)
    ensures r.Some? ==> |r.value.0| == n && |r.value.1| <= |s|
    decreases |s|, 2, n
  {
    if n == 0 then Some(([], s))
    else
      match Read(s)
      case None => None
      case Some(p) =>
        match ReadItems(p.rest, n - 1)
        case None => None
        case Some((items, rest)) => Some(([p.value] + items, rest))
  }

  /** The whole of `s` as exactly one data item (the library's `DecodeFromBytes`). */
  function Decode(s: seq<byte>): (r: Option<Cbor>)
    ensures r.Some? <==> Read(s).Some? && Read(s).value.rest == []
  {
    match Read(s)
    case Some(p) => if p.rest == [] then Some(p.value) else None
    case None => None
  }

  /** The whole of `s` as a CBOR sequence (the library's `DecodeSequenceFromBytes`). */
  function DecodeSequence(s: seq<byte>): Option<seq<Cbor>>
    decreases |s|
  {
    if s == [] then Some([])
    else
      match Read(s)
      case None => None
      case Some(p) =>
        match DecodeSequence(p.rest)
        case None => None
        case Some(tail) => Some([p.value] + tail)
  }

  function ArgInfo(arg: nat): nat
  {
    if arg < 24 then arg else if arg < 0x100 then 24 else if arg < 0x1_0000 then 25
    else if arg < 0x1_0000_0000 then 26 else 27
  }

  lemma ReadEncodeHead(major: nat, arg: nat, rest: seq<byte>)
    requires major < 8 && arg < TWO64
    ensures ReadHead(EncodeHead(major, arg) + rest) == Some(Head(major, ArgInfo(arg), arg, rest))
  {
    if arg < 24 {
      ReadHeadShort(major, arg, rest);
    } else {
      Pow256Values();
      var ai := ArgInfo(arg);
      assert EncodeHead(major, arg) == [(major * 32 + ai) as byte] + BigEndian(arg, ArgWidth(ai));
      ReadHeadWide(major, ai, arg, rest);
    }
  }

  lemma ReadHeadShort(major: nat, arg: nat, rest: seq<byte>)
    requires major < 8 && arg < 24
    ensures ReadHead(EncodeHead(major, arg) + rest) == Some(Head(major, arg, arg, rest))
  {
    assert (EncodeHead(major, arg) + rest)[1..] == rest;
    assert (major * 32 + arg) % 32 == arg && (major * 32 + arg) / 32 == major;
  }

  lemma Pow256Values()
    ensures Pow256(1) == 0x100 && Pow256(2) == 0x1_0000
    ensures Pow256(4) == 0x1_0000_0000 && Pow256(8) == TWO64
  {
    assert Pow256(2) == 0x1_0000;
    assert Pow256(4) == 0x1_0000_0000;
  }

  /** An initial byte with additional information 24..27 followed by its argument octets. */
  lemma ReadHeadWide(major: nat, ai: nat, arg: nat, rest: seq<byte>)
    requires major < 8 && 24 <= ai < 28 && arg < Pow256(ArgWidth(ai))
    ensures ReadHead([(major * 32 + ai) as byte] + BigEndian(arg, ArgWidth(ai)) + rest)
         == Some(Head(major, ai, arg, rest))
  {
    var w := ArgWidth(ai);
    ReadBigEndianTail((major * 32 + ai) as byte, arg, w, rest);
    assert (major * 32 + ai) % 32 == ai && (major * 32 + ai) / 32 == major;
  }

  lemma ReadBigEndianTail(lead: byte, a: nat, w: nat, rest: seq<byte>)
    requires w == 1 || w == 2 || w == 4 || w == 8
    requires a < Pow256(w)
    ensures var s := [lead] + BigEndian(a, w) + rest;
      s[1..1 + w] == BigEndian(a, w) && s[1 + w..] == rest && FromBigEndian(s[1..1 + w]) == a
  {
    BigEndianRoundTrip(a, w);
    var s := [lead] + BigEndian(a, w) + rest;
    assert s[1..1 + w] == BigEndian(a, w);
    assert s[1 + w..] == rest;
  }

  lemma ReadEncodeInt(v: int, rest: seq<byte>)
    requires -TWO64 <= v < TWO64
    ensures Read(Encode(Int(v)) + rest) == Some(Parsed(Int(v), rest))
  {
    if v >= 0 { ReadEncodeHead(0, v, rest); } else { ReadEncodeHead(1, -1 - v, rest); }
  }

  lemma ReadEncodeString(major: nat, body: seq<byte>, rest: seq<byte>)
    requires (major == 2 || major == 3) && |body| < TWO64
    ensures Read(EncodeHead(major, |body|) + body + rest)
         == Some(Parsed(if major == 2 then Bytes(body) else Text(body), rest))
  {
    assert EncodeHead(major, |body|) + body + rest == EncodeHead(major, |body|) + (body + rest);
    ReadEncodeHead(major, |body|, body + rest);
    var h := Head(major, ArgInfo(|body|), |body|, body + rest);
    assert (body + rest)[..|body|] == body && (body + rest)[|body|..] == rest;
    assert ReadScalar(h) == Some(Parsed(if major == 2 then Bytes(body) else Text(body), rest));
    assert ReadBody(h) == ReadScalar(h);
  }

  lemma ReadEncodeSimple(n: nat, rest: seq<byte>)
    requires n < 24 || 32 <= n < 256
    ensures Read(Encode(Simple(n)) + rest) == Some(Parsed(Simple(n), rest))
  {
    if n < 24 {
      assert ([(0xE0 + n) as byte] + rest)[1..] == rest;
    } else {
      assert Pow256(1) == 256;
      ReadHeadWide(7, 24, n, rest);
      assert ReadScalar(Head(7, 24, n, rest)) == Some(Parsed(Simple(n), rest));
    }
  }

  lemma ReadEncodeFloat(w: nat, bits: nat, rest: seq<byte>)
    requires (w == 2 || w == 4 || w == 8) && bits < Pow256(w)
    ensures Read(Encode(Float(w, bits)) + rest) == Some(Parsed(Float(w, bits), rest))
  {
    var ai := if w == 2 then 25 else if w == 4 then 26 else 27;
    assert ArgWidth(ai) == w;
    ReadHeadWide(7, ai, bits, rest);
    var h := Head(7, ai, bits, rest);
    assert ReadScalar(h) == Some(Parsed(Float(w, bits), rest));
  }

  /** Reading back an encoding yields the value and leaves what followed it. */
  lemma {:induction false} ReadEncode(x: Cbor, rest: seq<byte>)
    requires Valid(x)
    ensures Read(Encode(x) + rest) == Some(Parsed(x, rest))
    decreases x, 2
  {
    match x
    case Int(v) => ReadEncodeInt(v, rest);
    case Bytes(b) => ReadEncodeString(2, b, rest);
    case Text(t) => ReadEncodeString(3, t, rest);
    case Array(items) => ReadEncodeArray(items, rest, x);
    case Map(kv) => ReadEncodeMap(kv, rest, x);
    case Tag(tag, item) => ReadEncodeTag(tag, item, rest, x);
    case Simple(n) => ReadEncodeSimple(n, rest);
    case Float(w, bits) => ReadEncodeFloat(w, bits, rest);
  }

  lemma {:induction false} ReadEncodeArray(items: seq<Cbor>, rest: seq<byte>, parent: Cbor)
    requires parent == Array(items) && Valid(parent)
    ensures Read(Encode(parent) + rest) == Some(Parsed(parent, rest))
    decreases parent, 1
  {
    var head, tail := EncodeHead(4, |items|), EncodeSequence(items) + rest;
    assert Encode(parent) == head + EncodeSequence(items);
    assert Encode(parent) + rest == head + tail;
    ReadEncodeHead(4, |items|, tail);
    ReadItemsEncode(items, rest, parent);
    assert ReadBody(Head(4, ArgInfo(|items|), |items|, tail)) == Some(Parsed(parent, rest));
  }

  lemma {:induction false} ReadEncodeMap(kv: seq<Cbor>, rest: seq<byte>, parent: Cbor)
    requires parent == Map(kv) && Valid(parent)
    ensures Read(Encode(parent) + rest) == Some(Parsed(parent, rest))
    decreases parent, 1
  {
    var head, tail := EncodeHead(5, |kv| / 2), EncodeSequence(kv) + rest;
    assert Encode(parent) == head + EncodeSequence(kv);
    assert Encode(parent) + rest == head + tail;
    ReadEncodeHead(5, |kv| / 2, tail);
    var h := Head(5, ArgInfo(|kv| / 2), |kv| / 2, tail);
    assert 2 * h.arg == |kv|;
    ReadItemsEncode(kv, rest, parent);
    assert ReadBody(h) == Some(Parsed(parent, rest));
  }

  lemma {:induction false} ReadEncodeTag(tag: nat, item: Cbor, rest: seq<byte>, parent: Cbor)
    requires parent == Tag(tag, item) && Valid(parent)
    ensures Read(Encode(parent) + rest) == Some(Parsed(parent, rest))
    decreases parent, 1
  {
    var head, tail := EncodeHead(6, tag), Encode(item) + rest;
    assert Encode(parent) == head + Encode(item);
    assert Encode(parent) + rest == head + tail;
    ReadEncodeHead(6, tag, tail);
    ReadEncode(item, rest);
    assert ReadBody(Head(6, ArgInfo(tag), tag, tail)) == Some(Parsed(parent, rest));
  }

  lemma {:induction false} ReadItemsEncode(xs: seq<Cbor>, rest: seq<byte>, parent: Cbor)
    requires forall i :: 0 <= i < |xs| ==> Valid(xs[i]) && xs[i] < parent
    ensures ReadItems(EncodeSequence(xs) + rest, |xs|) == Some((xs, rest))
    decreases parent, 0, |xs|
  {
    if xs != [] {
      var tail := EncodeSequence(xs[1..]) + rest;
      EncodeSequenceCons(xs, rest);
      ReadEncode(xs[0], tail);
      ReadItemsEncode(xs[1..], rest, parent);
      ReadItemsStep(EncodeSequence(xs) + rest, |xs|, Parsed(xs[0], tail), xs[1..], rest);
    } else {
      assert EncodeSequence(xs) + rest == rest;
    }
  }

  lemma EncodeSequenceCons(xs: seq<Cbor>, rest: seq<byte>)
    requires xs != []
    ensures EncodeSequence(xs) + rest == Encode(xs[0]) + (EncodeSequence(xs[1..]) + rest)
    ensures [xs[0]] + xs[1..] == xs
  {
    var head, tail := Encode(xs[0]), EncodeSequence(xs[1..]);
    assert EncodeSequence(xs) == head + tail;
    assert (head + tail) + rest == head + (tail + rest);
  }

  lemma ReadItemsStep(s: seq<byte>, n: nat, p: Parsed, items: seq<Cbor>, rest: seq<byte>)
    requires n > 0 && Read(s) == Some(p) && ReadItems(p.rest, n - 1) == Some((items, rest))
    ensures ReadItems(s, n) == Some(([p.value] + items, rest))
  {
  }

  lemma DecodeSequenceStep(s: seq<byte>, p: Parsed, tail: seq<Cbor>)
    requires s != [] && Read(s) == Some(p) && DecodeSequence(p.rest) == Some(tail)
    ensures DecodeSequence(s) == Some([p.value] + tail)
  {
  }

  /** Decoding an encoded CBOR sequence gives back the items. */
  lemma {:induction false} DecodeEncodeSequence(xs: seq<Cbor>)
    requires ValidSeq(xs)
    ensures DecodeSequence(EncodeSequence(xs)) == Some(xs)
    decreases |xs|
  {
    if xs != [] {
      var tail := EncodeSequence(xs[1..]);
      EncodeSequenceCons(xs, []);
      assert EncodeSequence(xs) + [] == EncodeSequence(xs) && tail + [] == tail;
      ReadEncode(xs[0], tail);
      DecodeEncodeSequence(xs[1..]);
      DecodeSequenceStep(EncodeSequence(xs), Parsed(xs[0], tail), xs[1..]);
    }
  }

  /** Decoding a single encoded item gives it back. */
  lemma DecodeEncode(x: Cbor)
    requires Valid(x)
    ensures Decode(Encode(x)) == Some(x)
  {
    ReadEncode(x, []);
    assert Encode(x) + [] == Encode(x);
  }

  /** An integer has a one-byte encoding exactly when it lies in -24..23 (section 3.1 of RFC 8949). */
  lemma OneByteInt(v: int)
    requires -TWO64 <= v < TWO64
    ensures (|Encode(Int(v))| == 1) <==> -24 <= v <= 23
    ensures 0 <= v <= 23 ==> Encode(Int(v)) == [v as byte]
    ensures -24 <= v < 0 ==> Encode(Int(v)) == [(32 + (-1 - v)) as byte]
  {
  }
}
