/**
 * HTTP Datagrams on a reliable stream: sections 3.2 and 3.5 of RFC 9297 and
 * section 5 of RFC 9298, as capsule.go frames and reads them.
 */
module Capsules {
  import opened Varint
  import opened Wrappers

  const DATAGRAM := 0
  const MAX_CAPSULE_PAYLOAD := 0x1_0000

  // ---- reading ----

  datatype Capsule = Capsule(ctype: nat, value: seq<Byte>)

  /** One capsule's type, length and value. */
  function ReadCapsule(s: seq<Byte>, end: ReadError): (r: Read<Capsule>)
    ensures |r.rest| <= |s|
    ensures r.result.Success? ==> |r.rest| + 2 + |r.result.value.value| <= |s|
    ensures r.result.Success? ==> |r.result.value.value| <= MAX_CAPSULE_PAYLOAD
  {
    var ctype := Decode(s, end);
    match ctype.result
    case Failure(e) => Read(Failure(e), ctype.rest)
    case Success(t) =>
      var clen := Decode(ctype.rest, end);
      match clen.result
      case Failure(e) => Read(Failure(e), clen.rest)
      case Success(n) =>
        if n > MAX_CAPSULE_PAYLOAD then Read(Failure(TooLong(n)), clen.rest)
        else if |clen.rest| < n then Read(Failure(if clen.rest == [] then end else Cut(end)), [])
        else Read(Success(Capsule(t, clen.rest[..n])), clen.rest[n..])
  }

  /** What a capsule is to a reader of UDP payloads. */
  datatype Content = Payload(payload: seq<Byte>) | Unknown | BadContext

  function ContentOf(c: Capsule): (r: Content)
    ensures r.Payload? ==> |r.payload| < |c.value|
  {
    if c.ctype != DATAGRAM then Unknown
    else
      var context := Decode(c.value, Eof);
      match context.result
      case Failure(_) => BadContext
      case Success(id) => if id == 0 then Payload(context.rest) else Unknown
  }

  /** ReadDatagram on the bytes s: the first capsule that is not skipped. */
  function ReadDatagramIn(s: seq<Byte>, end: ReadError): (r: Read<seq<Byte>>)
    ensures |r.rest| <= |s|
    ensures r.result.Success? ==> |r.rest| + 3 + |r.result.value| <= |s|
    decreases |s|
  {
    var c := ReadCapsule(s, end);
    match c.result
    case Failure(e) => Read(Failure(e), c.rest)
    case Success(capsule) =>
      match ContentOf(capsule)
      case Payload(p) => Read(Success(p), c.rest)
      case BadContext => Read(Failure(Malformed), c.rest)
      case Unknown => ReadDatagramIn(c.rest, end)
  }

  datatype Received = Received(payloads: seq<seq<Byte>>, error: ReadError)

  /** Calling ReadDatagram until it fails: the payloads, and the failure. */
  function ReadAll(s: seq<Byte>, end: ReadError): Received
    decreases |s|
  {
    var r := ReadDatagramIn(s, end);
    match r.result
    case Failure(e) => Received([], e)
    case Success(p) => Before([p], ReadAll(r.rest, end))
  }

  function Before(first: seq<seq<Byte>>, later: Received): Received {
    Received(first + later.payloads, later.error)
  }

  // ---- what a peer may write ----

  /** A capsule with the widths its type and length are written in. */
  datatype Written = Written(capsule: Capsule, typeWidth: nat, lengthWidth: nat)

  predicate WellFormed(w: Written) {
    && Fits(w.capsule.ctype, w.typeWidth)
    && Fits(|w.capsule.value|, w.lengthWidth)
    && |w.capsule.value| <= MAX_CAPSULE_PAYLOAD
    && ContentOf(w.capsule) != BadContext
  }

  function Header(w: Written): (s: seq<Byte>)
    requires WellFormed(w)
    ensures |s| == w.typeWidth + w.lengthWidth
  {
    Encode(w.capsule.ctype, w.typeWidth) + Encode(|w.capsule.value|, w.lengthWidth)
  }

  function Bytes(w: Written): seq<Byte>
    requires WellFormed(w)
  {
    Header(w) + w.capsule.value
  }

  predicate AllWellFormed(ws: seq<Written>) {
    forall i | 0 <= i < |ws| :: WellFormed(ws[i])
  }

  function Stream(ws: seq<Written>): seq<Byte>
    requires AllWellFormed(ws)
  {
    if ws == [] then [] else Bytes(ws[0]) + Stream(ws[1..])
  }

  /** The payloads of the datagrams with context 0, in order. */
  function Payloads(ws: seq<Written>): seq<seq<Byte>> {
    if ws == [] then []
    else
      var content := ContentOf(ws[0].capsule);
      (if content.Payload? then [content.payload] else []) + Payloads(ws[1..])
  }

  /** A datagram's value is its context, in any width, and its payload; context 0 is the one that counts. */
  lemma ContextAndPayload(context: nat, width: nat, payload: seq<Byte>)
    requires Fits(context, width)
    ensures ContentOf(Capsule(DATAGRAM, Encode(context, width) + payload)) == if context == 0 then Payload(payload) else Unknown
  {
    DecodeEncode(context, width, payload, Eof);
  }

  lemma ReadCapsuleOfBytes(w: Written, tail: seq<Byte>, end: ReadError)
    requires WellFormed(w)
    ensures ReadCapsule(Bytes(w) + tail, end) == Read(Success(w.capsule), tail)
  {
    hide Encode, Decode, ContentOf;
    var value := w.capsule.value;
    var length := Encode(|value|, w.lengthWidth);
    assert Bytes(w) + tail == Encode(w.capsule.ctype, w.typeWidth) + (length + (value + tail));
    DecodeEncode(w.capsule.ctype, w.typeWidth, length + (value + tail), end);
    DecodeEncode(|value|, w.lengthWidth, value + tail, end);
  }

  /** And only a capsule's bytes read as that capsule. */
  lemma BytesOfReadCapsule(s: seq<Byte>, end: ReadError) returns (w: Written)
    requires ReadCapsule(s, end).result.Success?
    requires ContentOf(ReadCapsule(s, end).result.value) != BadContext
    ensures WellFormed(w) && w.capsule == ReadCapsule(s, end).result.value
    ensures s == Bytes(w) + ReadCapsule(s, end).rest
  {
    hide Encode, Decode, ContentOf;
    var ctype := Decode(s, end);
    var clen := Decode(ctype.rest, end);
    DecodedIsEncoding(s, end);
    DecodedIsEncoding(ctype.rest, end);
    w := Written(ReadCapsule(s, end).result.value, |s| - |ctype.rest|, |ctype.rest| - |clen.rest|);
    assert clen.rest == w.capsule.value + ReadCapsule(s, end).rest;
  }

  lemma ReadAllAfterCapsule(w: Written, tail: seq<Byte>, end: ReadError)
    requires WellFormed(w)
    ensures ReadAll(Bytes(w) + tail, end) == Before(Payloads([w]), ReadAll(tail, end))
  {
    hide Encode, Decode, ReadCapsule, Bytes, ContentOf;
    ReadCapsuleOfBytes(w, tail, end);
    PayloadsOne(w);
    var r := ReadDatagramIn(tail, end);
    if ContentOf(w.capsule).Unknown? {
      assert ReadDatagramIn(Bytes(w) + tail, end) == r;
    }
  }

  lemma PayloadsOne(w: Written)
    ensures var content := ContentOf(w.capsule);
      Payloads([w]) == if content.Payload? then [content.payload] else []
  {
    assert Payloads([w]) == (if ContentOf(w.capsule).Payload? then [ContentOf(w.capsule).payload] else []) + [];
  }

  lemma PayloadsFirst(ws: seq<Written>)
    requires ws != []
    ensures Payloads(ws) == Payloads([ws[0]]) + Payloads(ws[1..])
  {
  }

  /** Capsules already sent decide the payloads read first, whatever follows them. */
  lemma {:induction false} ReadAllAfter(ws: seq<Written>, tail: seq<Byte>, end: ReadError)
    requires AllWellFormed(ws)
    ensures ReadAll(Stream(ws) + tail, end) == Before(Payloads(ws), ReadAll(tail, end))
  {
    hide ReadAll, Payloads, Bytes;
    if ws == [] {
      assert Stream(ws) + tail == tail;
      NoPayloads();
    } else {
      var rest := Stream(ws[1..]) + tail;
      assert Stream(ws) + tail == Bytes(ws[0]) + rest;
      ReadAllAfterCapsule(ws[0], rest, end);
      ReadAllAfter(ws[1..], tail, end);
      PayloadsFirst(ws);
    }
  }

  lemma NoPayloads()
    ensures Payloads([]) == []
  {
  }

  /**
   * A stream of capsules in any valid widths, skipped ones included, reads as
   * exactly the payloads of its datagrams with context 0, and then its end.
   */
  lemma StreamReadsAsPayloads(ws: seq<Written>, end: ReadError)
    requires AllWellFormed(ws)
    ensures ReadAll(Stream(ws), end) == Received(Payloads(ws), end)
  {
    hide Stream, Payloads, ReadCapsule;
    ReadAllAfter(ws, [], end);
    assert Stream(ws) + [] == Stream(ws);
    assert ReadCapsule([], end) == Read(Failure(end), []) by { ReadCapsuleOfNothing(end); }
  }

  lemma ReadCapsuleOfNothing(end: ReadError)
    ensures ReadCapsule([], end) == Read(Failure(end), [])
  {
  }

  /** What one ReadDatagram consumed before a payload: skipped capsules, then the one that carried it. */
  lemma {:induction false} ReadDatagramConsumes(s: seq<Byte>, end: ReadError) returns (skipped: seq<Written>, last: Written)
    requires ReadDatagramIn(s, end).result.Success?
    ensures AllWellFormed(skipped) && WellFormed(last) && Payloads(skipped) == []
    ensures ContentOf(last.capsule) == Payload(ReadDatagramIn(s, end).result.value)
    ensures s == Stream(skipped) + Bytes(last) + ReadDatagramIn(s, end).rest
    decreases |s|
  {
    hide Encode, Decode, ReadCapsule, Bytes, ContentOf;
    var c := ReadCapsule(s, end);
    var w := BytesOfReadCapsule(s, end);
    if ContentOf(w.capsule).Payload? {
      skipped, last := [], w;
    } else {
      skipped, last := ReadDatagramConsumes(c.rest, end);
      PayloadsFirst([w] + skipped);
      assert ([w] + skipped)[1..] == skipped;
      assert s == Bytes(w) + (Stream(skipped) + Bytes(last) + ReadDatagramIn(s, end).rest);
      assert Stream([w] + skipped) == Bytes(w) + Stream(skipped);
      skipped := [w] + skipped;
    }
  }

  /**
   * A capsule cut short is told from the end of the stream except where the
   * cut falls between its fields: there the reader sees a plain end.
   */
  lemma TruncationSeenExactly(w: Written, k: nat, end: ReadError)
    requires WellFormed(w) && k < |Bytes(w)|
    ensures ReadDatagramIn(Bytes(w)[..k], end) ==
      Read(Failure(if k !in {0, w.typeWidth, w.typeWidth + w.lengthWidth} && end == Eof then UnexpectedEof else end), [])
  {
    hide Encode, Decode, ContentOf;
    var ctype, clen := Encode(w.capsule.ctype, w.typeWidth), Encode(|w.capsule.value|, w.lengthWidth);
    var s := Bytes(w)[..k];
    if k < w.typeWidth {
      assert s == ctype[..k];
      DecodePrefix(w.capsule.ctype, w.typeWidth, k, end);
    } else if k < w.typeWidth + w.lengthWidth {
      var j := k - w.typeWidth;
      assert s == ctype + clen[..j];
      DecodeEncode(w.capsule.ctype, w.typeWidth, clen[..j], end);
      DecodePrefix(|w.capsule.value|, w.lengthWidth, j, end);
    } else {
      var part := w.capsule.value[..k - w.typeWidth - w.lengthWidth];
      assert s == ctype + (clen + part);
      DecodeEncode(w.capsule.ctype, w.typeWidth, clen + part, end);
      DecodeEncode(|w.capsule.value|, w.lengthWidth, part, end);
    }
  }

  // ---- one capsule, whatever it holds ----

  /** The bytes a number takes that starts with this byte. */
  function TakenBy(first: Byte): nat {
    if first < 64 then 1 else if first < 128 then 2 else if first < 192 then 4 else 8
  }

  /** A datagram whose context number is missing or cut off. */
  predicate CutContext(value: seq<Byte>) {
    value == [] || |value| < TakenBy(value[0])
  }

  lemma ContentExactly(c: Capsule)
    ensures ContentOf(c) == BadContext <==> c.ctype == 0 && CutContext(c.value)
    ensures c.ctype != 0 ==> ContentOf(c) == Unknown
  {
    hide BigEndianValue;
  }

  /**
   * After a type and a length in any widths: a length over 65536 is refused
   * whatever the type; a value that ends early is an unexpected end unless
   * nothing of it came; a datagram without a whole context is malformed; a
   * capsule of another type is passed over.
   */
  lemma CapsuleDecides(ctype: nat, typeWidth: nat, length: nat, lengthWidth: nat, tail: seq<Byte>, end: ReadError)
    requires Fits(ctype, typeWidth) && Fits(length, lengthWidth)
    ensures var r := ReadDatagramIn(Encode(ctype, typeWidth) + Encode(length, lengthWidth) + tail, end);
      if length > 65536 then r == Read(Failure(TooLong(length)), tail)
      else if |tail| < length then r == Read(Failure(if tail != [] && end == Eof then UnexpectedEof else end), [])
      else if ctype != 0 then r == ReadDatagramIn(tail[length..], end)
      else CutContext(tail[..length]) ==> r == Read(Failure(Malformed), tail[length..])
  {
    hide Encode, Decode, ContentOf, CutContext;
    var s := Encode(ctype, typeWidth) + Encode(length, lengthWidth) + tail;
    assert s == Encode(ctype, typeWidth) + (Encode(length, lengthWidth) + tail);
    DecodeEncode(ctype, typeWidth, Encode(length, lengthWidth) + tail, end);
    DecodeEncode(length, lengthWidth, tail, end);
    if length <= 65536 && length <= |tail| {
      ContentExactly(Capsule(ctype, tail[..length]));
    }
  }

  // ---- writing ----

  /** The bytes WriteDatagram sends for one payload. */
  function Framed(p: seq<Byte>): seq<Byte>
    requires |p| + 1 < MAX_VARINT
  {
    AppendVarint(AppendVarint(AppendVarint([], DATAGRAM), |p| + 1), 0) + p
  }

  lemma FramedIsEncoded(p: seq<Byte>)
    requires |p| + 1 < MAX_VARINT
    ensures MinWidth(0) == 1 && |Encode(0, 1)| == 1
    ensures Framed(p) == Encode(DATAGRAM, 1) + (Encode(|p| + 1, MinWidth(|p| + 1)) + (Encode(0, 1) + p))
  {
    hide Encode;
    var n := Encode(|p| + 1, MinWidth(|p| + 1));
    AppendsShortest([], DATAGRAM);
    AppendsShortest(AppendVarint([], DATAGRAM), |p| + 1);
    AppendsShortest(AppendVarint(AppendVarint([], DATAGRAM), |p| + 1), 0);
    assert Framed(p) == ([] + Encode(DATAGRAM, 1) + n + Encode(0, 1)) + p;
  }

  /** A payload comes back from the other end exactly when it is at most 65535 bytes, the size the relays read. */
  lemma DatagramRoundTrip(p: seq<Byte>, tail: seq<Byte>, end: ReadError)
    requires |p| + 1 < MAX_VARINT
    ensures var r := ReadDatagramIn(Framed(p) + tail, end);
      if |p| <= 65535 then r == Read(Success(p), tail) else r.result == Failure(TooLong(|p| + 1))
  {
    hide Encode, Decode, AppendVarint, MinWidth, Framed;
    FramedIsEncoded(p);
    var length, value := Encode(|p| + 1, MinWidth(|p| + 1)), Encode(0, 1) + p;
    assert Framed(p) + tail == Encode(DATAGRAM, 1) + (length + (value + tail));
    DecodeEncode(DATAGRAM, 1, length + (value + tail), end);
    DecodeEncode(|p| + 1, MinWidth(|p| + 1), value + tail, end);
    ContextAndPayload(0, 1, p);
  }

  function FramedAll(ps: seq<seq<Byte>>): seq<Byte>
    requires forall i | 0 <= i < |ps| :: |ps[i]| <= 65535
  {
    if ps == [] then [] else Framed(ps[0]) + FramedAll(ps[1..])
  }

  /** What one relay sends is what the other reads: every datagram, in order, and then the end. */
  lemma {:induction false} DatagramsRoundTrip(ps: seq<seq<Byte>>, end: ReadError)
    requires forall i | 0 <= i < |ps| :: |ps[i]| <= 65535
    ensures ReadAll(FramedAll(ps), end) == Received(ps, end)
  {
    hide Framed, ReadCapsule, ContentOf;
    if ps == [] {
      ReadCapsuleOfNothing(end);
    } else {
      assert ps == [ps[0]] + ps[1..];
      DatagramRoundTrip(ps[0], FramedAll(ps[1..]), end);
      DatagramsRoundTrip(ps[1..], end);
    }
  }

  // ---- the stream object ----

  class CapsuleStream {
    const r: ByteReader
    var sent: seq<Byte>  // everything written to the peer

    constructor (r: ByteReader)
      ensures this.r == r && sent == []
    {
      this.r := r;
      sent := [];
    }

    method WriteDatagram(p: seq<Byte>)
      requires |p| + 1 < MAX_VARINT
      modifies this`sent
      ensures sent == old(sent) + Framed(p)
    {
      var buf := AppendVarint([], DATAGRAM);
      buf := AppendVarint(buf, |p| + 1);
      buf := AppendVarint(buf, 0);
      buf := buf + p;
      sent := sent + buf;
    }

    /** io.ReadFull of n bytes. */
    method ReadFull(n: nat) returns (result: Result<seq<Byte>, ReadError>)
      modifies r
      ensures var s := old(r.rest);
        if |s| >= n then result == Success(s[..n]) && r.rest == s[n..]
        else result == Failure(if s == [] then r.end else Cut(r.end)) && r.rest == []
    {
      ghost var s := r.rest;
      var value: seq<Byte> := [];
      while |value| < n
        invariant |value| <= n && |value| <= |s|
        invariant value == s[..|value|] && r.rest == s[|value|..]
      {
        var b := r.ReadByte();
        if b.Failure? {
          return Failure(if value == [] then b.error else Cut(b.error));
        }
        value := value + [b.value];
      }
      return Success(value);
    }

    method ReadDatagram() returns (result: Result<seq<Byte>, ReadError>)
      modifies r
      ensures Read(result, r.rest) == ReadDatagramIn(old(r.rest), r.end)
    {
      hide Decode;
      ghost var s := r.rest;
      while true
        invariant ReadDatagramIn(r.rest, r.end) == ReadDatagramIn(s, r.end)
        decreases |r.rest|
      {
        var ctype := r.ReadVarint();
        if ctype.Failure? {
          return Failure(ctype.error);
        }
        var clen := r.ReadVarint();
        if clen.Failure? {
          return Failure(clen.error);
        }
        if clen.value > MAX_CAPSULE_PAYLOAD {
          return Failure(TooLong(clen.value));
        }
        var value := ReadFull(clen.value);
        if value.Failure? {
          return Failure(value.error);
        }
        if ctype.value != DATAGRAM {
          continue;
        }
        var rd := new ByteReader(value.value, Eof);
        var context := rd.ReadVarint();
        if context.Failure? {
          return Failure(Malformed);
        }
        if context.value != 0 {
          continue;
        }
        DecodeLeavesSuffix(value.value, Eof);
        return Success(value.value[|value.value| - |rd.rest|..]);
      }
    }
  }
}
