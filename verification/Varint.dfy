/** QUIC variable-length integers, section 16 of RFC 9000, as capsule.go writes and reads them. */
module Varint {
  import opened Powers
  import opened Wrappers

  type Byte = n: nat | n < 0x100

  function Pow256(n: nat): (r: nat)
    ensures r > 0
  {
    if n == 0 then 1 else 0x100 * Pow256(n - 1)
  }

  lemma Pow256Values()
    ensures Pow256(0) == 1 && Pow256(1) == 0x100 && Pow256(3) == 0x100_0000 && Pow256(7) == 0x100_0000_0000_0000
  {
    assert Pow256(3) == 0x100 * Pow256(2) == 0x1_0000 * Pow256(1);
    assert Pow256(7) == 0x100 * Pow256(6) == 0x1_0000 * Pow256(5) == 0x100_0000 * Pow256(4);
    assert Pow256(4) == 0x100 * Pow256(3);
  }

  // ---- big-endian numbers ----

  /** The low bytes of v, as binary.BigEndian appends them. */
  function BigEndian(v: nat, width: nat): (s: seq<Byte>)
    ensures |s| == width
  {
    if width == 0 then [] else BigEndian(v / 0x100, width - 1) + [v % 0x100]
  }

  function BigEndianValue(s: seq<Byte>): nat {
    if s == [] then 0 else BigEndianValue(s[..|s| - 1]) * 0x100 + s[|s| - 1]
  }

  lemma {:induction false} BigEndianHead(h: Byte, low: nat, n: nat)
    requires low < Pow256(n)
    ensures BigEndian(h * Pow256(n) + low, n + 1) == [h] + BigEndian(low, n)
  {
    if n == 0 {
    } else {
      var v := h * Pow256(n) + low;
      QuotientOfSum(h, Pow256(n - 1), 0x100, low);
      assert Pow256(n) == Pow256(n - 1) * 0x100;
      assert v / 0x100 == h * Pow256(n - 1) + low / 0x100;
      assert v % 0x100 == low % 0x100;
      BigEndianHead(h, low / 0x100, n - 1);
      assert BigEndian(v, n + 1) == BigEndian(v / 0x100, n) + [v % 0x100];
    }
  }

  /** A head byte counts for Pow256 of the bytes that follow it. */
  lemma {:induction false} ValueHead(h: Byte, t: seq<Byte>)
    ensures BigEndianValue([h] + t) == h * Pow256(|t|) + BigEndianValue(t)
  {
    if t == [] {
    } else {
      var front := t[..|t| - 1];
      ValueHead(h, front);
      assert ([h] + t)[..|t|] == [h] + front;
      assert h * Pow256(|t|) == h * Pow256(|front|) * 0x100;
    }
  }

  lemma {:induction false} ValueOfBigEndian(v: nat, width: nat)
    requires v < Pow256(width)
    ensures BigEndianValue(BigEndian(v, width)) == v
  {
    if width > 0 {
      ValueOfBigEndian(v / 0x100, width - 1);
      assert BigEndian(v, width)[..width - 1] == BigEndian(v / 0x100, width - 1);
    }
  }

  lemma {:induction false} BigEndianOfValue(t: seq<Byte>)
    ensures BigEndianValue(t) < Pow256(|t|)
    ensures BigEndian(BigEndianValue(t), |t|) == t
  {
    if t != [] {
      BigEndianOfValue(t[..|t| - 1]);
    }
  }

  // ---- the encodings of a number ----

  predicate Width(w: nat) {
    w == 1 || w == 2 || w == 4 || w == 8
  }

  /** The two high bits of the first byte of a w-byte encoding. */
  function Tag(w: nat): nat
    requires Width(w)
  {
    if w == 1 then 0 else if w == 2 then 1 else if w == 4 then 2 else 3
  }

  function WidthOf(first: Byte): (w: nat)
    ensures Width(w) && Tag(w) == first / 0x40
  {
    var tag := first / 0x40;
    if tag == 0 then 1 else if tag == 1 then 2 else if tag == 2 then 4 else 8
  }

  /** v fits in the bits a w-byte encoding leaves after its tag. */
  predicate Fits(v: nat, w: nat) {
    Width(w) && v < 0x40 * Pow256(w - 1)
  }

  function Encode(v: nat, w: nat): (s: seq<Byte>)
    requires Fits(v, w)
    ensures |s| == w
  {
    BigEndian(Tag(w) * 0x40 * Pow256(w - 1) + v, w)
  }

  const MAX_VARINT := 0x4000_0000_0000_0000

  function MinWidth(v: nat): (w: nat)
    requires v < MAX_VARINT
    ensures Fits(v, w)
    ensures forall u | Fits(v, u) :: w <= u
  {
    Pow256Values();
    if v < 0x40 then 1 else if v < 0x4000 then 2 else if v < 0x4000_0000 then 4 else 8
  }

  /** The caller must keep v below 2^62; appendVarint panics otherwise. */
  function AppendVarint(b: seq<Byte>, v: nat): seq<Byte>
    requires v < MAX_VARINT
  {
    if v < 0x40 then b + [v]
    else if v < 0x4000 then b + BigEndian(v + 0x4000, 2)
    else if v < 0x4000_0000 then b + BigEndian(v + 0x8000_0000, 4)
    else b + BigEndian(v + 0xc000_0000_0000_0000, 8)
  }

  /** appendVarint picks the shortest encoding that fits. */
  lemma AppendsShortest(b: seq<Byte>, v: nat)
    requires v < MAX_VARINT
    ensures AppendVarint(b, v) == b + Encode(v, MinWidth(v))
  {
    Pow256Values();
    if v < 0x40 {
      assert BigEndian(v, 1) == BigEndian(v / 0x100, 0) + [v % 0x100];
    }
  }

  lemma SplitTagged(v: nat, n: nat, tag: nat)
    requires n > 0 && v < 0x40 * n
    ensures v / n < 0x40
    ensures tag * 0x40 * n + v == (tag * 0x40 + v / n) * n + v % n
  {
    QuotientBounds(v, n);
    if v / n >= 0x40 {
      MultiplesMonotone(0x40, v / n, n);
      assert false;
    }
    assert (tag * 0x40 + v / n) * n == tag * 0x40 * n + v / n * n;
  }

  /** The first byte of an encoding carries the tag and the number's top six bits. */
  lemma EncodeHead(v: nat, w: nat)
    requires Fits(v, w)
    ensures var n := Pow256(w - 1);
      && v / n < 0x40
      && Encode(v, w) == [Tag(w) * 0x40 + v / n] + BigEndian(v % n, w - 1)
  {
    hide BigEndian, Pow256;
    var n := Pow256(w - 1);
    SplitTagged(v, n, Tag(w));
    BigEndianHead(Tag(w) * 0x40 + v / n, v % n, w - 1);
  }

  lemma TagOfHead(w: nat, high: nat)
    requires Width(w) && high < 0x40
    ensures WidthOf(Tag(w) * 0x40 + high) == w
    ensures (Tag(w) * 0x40 + high) % 0x40 == high
  {
  }

  lemma JoinTagged(h: nat, low: nat, n: nat)
    requires low < n && h < 0x40
    ensures (h * n + low) / n == h && (h * n + low) % n == low && h * n + low < 0x40 * n
  {
    QuotientUnique(h * n + low, n, h);
    assert (h * n + low) % n == h * n + low - (h * n + low) / n * n;
    MultiplesMonotone(h + 1, 0x40, n);
    assert (h + 1) * n == h * n + n;
  }

  // ---- reading ----

  /** How a read can end instead of giving its value. */
  datatype ReadError = Eof | UnexpectedEof | TooLong(length: nat) | Malformed | Transport(text: string)

  /** io.EOF in the middle of a value becomes io.ErrUnexpectedEOF. */
  function Cut(end: ReadError): ReadError {
    if end == Eof then UnexpectedEof else end
  }

  datatype Read<+T> = Read(result: Result<T, ReadError>, rest: seq<Byte>)

  /** readVarint on the bytes s, after which reads fail with end. */
  function Decode(s: seq<Byte>, end: ReadError): (r: Read<nat>)
    ensures |r.rest| <= |s|
    ensures r.result.Success? ==> |r.rest| < |s|
  {
    if s == [] then Read(Failure(end), [])
    else
      var w := WidthOf(s[0]);
      if |s| < w then Read(Failure(Cut(end)), [])
      else Read(Success(BigEndianValue([s[0] % 0x40] + s[1..w])), s[w..])
  }

  lemma DecodeLeavesSuffix(s: seq<Byte>, end: ReadError)
    ensures var rest := Decode(s, end).rest; rest == s[|s| - |rest|..]
  {
  }

  /** Every encoding of v, however wide, reads back as v and leaves what follows. */
  lemma DecodeEncode(v: nat, w: nat, tail: seq<Byte>, end: ReadError)
    requires Fits(v, w)
    ensures Decode(Encode(v, w) + tail, end) == Read(Success(v), tail)
  {
    hide BigEndian, BigEndianValue, Pow256, Tag, WidthOf;
    var n := Pow256(w - 1);
    EncodeHead(v, w);
    TagOfHead(w, v / n);
    var s := Encode(v, w) + tail;
    var low := BigEndian(v % n, w - 1);
    assert s[1..w] == low && s[w..] == tail;
    ValueHead(v / n, low);
    ValueOfBigEndian(v % n, w - 1);
    assert v / n * n + v % n == v;
  }

  /** And nothing else does: what a read consumed is an encoding of what it returned. */
  lemma DecodedIsEncoding(s: seq<Byte>, end: ReadError)
    requires Decode(s, end).result.Success?
    ensures var r := Decode(s, end);
      var w := |s| - |r.rest|;
      Fits(r.result.value, w) && s == Encode(r.result.value, w) + r.rest
  {
    hide BigEndian, BigEndianValue, Pow256;
    var w := WidthOf(s[0]);
    var h, t, n := s[0] % 0x40, s[1..w], Pow256(w - 1);
    ValueHead(h, t);
    BigEndianOfValue(t);
    JoinTagged(h, BigEndianValue(t), n);
    EncodeHead(BigEndianValue([h] + t), w);
    assert s == [s[0]] + t + s[w..];
  }

  /** appendVarint is minimal: no bytes readVarint takes for v are fewer than those it writes. */
  lemma AppendVarintIsMinimal(s: seq<Byte>, end: ReadError, b: seq<Byte>)
    requires Decode(s, end).result.Success?
    ensures var r := Decode(s, end);
      && r.result.value < MAX_VARINT
      && |AppendVarint(b, r.result.value)| - |b| <= |s| - |r.rest|
  {
    DecodedIsEncoding(s, end);
    Pow256Values();
    AppendsShortest(b, Decode(s, end).result.value);
  }

  /** readVarint inverts appendVarint on every number it accepts. */
  lemma AppendVarintInverts(v: nat, tail: seq<Byte>, end: ReadError)
    requires v < MAX_VARINT
    ensures Decode(AppendVarint([], v) + tail, end) == Read(Success(v), tail)
  {
    AppendsShortest([], v);
    assert [] + Encode(v, MinWidth(v)) == Encode(v, MinWidth(v));
    DecodeEncode(v, MinWidth(v), tail, end);
  }

  /** A proper prefix of an encoding is an error, told apart from the end of the stream unless it is empty. */
  lemma DecodePrefix(v: nat, w: nat, k: nat, end: ReadError)
    requires Fits(v, w) && k < w
    ensures Decode(Encode(v, w)[..k], end) == Read(Failure(if k == 0 then end else Cut(end)), [])
  {
    hide BigEndian, BigEndianValue, Pow256, Tag, WidthOf;
    EncodeHead(v, w);
    if k > 0 {
      TagOfHead(w, v / Pow256(w - 1));
      assert Encode(v, w)[..k][0] == Encode(v, w)[0];
    }
  }

  // ---- the reader ----

  /** A byte stream: what is left of it, and the error that follows. */
  class ByteReader {
    var rest: seq<Byte>
    const end: ReadError

    constructor (data: seq<Byte>, end: ReadError)
      ensures rest == data && this.end == end
    {
      rest := data;
      this.end := end;
    }

    method ReadByte() returns (r: Result<Byte, ReadError>)
      modifies this
      ensures if old(rest) == [] then r == Failure(end) && rest == []
        else r == Success(old(rest)[0]) && rest == old(rest)[1..]
    {
      if rest == [] {
        return Failure(end);
      }
      r := Success(rest[0]);
      rest := rest[1..];
    }

    method ReadVarint() returns (r: Result<nat, ReadError>)
      modifies this
      ensures Read(r, rest) == Decode(old(rest), end)
    {
      ghost var s := rest;
      var first := ReadByte();
      if first.Failure? {
        return Failure(first.error);
      }
      var v: nat, width := first.value % 0x40, WidthOf(first.value);
      var i := 1;
      assert [s[0] % 0x40] + s[1..1] == [s[0] % 0x40];
      while i < width
        invariant 1 <= i <= width && i <= |s|
        invariant rest == s[i..]
        invariant v == BigEndianValue([s[0] % 0x40] + s[1..i])
      {
        var b := ReadByte();
        if b.Failure? {
          return Failure(Cut(b.error));
        }
        v := v * 0x100 + b.value;
        i := i + 1;
        assert ([s[0] % 0x40] + s[1..i])[..i - 1] == [s[0] % 0x40] + s[1..i - 1];
      }
      return Success(v);
    }
  }
}
