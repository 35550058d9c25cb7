/**
 The demultiplexer for container output (internal/providers/docker/stream.go): frames of an
 8-byte header, whose last four bytes are a big-endian length, and that many payload bytes.
 */
module Stream {
  type Byte = b: int | 0 <= b < 256

  /** A body that ends after data: by end of file, or by an error that every further read repeats. */
  class Reader {
    const data: seq<Byte>
    const failing: bool
    var pos: nat

    constructor (data: seq<Byte>, failing: bool)
      ensures this.data == data && this.failing == failing && pos == 0
    {
      this.data, this.failing, pos := data, failing, 0;
    }

    ghost predicate Valid()
      reads this
    {
      pos <= |data|
    }

    /** What is still to be read. */
    function Rest(): seq<Byte>
      requires Valid()
      reads this
    {
      data[pos..]
    }

    /** Reads up to n bytes; fewer only when the body ends. */
    method Take(n: nat) returns (b: seq<Byte>)
      requires Valid()
      modifies this
      ensures Valid()
      ensures b == old(Rest())[..if n <= |old(Rest())| then n else |old(Rest())|]
      ensures Rest() == old(Rest())[|b|..]
    {
      var m := if n <= |data| - pos then n else |data| - pos;
      b := data[pos..pos + m];
      assert b == Rest()[..m];
      pos := pos + m;
    }
  }

  predicate LooksLikeFrameHeader(head: seq<Byte>) {
    |head| >= 8 && head[0] <= 2 && head[1] == 0 && head[2] == 0 && head[3] == 0
  }

  function Shift(high: nat, low: Byte): nat {
    high * 0x100 + low
  }

  /** The number that bytes write, most significant first. */
  function Unsigned(b: seq<Byte>): nat {
    if b == [] then 0 else Shift(Unsigned(b[..|b| - 1]), b[|b| - 1])
  }

  /** binary.BigEndian.Uint32 */
  function U32(b: seq<Byte>): nat
    requires |b| == 4
  {
    Unsigned(b)
  }

  /** The payload bytes of a framed body, as far as it goes. */
  ghost function Payload(data: seq<Byte>): seq<Byte>
    decreases |data|
  {
    if |data| < 8 then []
    else
      var size, rest := U32(data[4..8]), data[8..];
      if size <= |rest| then rest[..size] + Payload(rest[size..]) else rest
  }

  /** Reads a whole body. */
  method DemuxStream(r: Reader) returns (out: seq<Byte>, ok: bool)
    requires r.Valid() && r.pos == 0
    modifies r
    ensures ok <==> !r.failing
    ensures !LooksLikeFrameHeader(r.data) ==> out == r.data
    ensures LooksLikeFrameHeader(r.data) ==> out == if r.failing then [] else Payload(r.data)
  {
    assert r.Rest() == r.data;
    if |r.Rest()| < 8 || !LooksLikeFrameHeader(r.Rest()[..8]) {
      out := r.Take(|r.Rest()|);
      return out, !r.failing;
    }
    out := [];
    var more := true;
    while more
      invariant r.Valid()
      invariant out + (if more then Payload(r.Rest()) else []) == Payload(r.data)
      decreases more, |r.Rest()|
    {
      ghost var before := out;
      var chunk;
      chunk, more := NextFrame(r);
      out := out + chunk;
      Associative(before, chunk, if more then Payload(r.Rest()) else []);
    }
    if r.failing {
      return [], false;
    }
    return out, true;
  }

  /** One turn of the loop: a header and its payload, or as much of them as is left. */
  method NextFrame(r: Reader) returns (chunk: seq<Byte>, more: bool)
    requires r.Valid()
    modifies r
    ensures r.Valid()
    ensures chunk + (if more then Payload(r.Rest()) else []) == Payload(old(r.Rest()))
    ensures more ==> |r.Rest()| < |old(r.Rest())|
  {
    ghost var before := r.Rest();
    var header := r.Take(8);
    if |header| < 8 {
      return [], false;
    }
    assert header[4..8] == before[4..8];
    var size := U32(header[4..8]);
    if size == 0 {
      return [], true;
    }
    chunk := r.Take(size);
    more := |chunk| == size;
  }

  lemma Associative(a: seq<Byte>, b: seq<Byte>, c: seq<Byte>)
    ensures (a + b) + c == a + (b + c)
  {
  }

  // ------------------------------------------------------------------------- frames

  datatype Frame = Frame(kind: Byte, reserved: seq<Byte>, payload: seq<Byte>)

  predicate Encodable(f: Frame) {
    |f.reserved| == 3 && |f.payload| < 0x1_0000_0000
  }

  function BigEndian(n: nat): (b: seq<Byte>)
    requires n < 0x1_0000_0000
    ensures |b| == 4
  {
    var n1 := n / 0x100;
    var n2 := n1 / 0x100;
    [n2 / 0x100, n2 % 0x100, n1 % 0x100, n % 0x100]
  }

  lemma UnsignedOfFour(b: seq<Byte>)
    requires |b| == 4
    ensures Unsigned(b) == Shift(Shift(Shift(b[0], b[1]), b[2]), b[3]) < 0x1_0000_0000
  {
    assert b[..3][..2] == b[..2] && b[..2][..1] == b[..1] && b[..1][..0] == [];
    assert Unsigned(b[..1]) == b[0];
    assert Unsigned(b[..2]) == Shift(b[0], b[1]);
    assert Unsigned(b[..3]) == Shift(Shift(b[0], b[1]), b[2]);
  }

  lemma U32OfBigEndian(n: nat)
    requires n < 0x1_0000_0000
    ensures U32(BigEndian(n)) == n
  {
    UnsignedOfFour(BigEndian(n));
  }

  function EncodeFrame(f: Frame): (b: seq<Byte>)
    requires Encodable(f)
    ensures |b| == 8 + |f.payload|
  {
    [f.kind] + f.reserved + BigEndian(|f.payload|) + f.payload
  }

  ghost predicate AllEncodable(fs: seq<Frame>) {
    forall f :: f in fs ==> Encodable(f)
  }

  function Encode(fs: seq<Frame>): seq<Byte>
    requires AllEncodable(fs)
  {
    if fs == [] then [] else EncodeFrame(fs[0]) + Encode(fs[1..])
  }

  function Payloads(fs: seq<Frame>): seq<Byte> {
    if fs == [] then [] else fs[0].payload + Payloads(fs[1..])
  }

  lemma HeaderOf(f: Frame, rest: seq<Byte>)
    requires Encodable(f)
    ensures var b := EncodeFrame(f) + rest;
      |b| >= 8 && U32(b[4..8]) == |f.payload| && b[8..] == f.payload + rest
  {
    var start, size := [f.kind] + f.reserved, BigEndian(|f.payload|);
    U32OfBigEndian(|f.payload|);
    assert EncodeFrame(f) + rest == start + size + (f.payload + rest);
    HeaderSlices(start, size, f.payload + rest);
  }

  lemma HeaderSlices(a: seq<Byte>, b: seq<Byte>, c: seq<Byte>)
    requires |a| == |b| == 4
    ensures (a + b + c)[4..8] == b && (a + b + c)[8..] == c
  {
  }

  lemma FrameThen(f: Frame, rest: seq<Byte>)
    requires Encodable(f)
    ensures Payload(EncodeFrame(f) + rest) == f.payload + Payload(rest)
  {
    HeaderOf(f, rest);
    assert (f.payload + rest)[..|f.payload|] == f.payload && (f.payload + rest)[|f.payload|..] == rest;
  }

  /** Whole frames first, then whatever follows. */
  lemma {:induction false} FramesThen(fs: seq<Frame>, rest: seq<Byte>)
    requires AllEncodable(fs)
    ensures Payload(Encode(fs) + rest) == Payloads(fs) + Payload(rest)
  {
    if fs == [] {
      assert Encode(fs) + rest == rest;
    } else {
      var f, others, more := fs[0], Encode(fs[1..]), Payloads(fs[1..]);
      FramesThen(fs[1..], rest);
      FrameThen(f, others + rest);
      Associative(EncodeFrame(f), others, rest);
      Associative(f.payload, more, Payload(rest));
    }
  }

  predicate StartsAsFrames(fs: seq<Frame>) {
    fs != [] && fs[0].kind <= 2 && fs[0].reserved == [0, 0, 0]
  }

  lemma FramesAreRecognised(fs: seq<Frame>)
    requires AllEncodable(fs) && StartsAsFrames(fs)
    ensures LooksLikeFrameHeader(Encode(fs))
  {
    HeaderOf(fs[0], Encode(fs[1..]));
  }

  /** Decoding a list of frames gives the payloads one after the other. */
  lemma DecodeEncode(fs: seq<Frame>)
    requires AllEncodable(fs) && StartsAsFrames(fs)
    ensures LooksLikeFrameHeader(Encode(fs)) && Payload(Encode(fs)) == Payloads(fs)
  {
    FramesAreRecognised(fs);
    FramesThen(fs, []);
    assert Encode(fs) + [] == Encode(fs);
  }

  /** A body cut off inside its last frame gives all earlier payloads and what arrived of the last one. */
  lemma DecodeTruncated(fs: seq<Frame>, f: Frame, j: nat)
    requires AllEncodable(fs) && Encodable(f) && j <= 8 + |f.payload|
    ensures Payload(Encode(fs) + EncodeFrame(f)[..j]) == Payloads(fs) + f.payload[..if j < 8 then 0 else j - 8]
  {
    var part := EncodeFrame(f)[..j];
    FramesThen(fs, part);
    HeaderOf(f, []);
    assert EncodeFrame(f) + [] == EncodeFrame(f);
    if j >= 8 {
      assert part[4..8] == EncodeFrame(f)[4..8];
      assert part[8..] == f.payload[..j - 8];
      if j == 8 + |f.payload| {
        assert part[8..][|f.payload|..] == [] && part[8..][..|f.payload|] == f.payload;
        assert f.payload + [] == f.payload;
      }
    }
  }

  /** Every framed body is a list of whole frames and at most one that is cut off. */
  lemma {:induction false} EveryBodyIsFrames(data: seq<Byte>) returns (fs: seq<Frame>, rest: seq<Byte>)
    ensures AllEncodable(fs) && data == Encode(fs) + rest
    ensures |rest| >= 8 ==> U32(rest[4..8]) > |rest| - 8
    ensures Payload(data) == Payloads(fs) + if |rest| < 8 then [] else rest[8..]
    decreases |data|
  {
    if |data| < 8 || U32(data[4..8]) > |data| - 8 {
      fs, rest := [], data;
      assert Encode([]) + data == data;
      assert Payload(data) == [] + if |data| < 8 then [] else data[8..];
    } else {
      var f, more := FirstFrame(data);
      var fs', rest' := EveryBodyIsFrames(more);
      fs, rest := [f] + fs', rest';
      OneMoreFrame(f, fs', rest', if |rest'| < 8 then [] else rest'[8..]);
    }
  }

  /** A whole frame at the start of a body, and the rest. */
  lemma FirstFrame(data: seq<Byte>) returns (f: Frame, more: seq<Byte>)
    requires |data| >= 8 && U32(data[4..8]) <= |data| - 8
    ensures Encodable(f) && data == EncodeFrame(f) + more && |more| < |data|
  {
    var size := U32(data[4..8]);
    f, more := Frame(data[0], data[1..4], data[8..][..size]), data[8..][size..];
    BigEndianOfU32(data[4..8]);
    assert data == [data[0]] + data[1..4] + data[4..8] + (f.payload + more);
  }

  lemma OneMoreFrame(f: Frame, fs: seq<Frame>, rest: seq<Byte>, tail: seq<Byte>)
    requires Encodable(f) && AllEncodable(fs) && Payload(Encode(fs) + rest) == Payloads(fs) + tail
    ensures AllEncodable([f] + fs)
    ensures EncodeFrame(f) + (Encode(fs) + rest) == Encode([f] + fs) + rest
    ensures Payload(EncodeFrame(f) + (Encode(fs) + rest)) == Payloads([f] + fs) + tail
  {
    assert ([f] + fs)[1..] == fs;
    FrameThen(f, Encode(fs) + rest);
    Associative(EncodeFrame(f), Encode(fs), rest);
    Associative(f.payload, Payloads(fs), tail);
  }

  lemma BigEndianOfU32(b: seq<Byte>)
    requires |b| == 4
    ensures U32(b) < 0x1_0000_0000 && BigEndian(U32(b)) == b
  {
    UnsignedOfFour(b);
    var n2 := Shift(b[0], b[1]);
    var n1 := Shift(n2, b[2]);
    ShiftBack(n1, b[3]);
    ShiftBack(n2, b[2]);
    ShiftBack(b[0], b[1]);
    assert BigEndian(U32(b)) == [b[0], b[1], b[2], b[3]];
  }

  lemma ShiftBack(high: nat, low: Byte)
    ensures Shift(high, low) / 0x100 == high && Shift(high, low) % 0x100 == low
  {
  }

  /** A body that begins with a whole header. */
  lemma PayloadOf(data: seq<Byte>, size: nat, rest: seq<Byte>)
    requires |data| >= 8 && size == U32(data[4..8]) && rest == data[8..]
    ensures Payload(data) == if size <= |rest| then rest[..size] + Payload(rest[size..]) else rest
  {
  }

  lemma SameHeader(part: seq<Byte>, data: seq<Byte>)
    requires part <= data && |part| >= 8
    ensures U32(part[4..8]) == U32(data[4..8]) && part[8..] <= data[8..]
  {
    assert part[4..8] == data[4..8];
    assert part[8..] == data[8..][..|part| - 8];
  }

  /** Decoding any prefix of a body gives a prefix of what decoding the body gives. */
  lemma {:induction false} PrefixDecodesToPrefix(part: seq<Byte>, data: seq<Byte>)
    requires part <= data
    ensures Payload(part) <= Payload(data)
    decreases |data|
  {
    if |part| < 8 {
      assert Payload(part) == [];
    } else {
      var size, p, d := U32(data[4..8]), part[8..], data[8..];
      SameHeader(part, data);
      PayloadOf(part, size, p);
      PayloadOf(data, size, d);
      if size <= |p| {
        assert p[..size] == d[..size] && p[size..] <= d[size..];
        PrefixDecodesToPrefix(p[size..], d[size..]);
        JoinPrefix(d[..size], Payload(p[size..]), Payload(d[size..]));
      } else if size <= |d| {
        CutBegins(p, d, size, Payload(d[size..]));
      }
    }
  }

  lemma CutBegins(p: seq<Byte>, d: seq<Byte>, size: nat, rest: seq<Byte>)
    requires p <= d && |p| <= size <= |d|
    ensures p <= d[..size] + rest
  {
  }

  lemma JoinPrefix(a: seq<Byte>, b: seq<Byte>, c: seq<Byte>)
    requires b <= c
    ensures a + b <= a + c
  {
  }

  // ------------------------------------------------------------------------- headers, byte by byte

  lemma U32OfBytes(b0: Byte, b1: Byte, b2: Byte, b3: Byte)
    ensures U32([b0, b1, b2, b3]) == b0 * 0x100_0000 + b1 * 0x1_0000 + b2 * 0x100 + b3
  {
    UnsignedOfFour([b0, b1, b2, b3]);
  }

  /** The first four bytes of a framed body: the stream (0 input, 1 output, 2 errors) and three zeros. */
  ghost predicate BeginsWith(data: seq<Byte>, kind: Byte) {
    |data| >= 8 && data[..4] == [kind, 0, 0, 0]
  }

  lemma FramedMeans(data: seq<Byte>)
    ensures LooksLikeFrameHeader(data) <==> BeginsWith(data, 0) || BeginsWith(data, 1) || BeginsWith(data, 2)
  {
    if LooksLikeFrameHeader(data) {
      assert data[..4] == [data[0], 0, 0, 0];
    } else if |data| >= 8 {
      var four := data[..4];
      assert four[0] == data[0] && four[1] == data[1] && four[2] == data[2] && four[3] == data[3];
    }
  }

  /** Frames are recognised exactly when the first one names a known stream and has a zero reserve. */
  lemma FramedIff(fs: seq<Frame>)
    requires AllEncodable(fs)
    ensures LooksLikeFrameHeader(Encode(fs)) <==> fs != [] && fs[0].kind <= 2 && fs[0].reserved == [0, 0, 0]
  {
    if fs != [] {
      HeaderOf(fs[0], Encode(fs[1..]));
      var (data, reserved) := (Encode(fs), fs[0].reserved);
      assert data[0] == fs[0].kind && data[1] == reserved[0] && data[2] == reserved[1] && data[3] == reserved[2];
      assert reserved == [reserved[0], reserved[1], reserved[2]];
    }
  }
}
