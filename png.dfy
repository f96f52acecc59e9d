/** The PNG size reader of vendor/github.com/fumiama/imgsz/png.go: the
    signature, then chunk after chunk until the IHDR chunk, which gives the
    width and height (sections 5.2, 5.3 and 11.2.2 of the PNG
    specification, second edition). */
module Png {
  import opened Text
  import opened ByteStream

  // ---- constants -------------------------------------------------------------

  /** "\x89PNG\r\n\x1a\n". */
  const PngSignature: seq<byte> := [0x89, 0x50, 0x4E, 0x47, 0x0D, 0x0A, 0x1A, 0x0A]
  /** The chunk type "IHDR". */
  const IhdrType: seq<byte> := [0x49, 0x48, 0x44, 0x52]

  /** Colour-type / bit-depth combinations, numbered as in the source. */
  const CbInvalid := 0
  const CbP1 := 7
  const CbP8 := 10

  /** Decoding stages. */
  const DsStart := 0
  const DsSeenIHDR := 1
  const DsSeenPLTE := 2

  const ItNone := 0
  const ItAdam7 := 1

  const ChunkOrderError := FormatError("chunk out of order")

  predicate Paletted(cb: int)
  {
    CbP1 <= cb <= CbP8
  }

  // ---- CRC-32 (IEEE, reflected, as hash/crc32 computes it) -------------------

  const CrcPolynomial: bv32 := 0xEDB88320
  const CrcInit: bv32 := 0xFFFFFFFF

  /** k rounds of the bitwise CRC register shift. */
  function CrcShift(c: bv32, k: nat): bv32
    decreases k
  {
    if k == 0 then c
    else CrcShift(if c & 1 == 1 then (c >> 1) ^ CrcPolynomial else c >> 1, k - 1)
  }

  /** The register after feeding it the byte x. */
  function CrcByte(c: bv32, x: byte): bv32
  {
    CrcShift(c ^ (x as bv32), 8)
  }

  /** The register after feeding b to it. */
  function CrcUpdate(c: bv32, b: seq<byte>): bv32
    decreases |b|
  {
    if b == [] then c else CrcUpdate(CrcByte(c, b[0]), b[1..])
  }

  /** CRC-32 of b, as an unsigned 32-bit number. */
  function Crc32(b: seq<byte>): (r: nat)
    ensures r < 0x1_0000_0000
  {
    (CrcUpdate(CrcInit, b) ^ CrcInit) as nat
  }

  /** The known answer of the IEEE CRC-32 for the single byte 'a'. */
  lemma Crc32KnownAnswer()
    ensures Crc32([0x61]) == 0xE8B7BE43
  {
    assert CrcShift(0x174841BC, 0) == 0x174841BC;
    assert CrcShift(0x2E908378, 1) == 0x174841BC;
    assert CrcShift(0x5D2106F0, 2) == 0x174841BC;
    assert CrcShift(0xBA420DE0, 3) == 0x174841BC;
    assert CrcShift(0xAFF51D81, 4) == 0x174841BC;
    assert CrcShift(0x849B3D43, 5) == 0x174841BC;
    assert CrcShift(0xD2477CC7, 6) == 0x174841BC;
    assert CrcShift(0x7FFFFFCF, 7) == 0x174841BC;
    assert CrcByte(CrcInit, 0x61) == CrcShift(0xFFFFFF9E, 8) == 0x174841BC;
    assert [0x61 as byte][1..] == [];
  }

  /** Feeding a and then b is feeding a + b: the register can be updated
      piece by piece. */
  lemma {:induction false} CrcUpdateAppend(c: bv32, a: seq<byte>, b: seq<byte>)
    ensures CrcUpdate(c, a + b) == CrcUpdate(CrcUpdate(c, a), b)
    decreases |a|
  {
    if a != [] {
      assert a + b != [];
      assert (a + b)[0] == a[0];
      assert (a + b)[1..] == a[1..] + b;
      var c' := CrcByte(c, a[0]);
      assert CrcUpdate(c, a + b) == CrcUpdate(c', a[1..] + b);
      assert CrcUpdate(c, a) == CrcUpdate(c', a[1..]);
      CrcUpdateAppend(c', a[1..], b);
    } else {
      assert a + b == b;
    }
  }

  // ---- the reading steps, as functions of the stream -------------------------

  /** binary.BigEndian.Uint32 read as Go's int32. */
  function Int32(x: nat): (r: int)
    requires x < 0x1_0000_0000
    ensures -0x8000_0000 <= r < 0x8000_0000
    ensures r >= 0 <==> x < 0x8000_0000
  {
    if x < 0x8000_0000 then x else x - 0x1_0000_0000
  }

  /** checkHeader: the error (if any) and where the stream is left. */
  function CheckHeaderAt(data: seq<byte>, p: nat): (r: (Option<Error>, nat))
    requires p <= |data|
    ensures p <= r.1 <= |data|
  {
    var rf := ReadFullFrom(data, p, 8);
    if rf.2.Some? then (rf.2, rf.1)
    else if rf.0 != PngSignature then (Some(FormatError("not a PNG file")), rf.1)
    else (None, rf.1)
  }

  /** verifyChecksum against the sum `sum` of the bytes fed to the CRC. */
  function VerifyChecksumAt(data: seq<byte>, p: nat, sum: nat): (r: (Option<Error>, nat))
    requires p <= |data|
    ensures p <= r.1 <= |data|
    ensures r.0.None? ==> r.1 == p + 4
  {
    var rf := ReadFullFrom(data, p, 4);
    if rf.2.Some? then (rf.2, rf.1)
    else if BigEndian(rf.0) != sum then (Some(FormatError("invalid checksum")), rf.1)
    else (None, rf.1)
  }

  /** parseIHDR after `prior` has been fed to the CRC: the error, where the
      stream is left, and the size it records when it succeeds. */
  function IhdrAt(data: seq<byte>, q: nat, length: nat, prior: seq<byte>): (r: (Option<Error>, nat, Size))
    requires q <= |data|
    ensures q <= r.1 <= |data|
  {
    if length != 13 then (Some(FormatError("bad IHDR length")), q, Size(0, 0))
    else
      var rf := ReadFullFrom(data, q, 13);
      if rf.2.Some? then (rf.2, rf.1, Size(0, 0))
      else IhdrFieldsAt(data, rf.1, rf.0, prior)
  }

  /** The checks parseIHDR makes on the 13 bytes b it read, the stream being
      left at p. */
  function IhdrFieldsAt(data: seq<byte>, p: nat, b: seq<byte>, prior: seq<byte>): (r: (Option<Error>, nat, Size))
    requires p <= |data| && |b| == 13
    ensures p <= r.1 <= |data|
  {
    if b[10] != 0 then (Some(UnsupportedError("compression method")), p, Size(0, 0))
    else if b[11] != 0 then (Some(UnsupportedError("filter method")), p, Size(0, 0))
    else if b[12] as int != ItNone && b[12] as int != ItAdam7 then
      (Some(FormatError("invalid interlace method")), p, Size(0, 0))
    else
      BigEndianBound(b[0..4]);
      BigEndianBound(b[4..8]);
      var w := Int32(BigEndian(b[0..4]));
      var h := Int32(BigEndian(b[4..8]));
      if w <= 0 || h <= 0 then (Some(FormatError("non-positive dimension")), p, Size(0, 0))
      else
        var v := VerifyChecksumAt(data, p, Crc32(prior + b));
        (v.0, v.1, Size(w, h))
  }

  /** The skip loop of parseSize: `length` bytes read in pieces of at most
      4096. Its error is EOF when the stream ends exactly between two
      pieces. */
  function SkipAt(data: seq<byte>, p: nat, length: nat): (r: (Option<Error>, nat))
    requires p <= |data|
    ensures p <= r.1 <= |data|
    ensures r.0.None? <==> p + length <= |data|
    ensures r.0.None? ==> r.1 == p + length
    ensures r.0.Some? ==> r.0.value == EOF || r.0.value == UnexpectedEOF
    decreases length
  {
    if length == 0 then (None, p)
    else
      var rf := ReadFullFrom(data, p, Min(4096, length));
      if rf.2.Some? then (rf.2, rf.1)
      else SkipAt(data, rf.1, length - Min(4096, length))
  }

  /** parseSize at p in stage `stage`: whether the chunk was IHDR, the error,
      where the stream is left, and the size recorded on success. */
  function ParseSizeAt(data: seq<byte>, p: nat, stage: int): (r: (bool, Option<Error>, nat, Size))
    requires p <= |data|
    ensures p <= r.2 <= |data|
    ensures r.1.None? && !r.0 ==> r.2 >= p + 12
  {
    var rf := ReadFullFrom(data, p, 8);
    if rf.2.Some? then (false, rf.2, rf.1, Size(0, 0))
    else ChunkAt(data, rf.1, BigEndian(rf.0[..4]), rf.0[4..8], stage)
  }

  /** What parseSize does with a chunk of the given length and type whose
      header has been read, the stream being at q. */
  function ChunkAt(data: seq<byte>, q: nat, length: nat, kind: seq<byte>, stage: int): (r: (bool, Option<Error>, nat, Size))
    requires q <= |data|
    ensures q <= r.2 <= |data|
    ensures r.1.None? && !r.0 ==> r.2 >= q + 4
  {
    if kind == IhdrType then
      if stage != DsStart then (false, Some(ChunkOrderError), q, Size(0, 0))
      else
        var h := IhdrAt(data, q, length, kind);
        (true, h.0, h.1, h.2)
    else if length > 0x7fffffff then
      (false, Some(FormatError("Bad chunk length: " + NatToString(length))), q, Size(0, 0))
    else SkippedAt(data, q, length, kind)
  }

  /** A chunk parseSize skips: its data, then its CRC. */
  function SkippedAt(data: seq<byte>, q: nat, length: nat, kind: seq<byte>): (r: (bool, Option<Error>, nat, Size))
    requires q <= |data|
    ensures q <= r.2 <= |data| && !r.0
    ensures r.1.None? ==> r.2 == q + length + 4
  {
    var s := SkipAt(data, q, length);
    if s.0.Some? then (false, s.0, s.1, Size(0, 0))
    else
      var v := VerifyChecksumAt(data, s.1, Crc32(kind + data[q..s.1]));
      (false, v.0, v.1, Size(0, 0))
  }

  /** decodepng's conversion of the errors it passes on. */
  function Unexpected(e: Error): (r: Error)
    ensures r != EOF
  {
    if e == EOF then UnexpectedEOF else e
  }

  /** The chunk loop of decodepng from p. */
  function DecodeChunks(data: seq<byte>, p: nat): Result<Size>
    requires p <= |data|
    decreases |data| - p
  {
    var c := ParseSizeAt(data, p, DsStart);
    if c.1.Some? then Failure(Unexpected(c.1.value))
    else if c.0 then Success(c.3)
    else DecodeChunks(data, c.2)
  }

  /** decodepng on a stream at p. */
  function DecodePng(data: seq<byte>, p: nat): Result<Size>
    requires p <= |data|
  {
    var h := CheckHeaderAt(data, p);
    if h.0.Some? then Failure(Unexpected(h.0.value)) else DecodeChunks(data, h.1)
  }

  // ---- the decoder ------------------------------------------------------------

  class PngDecoder {
    const r: Reader
    /** The state of the hash.Hash32: the bytes written to it since its last
        Reset (CrcUpdateAppend is why this is all the state it needs). */
    var written: seq<byte>
    var width: int
    var height: int
    var cb: int
    var stage: int
    const tmp: array<byte>
    var interlace: int

    ghost predicate Valid()
      reads this, r
    {
      r.Valid() && tmp.Length == 3 * 256
    }

    constructor (r: Reader)
      requires r.Valid()
      ensures Valid() && this.r == r && fresh(tmp)
      ensures written == [] && width == 0 && height == 0
      ensures cb == CbInvalid && stage == DsStart && interlace == 0
    {
      this.r := r;
      written := [];
      width, height := 0, 0;
      cb := CbInvalid;
      stage := DsStart;
      tmp := new byte[3 * 256];
      interlace := 0;
    }

    method ResetCrc()
      requires Valid()
      modifies this
      ensures Valid() && written == []
      ensures width == old(width) && height == old(height) && cb == old(cb)
      ensures stage == old(stage) && interlace == old(interlace)
    {
      written := [];
    }

    method WriteCrc(b: seq<byte>)
      requires Valid()
      modifies this
      ensures Valid() && written == old(written) + b
      ensures width == old(width) && height == old(height) && cb == old(cb)
      ensures stage == old(stage) && interlace == old(interlace)
    {
      written := written + b;
    }

    /** Sum32 of the CRC: the checksum of the bytes written since the reset. */
    function Sum32(): nat
      reads this
    {
      Crc32(written)
    }

    method VerifyChecksum() returns (err: Option<Error>)
      requires Valid()
      modifies this, r, tmp
      ensures Valid() && written == old(written)
      ensures (err, r.pos) == VerifyChecksumAt(r.data, old(r.pos), Crc32(old(written)))
      ensures width == old(width) && height == old(height) && cb == old(cb)
      ensures stage == old(stage) && interlace == old(interlace)
    {
      var k, e := r.ReadFullInto(tmp, 4);
      if e.Some? {
        return e;
      }
      if BigEndian(tmp[..4]) != Sum32() {
        return Some(FormatError("invalid checksum"));
      }
      return None;
    }

    method CheckHeader() returns (err: Option<Error>)
      requires Valid()
      modifies this, r, tmp
      ensures Valid() && written == old(written)
      ensures (err, r.pos) == CheckHeaderAt(r.data, old(r.pos))
      ensures width == old(width) && height == old(height) && cb == old(cb)
      ensures stage == old(stage) && interlace == old(interlace)
    {
      var k, e := r.ReadFullInto(tmp, |PngSignature|);
      if e.Some? {
        return e;
      }
      if tmp[..|PngSignature|] != PngSignature {
        return Some(FormatError("not a PNG file"));
      }
      return None;
    }

    method ParseIHDR(length: nat) returns (err: Option<Error>)
      requires Valid()
      modifies this, r, tmp
      ensures Valid()
      ensures var h := IhdrAt(r.data, old(r.pos), length, old(written));
        && (err, r.pos) == (h.0, h.1)
        && (err.None? ==> Size(width, height) == h.2)
      ensures cb == old(cb) && stage == old(stage)
    {
      ghost var q := r.pos;
      ghost var prior := written;
      if length != 13 {
        return Some(FormatError("bad IHDR length"));
      }
      var k, e := r.ReadFullInto(tmp, 13);
      if e.Some? {
        return e;
      }
      WriteCrc(tmp[..13]);
      err := CheckIHDR(prior);
    }

    /** The checks of parseIHDR on the 13 bytes it read into tmp, which have
        been fed to the CRC after `prior`. */
    method CheckIHDR(ghost prior: seq<byte>) returns (err: Option<Error>)
      requires Valid() && written == prior + tmp[..13]
      modifies this, r, tmp
      ensures Valid()
      ensures var h := IhdrFieldsAt(r.data, old(r.pos), old(tmp[..13]), prior);
        && (err, r.pos) == (h.0, h.1)
        && (err.None? ==> Size(width, height) == h.2 && 0 <= interlace <= 1)
      ensures cb == old(cb) && stage == old(stage)
    {
      ghost var b := tmp[..13];
      if tmp[10] != 0 {
        return Some(UnsupportedError("compression method"));
      }
      if tmp[11] != 0 {
        return Some(UnsupportedError("filter method"));
      }
      if tmp[12] as int != ItNone && tmp[12] as int != ItAdam7 {
        return Some(FormatError("invalid interlace method"));
      }
      interlace := tmp[12] as int;
      assert tmp[0..4] == b[0..4] && tmp[4..8] == b[4..8];
      BigEndianBound(tmp[0..4]);
      BigEndianBound(tmp[4..8]);
      var w := Int32(BigEndian(tmp[0..4]));
      var h := Int32(BigEndian(tmp[4..8]));
      if w <= 0 || h <= 0 {
        return Some(FormatError("non-positive dimension"));
      }
      width, height := w, h;
      err := VerifyChecksum();
    }

    /** parseSize: reads one chunk header and either parses IHDR or skips the
        chunk and checks its CRC. */
    method ParseSize() returns (ok: bool, err: Option<Error>)
      requires Valid()
      modifies this, r, tmp
      ensures Valid()
      ensures var c := ParseSizeAt(r.data, old(r.pos), old(stage));
        && (ok, err, r.pos) == (c.0, c.1, c.2)
        && (ok && err.None? ==> Size(width, height) == c.3)
      ensures ok ==> stage == DsSeenIHDR
      ensures !ok ==> stage == old(stage)
      ensures cb == old(cb)
    {
      ghost var p := r.pos;
      var k, e := r.ReadFullInto(tmp, 8);
      if e.Some? {
        return false, e;
      }
      var length := BigEndian(tmp[..4]);
      var kind := tmp[4..8];
      assert tmp[..8] == r.data[p..p + 8];
      assert tmp[..4] == r.data[p..p + 8][..4] && kind == r.data[p..p + 8][4..8];
      ghost var c := ChunkAt(r.data, r.pos, length, kind, stage);
      assert ParseSizeAt(r.data, p, stage) == c;
      ResetCrc();
      WriteCrc(kind);
      assert written == kind;
      if kind == IhdrType {
        if stage != DsStart {
          return false, Some(ChunkOrderError);
        }
        stage := DsSeenIHDR;
        ghost var h := IhdrAt(r.data, r.pos, length, kind);
        assert c == (true, h.0, h.1, h.2);
        err := ParseIHDR(length);
        return true, err;
      }
      if length > 0x7fffffff {
        return false, Some(FormatError("Bad chunk length: " + NatToString(length)));
      }
      assert c == SkippedAt(r.data, r.pos, length, kind);
      ok, err := SkipChunk(length, kind);
    }

    /** The end of parseSize for a chunk it skips: the data, then the CRC. */
    method SkipChunk(length: nat, kind: seq<byte>) returns (ok: bool, err: Option<Error>)
      requires Valid() && written == kind
      modifies this, r, tmp
      ensures Valid()
      ensures var s := SkippedAt(r.data, old(r.pos), length, kind);
        (ok, err, r.pos) == (s.0, s.1, s.2)
      ensures width == old(width) && height == old(height) && cb == old(cb) && stage == old(stage)
    {
      ghost var q := r.pos;
      err := SkipData(length, kind);
      if err.Some? {
        return false, err;
      }
      ok := false;
      err := VerifyChecksum();
    }

    /** The skip loop of parseSize: `length` bytes read into a 4096-byte
        buffer and fed to the CRC. */
    method SkipData(length: nat, ghost kind: seq<byte>) returns (err: Option<Error>)
      requires Valid() && written == kind
      modifies this, r
      ensures Valid()
      ensures (err, r.pos) == SkipAt(r.data, old(r.pos), length)
      ensures err.None? ==> written == kind + r.data[old(r.pos)..r.pos]
      ensures width == old(width) && height == old(height) && cb == old(cb) && stage == old(stage)
    {
      var start := r.pos;
      var rest := length;
      var ignored := new byte[4096];
      while rest > 0
        invariant Valid() && start <= r.pos <= |r.data|
        invariant width == old(width) && height == old(height) && cb == old(cb) && stage == old(stage)
        invariant written == kind + r.data[start..r.pos]
        invariant SkipAt(r.data, start, length) == SkipAt(r.data, r.pos, rest)
        decreases rest
      {
        ghost var before := r.pos;
        var n, e := r.ReadFullInto(ignored, Min(4096, rest));
        if e.Some? {
          return e;
        }
        WriteCrc(ignored[..n]);
        assert r.data[start..r.pos] == r.data[start..before] + r.data[before..r.pos];
        rest := rest - n;
      }
      return None;
    }
  }

  /** decodepng. */
  method DecodePngFrom(r: Reader) returns (size: Size, err: Option<Error>)
    requires r.Valid()
    modifies r
    ensures var d := DecodePng(r.data, old(r.pos));
      if d.Success? then err.None? && size == d.value
      else err == Some(d.error) && size == Size(0, 0)
  {
    ghost var p := r.pos;
    var d := new PngDecoder(r);
    var e := d.CheckHeader();
    if e.Some? {
      if e == Some(EOF) {
        e := Some(UnexpectedEOF);
      }
      return Size(0, 0), e;
    }
    while true
      invariant d.Valid() && d.r == r && fresh(d) && fresh(d.tmp)
      invariant d.stage == DsStart && d.cb == CbInvalid
      invariant DecodePng(r.data, p) == DecodeChunks(r.data, r.pos)
      decreases |r.data| - r.pos
    {
      var ok;
      ok, e := d.ParseSize();
      if e.Some? {
        if e == Some(EOF) {
          e := Some(UnexpectedEOF);
        }
        return Size(0, 0), e;
      }
      if ok {
        return Size(d.width, d.height), None;
      }
      var paletted := Paletted(d.cb);
      if d.stage == DsSeenIHDR && !paletted {
        assert false;
        break;
      }
      if d.stage == DsSeenPLTE && paletted {
        assert false;
        break;
      }
    }
  }

  // ---- properties ----------------------------------------------------------

  /** The four bytes of x, most significant first. */
  function BE4(x: nat): (b: seq<byte>)
    requires x < 0x1_0000_0000
    ensures |b| == 4
  {
    [(x / 0x100_0000) as byte, (x / 0x1_0000 % 256) as byte, (x / 256 % 256) as byte, (x % 256) as byte]
  }

  lemma BE4RoundTrip(x: nat)
    requires x < 0x1_0000_0000
    ensures BigEndian(BE4(x)) == x
  {
    var b := BE4(x);
    assert b[..3][..2][..1][..0] == [];
    assert BigEndian(b[..3][..2][..1]) == b[0] as nat;
    assert b[..3][..2] == b[..2] && b[..3][..2][..1] == b[..1];
    assert BigEndian(b[..2]) == b[0] as nat * 256 + b[1] as nat;
    assert BigEndian(b[..3]) == (b[0] as nat * 256 + b[1] as nat) * 256 + b[2] as nat;
  }

  /** A chunk as it is laid out in the stream: length, type, data and the
      CRC of type and data. */
  function ChunkBytes(kind: seq<byte>, body: seq<byte>): (c: seq<byte>)
    requires |body| < 0x1_0000_0000
    ensures |c| == 8 + |kind| + |body|
  {
    BE4(|body|) + kind + body + BE4(Crc32(kind + body))
  }

  /** The 13 data bytes of an IHDR chunk. */
  function IhdrBody(width: nat, height: nat, depth: byte, colour: byte, interlace: byte): (b: seq<byte>)
    requires width < 0x8000_0000 && height < 0x8000_0000
    ensures |b| == 13
  {
    BE4(width) + BE4(height) + [depth, colour, 0, 0, interlace]
  }

  /** A PNG whose first chunk is the IHDR chunk for the given fields. */
  function EncodePng(width: nat, height: nat, depth: byte, colour: byte, interlace: byte): seq<byte>
    requires width < 0x8000_0000 && height < 0x8000_0000
  {
    PngSignature + ChunkBytes(IhdrType, IhdrBody(width, height, depth, colour, interlace))
  }

  /** Reading the chunk laid out at p as length, type, data and the four
      bytes crc: the header gives the length and type, then come the data and
      the stored CRC. */
  lemma ChunkLayout(data: seq<byte>, p: nat, kind: seq<byte>, body: seq<byte>, crc: seq<byte>)
    requires |kind| == 4 && |body| < 0x1_0000_0000 && |crc| == 4
    requires p + 12 + |body| <= |data| && data[p..p + 12 + |body|] == BE4(|body|) + kind + body + crc
    ensures var rf := ReadFullFrom(data, p, 8);
      && rf == (data[p..p + 8], p + 8, None)
      && BigEndian(rf.0[..4]) == |body| && rf.0[4..8] == kind
    ensures data[p + 8..p + 8 + |body|] == body
    ensures data[p + 8 + |body|..p + 12 + |body|] == crc
  {
    var h := BE4(|body|) + kind;
    var c := h + body + crc;
    var whole := data[p..p + 12 + |body|];
    assert whole == c;
    assert data[p..p + 8] == whole[..8] == h;
    assert h[..4] == BE4(|body|) && h[4..8] == kind;
    BE4RoundTrip(|body|);
    assert c[..8 + |body|] == h + body;
    assert whole[8..8 + |body|] == (h + body)[8..] == body;
    var d, w := data[p + 8..p + 8 + |body|], whole[8..8 + |body|];
    forall k | 0 <= k < |body|
      ensures d[k] == w[k]
    {
      assert whole[8 + k] == data[p + 8 + k];
    }
    assert d == w;
    assert data[p + 8 + |body|..p + 12 + |body|] == whole[8 + |body|..] == crc;
  }

  /** A well-formed chunk other than IHDR is skipped: decoding goes on from
      the byte after it, whatever the chunk held. */
  lemma SkipsChunk(data: seq<byte>, p: nat, kind: seq<byte>, body: seq<byte>)
    requires |kind| == 4 && kind != IhdrType && |body| <= 0x7fffffff
    requires p + 12 + |body| <= |data| && data[p..p + 12 + |body|] == ChunkBytes(kind, body)
    ensures DecodeChunks(data, p) == DecodeChunks(data, p + 12 + |body|)
  {
    var crc := BE4(Crc32(kind + body));
    ChunkLayout(data, p, kind, body, crc);
    var q := p + 8 + |body|;
    BE4RoundTrip(Crc32(kind + body));
    assert SkipAt(data, p + 8, |body|) == (None, q);
    assert VerifyChecksumAt(data, q, Crc32(kind + body)) == (None, q + 4);
    assert SkippedAt(data, p + 8, |body|, kind) == (false, None, q + 4, Size(0, 0));
    assert ParseSizeAt(data, p, DsStart) == ChunkAt(data, p + 8, |body|, kind, DsStart);
  }

  /** A chunk other than IHDR whose stored CRC is not that of its type and
      data ends decoding with "invalid checksum". */
  lemma RejectsBadChecksum(data: seq<byte>, p: nat, kind: seq<byte>, body: seq<byte>, crc: nat)
    requires |kind| == 4 && kind != IhdrType && |body| <= 0x7fffffff
    requires crc < 0x1_0000_0000 && crc != Crc32(kind + body)
    requires p + 12 + |body| <= |data|
    requires data[p..p + 12 + |body|] == BE4(|body|) + kind + body + BE4(crc)
    ensures DecodeChunks(data, p) == Failure(FormatError("invalid checksum"))
  {
    ChunkLayout(data, p, kind, body, BE4(crc));
    var q := p + 8 + |body|;
    BE4RoundTrip(crc);
    assert SkipAt(data, p + 8, |body|) == (None, q);
    assert VerifyChecksumAt(data, q, Crc32(kind + body)) == (Some(FormatError("invalid checksum")), q + 4);
    assert ParseSizeAt(data, p, DsStart) == ChunkAt(data, p + 8, |body|, kind, DsStart);
  }

  /** The IHDR chunk for positive dimensions and interlace method 0 or 1
      yields those dimensions, whatever the bit depth and colour type. */
  lemma IhdrChunkDecodes(data: seq<byte>, p: nat, width: nat, height: nat, depth: byte, colour: byte, interlace: byte)
    requires 0 < width < 0x8000_0000 && 0 < height < 0x8000_0000 && interlace <= 1
    requires p + 25 <= |data|
    requires data[p..p + 25] == ChunkBytes(IhdrType, IhdrBody(width, height, depth, colour, interlace))
    ensures DecodeChunks(data, p) == Success(Size(width, height))
  {
    var body := IhdrBody(width, height, depth, colour, interlace);
    ChunkLayout(data, p, IhdrType, body, BE4(Crc32(IhdrType + body)));
    assert body[0..4] == BE4(width) && body[4..8] == BE4(height);
    BE4RoundTrip(width);
    BE4RoundTrip(height);
    BE4RoundTrip(Crc32(IhdrType + body));
    assert ReadFullFrom(data, p + 8, 13) == (body, p + 21, None);
    assert IhdrFieldsAt(data, p + 21, body, IhdrType) == (None, p + 25, Size(width, height));
  }

  /** Encoding an IHDR chunk after the signature and decoding gives the
      width and height back; what follows the chunk is never read. */
  lemma EncodeDecode(width: nat, height: nat, depth: byte, colour: byte, interlace: byte, rest: seq<byte>)
    requires 0 < width < 0x8000_0000 && 0 < height < 0x8000_0000 && interlace <= 1
    ensures DecodePng(EncodePng(width, height, depth, colour, interlace) + rest, 0) == Success(Size(width, height))
  {
    var data := EncodePng(width, height, depth, colour, interlace) + rest;
    assert data[0..8] == PngSignature;
    assert data[8..33] == ChunkBytes(IhdrType, IhdrBody(width, height, depth, colour, interlace));
    IhdrChunkDecodes(data, 8, width, height, depth, colour, interlace);
  }

  /** Fewer than 8 bytes, or 8 that are not the signature, are rejected
      before any chunk is read. */
  lemma RejectsNonPng(data: seq<byte>, p: nat)
    requires p <= |data|
    ensures |data| - p < 8 ==> DecodePng(data, p) == Failure(UnexpectedEOF)
    ensures |data| - p >= 8 && data[p..p + 8] != PngSignature ==>
      DecodePng(data, p) == Failure(FormatError("not a PNG file"))
  {
  }

  /** A chunk other than IHDR that declares more than 0x7fffffff bytes is
      rejected, the length shown in decimal. */
  lemma RejectsLongChunk(data: seq<byte>, p: nat)
    requires p + 8 <= |data| && data[p + 4..p + 8] != IhdrType
    requires BigEndian(data[p..p + 4]) > 0x7fffffff
    ensures DecodeChunks(data, p) ==
      Failure(FormatError("Bad chunk length: " + NatToString(BigEndian(data[p..p + 4]))))
  {
    assert data[p..p + 8][..4] == data[p..p + 4] && data[p..p + 8][4..8] == data[p + 4..p + 8];
  }

  /** An IHDR chunk after the first stage is out of order. */
  lemma IhdrOutOfOrder(data: seq<byte>, p: nat, stage: int)
    requires p + 8 <= |data| && data[p + 4..p + 8] == IhdrType && stage != DsStart
    ensures ParseSizeAt(data, p, stage).1 == Some(ChunkOrderError)
  {
    assert data[p..p + 8][4..8] == data[p + 4..p + 8];
  }

  /** A width or height field with the top bit set is negative as int32 and
      rejected as a non-positive dimension. */
  lemma RejectsHighBitDimension(data: seq<byte>, p: nat, b: seq<byte>, prior: seq<byte>)
    requires p <= |data| && |b| == 13 && b[10] == 0 && b[11] == 0 && b[12] <= 1
    requires BigEndian(b[0..4]) >= 0x8000_0000 || BigEndian(b[4..8]) >= 0x8000_0000
    ensures IhdrFieldsAt(data, p, b, prior).0 == Some(FormatError("non-positive dimension"))
  {
    BigEndianBound(b[0..4]);
    BigEndianBound(b[4..8]);
    assert Pow256(4) == 0x1_0000_0000;
  }

  /** Every size decoded is positive and below 2^31, every error that ends
      the chunk loop has been turned from EOF into ErrUnexpectedEOF, and the
      IHDR order check never fires, since the loop never leaves the first
      stage. */
  lemma {:induction false} DecodeChunksFacts(data: seq<byte>, p: nat)
    requires p <= |data|
    ensures DecodeChunks(data, p).Success? ==>
      0 < DecodeChunks(data, p).value.width < 0x8000_0000 &&
      0 < DecodeChunks(data, p).value.height < 0x8000_0000
    ensures DecodeChunks(data, p) != Failure(EOF)
    ensures DecodeChunks(data, p) != Failure(ChunkOrderError)
    decreases |data| - p
  {
    var c := ParseSizeAt(data, p, DsStart);
    if c.1.None? && !c.0 {
      DecodeChunksFacts(data, c.2);
    }
  }

  /** A decoded stream starts with the signature and its size is positive;
      an error is never the bare EOF, which decodepng reports as
      ErrUnexpectedEOF. */
  lemma DecodePngFacts(data: seq<byte>, p: nat)
    requires p <= |data|
    ensures DecodePng(data, p).Success? ==>
      p + 8 <= |data| && data[p..p + 8] == PngSignature &&
      0 < DecodePng(data, p).value.width < 0x8000_0000 &&
      0 < DecodePng(data, p).value.height < 0x8000_0000
    ensures DecodePng(data, p) != Failure(EOF)
  {
    var h := CheckHeaderAt(data, p);
    if h.0.None? {
      DecodeChunksFacts(data, h.1);
    }
  }
}
