/** Properties of the WebP size reader of vendor/github.com/fumiama/imgsz/webp.go:
    encoders for the RIFF and chunk headers and the VP8, VP8L and VP8X
    payloads, and what decodewebp makes of the files they build. */
module WebpProperties {
  import opened Text
  import opened ByteStream
  import opened Webp

  // ---- little-endian fields ------------------------------------------------

  /** A uint32 as four little-endian bytes. */
  function Le32(x: nat): (b: seq<byte>)
    requires x < Two32
    ensures |b| == 4
  {
    [(x % 256) as byte, (x / 256 % 256) as byte, (x / 0x1_0000 % 256) as byte, (x / 0x100_0000) as byte]
  }

  /** u32 reads back what Le32 writes. */
  lemma U32Le32(x: nat)
    requires x < Two32
    ensures U32(Le32(x)) == x
  {
    var q1, q2, q3 := x / 256, x / 256 / 256, x / 256 / 256 / 256;
    assert x == x % 256 + 256 * q1;
    assert q1 == q1 % 256 + 256 * q2;
    assert q2 == q2 % 256 + 256 * q3;
    DivDiv(x, 256, 256);
    DivDiv(x, 0x1_0000, 256);
    DivDiv(x / 256, 256, 256);
    assert x / 0x1_0000 == q2;
    assert x / 0x100_0000 == q3;
  }

  /** Le32 writes back the four bytes u32 read. */
  lemma Le32U32(b: seq<byte>)
    requires |b| >= 4
    ensures Le32(U32(b)) == b[..4]
  {
    var x := U32(b);
    var b0, b1, b2, b3 := b[0] as nat, b[1] as nat, b[2] as nat, b[3] as nat;
    DivModUnique(x, 256, b1 + 256 * b2 + 0x1_0000 * b3, b0);
    DivModUnique(x / 256, 256, b2 + 256 * b3, b1);
    DivModUnique(x, 0x1_0000, b2 + 256 * b3, b0 + 256 * b1);
    DivModUnique(x / 0x1_0000, 256, b3, b2);
    DivModUnique(x, 0x100_0000, b3, b0 + 256 * b1 + 0x1_0000 * b2);
  }

  /** u32 is the little-endian value of the first four bytes. */
  lemma U32IsLittleEndian(b: seq<byte>)
    requires |b| >= 4
    ensures U32(b) == LittleEndian(b[..4])
  {
    var c := b[..4];
    assert c[3..] == [b[3]] && c[3..][1..] == [];
    assert c[2..][1..] == c[3..] && c[1..][1..] == c[2..];
    assert LittleEndian(c[3..]) == b[3] as nat;
    assert LittleEndian(c[2..]) == b[2] as nat + 256 * b[3] as nat;
    assert LittleEndian(c[1..]) == b[1] as nat + 256 * (b[2] as nat + 256 * b[3] as nat);
  }

  /** A 24-bit value as three little-endian bytes. */
  function Le24(x: nat): (b: seq<byte>)
    requires x < 0x100_0000
    ensures |b| == 3
  {
    [(x % 256) as byte, (x / 256 % 256) as byte, (x / 0x1_0000) as byte]
  }

  lemma U24Le24(x: nat)
    requires x < 0x100_0000
    ensures U24(Le24(x)) == x
  {
    var q1, q2 := x / 256, x / 256 / 256;
    assert x == x % 256 + 256 * q1;
    assert q1 == q1 % 256 + 256 * q2;
    DivDiv(x, 256, 256);
    assert x / 0x1_0000 == q2;
  }

  // ---- RIFF headers --------------------------------------------------------

  /** "RIFF", the list's length and its form type. */
  function RiffHeader(form: seq<byte>, size: nat): (b: seq<byte>)
    requires |form| == 4 && size < Two32
    ensures |b| == 12
  {
    FccRIFF + Le32(size) + form
  }

  /** A chunk header: the four-character code and the payload's length. */
  function ChunkHeader(id: seq<byte>, len: nat): (b: seq<byte>)
    requires |id| == 4 && len < Two32
    ensures |b| == ChunkHeaderSize
  {
    id + Le32(len)
  }

  /** newReader reads back a RIFF header: the form type, and a list of the
      declared length less the four bytes of the form type, with no chunk
      open yet. */
  lemma NewReaderReadsHeader(pre: seq<byte>, form: seq<byte>, size: nat, rest: seq<byte>)
    requires |form| == 4 && 4 <= size < Two32
    ensures var data := pre + RiffHeader(form, size) + rest;
      NewReaderAt(data, |pre|) == Success((form, RiffState(|pre| + 12, None, size - 4, 0, false)))
  {
    var data := pre + RiffHeader(form, size) + rest;
    var p := |pre|;
    assert data[p..p + 4] == FccRIFF;
    assert data[p + 4..p + ChunkHeaderSize] == Le32(size);
    assert data[p + 8..p + 12] == form;
    U32Le32(size);
  }

  /** newReader's errors: fewer than eight bytes or no "RIFF" is a missing RIFF
      header; a declared length below four, or a stream that ends before the
      form type, is short chunk data. */
  lemma NewReaderErrors(data: seq<byte>, p: nat)
    requires p <= |data|
    ensures p + ChunkHeaderSize > |data| ==> NewReaderAt(data, p) == Failure(ErrMissingRIFFChunkHeader)
    ensures p + ChunkHeaderSize <= |data| && data[p..p + 4] != FccRIFF ==>
      NewReaderAt(data, p) == Failure(ErrMissingRIFFChunkHeader)
    ensures (p + ChunkHeaderSize <= |data| && data[p..p + 4] == FccRIFF &&
             (LittleEndian(data[p + 4..p + 8]) < 4 || p + 12 > |data|)) ==>
      NewReaderAt(data, p) == Failure(ErrShortChunkData)
    ensures NewReaderAt(data, p).Success? ==>
      p + 12 <= |data| && data[p..p + 4] == FccRIFF && NewReaderAt(data, p).value.0 == data[p + 8..p + 12]
  {
    if p + ChunkHeaderSize <= |data| {
      U32IsLittleEndian(data[p + 4..p + 8]);
      assert data[p + 4..p + 8][..4] == data[p + 4..p + 8];
    }
  }

  /** The state next reads a header in once the current chunk and its
      padding byte are behind it. */
  function Skipped(s: RiffState): (t: RiffState)
    requires s.chunkLen + s.chunkLen % 2 <= s.totalLen
    ensures t.totalLen <= s.totalLen
  {
    var k := s.chunkLen + s.chunkLen % 2;
    s.(pos := s.pos + k, totalLen := s.totalLen - k, chunkLen := 0)
  }

  /** next skips the rest of the current chunk and, when its length is odd,
      one padding byte, and reads the next header there. */
  lemma NextSkipsChunk(data: seq<byte>, s: RiffState)
    requires RiffInv(data, s) && s.err.None? && s.padded == (s.chunkLen % 2 == 1)
    requires s.chunkLen + s.chunkLen % 2 <= s.totalLen
    requires s.pos + s.chunkLen + s.chunkLen % 2 <= |data|
    ensures NextAt(data, s) == HeaderAt(data, Skipped(s))
  {
    var d := DrainAt(data, s);
    assert d == s.(pos := s.pos + s.chunkLen, totalLen := s.totalLen - s.chunkLen, chunkLen := 0);
  }

  /** The header next reads: a well-formed one opens a chunk of its length,
      padded when that length is odd. */
  lemma HeaderReadsChunk(data: seq<byte>, s: RiffState, id: seq<byte>, len: nat)
    requires RiffInv(data, s) && s.err.None? && s.chunkLen == 0
    requires |id| == 4 && len < Two32 && len + ChunkHeaderSize <= s.totalLen
    requires s.pos + ChunkHeaderSize <= |data| && data[s.pos..s.pos + ChunkHeaderSize] == ChunkHeader(id, len)
    ensures HeaderAt(data, s) == (Success(Chunk(id, len)),
      s.(pos := s.pos + ChunkHeaderSize, totalLen := s.totalLen - ChunkHeaderSize, chunkLen := len, padded := len % 2 == 1))
  {
    assert data[s.pos..s.pos + 4] == data[s.pos..s.pos + ChunkHeaderSize][..4] == id;
    assert data[s.pos + 4..s.pos + ChunkHeaderSize] == data[s.pos..s.pos + ChunkHeaderSize][4..] == Le32(len);
    U32Le32(len);
  }

  /** next's errors at a header: an empty list is EOF; fewer than eight
      bytes left in the list or in the stream is a short chunk header; a
      chunk longer than what is left of the list is too long. Each is also
      recorded as the reader's sticky error. */
  lemma HeaderErrors(data: seq<byte>, s: RiffState)
    requires RiffInv(data, s) && s.err.None? && s.chunkLen == 0
    ensures s.totalLen == 0 ==> HeaderAt(data, s).0 == Failure(EOF)
    ensures 0 < s.totalLen < ChunkHeaderSize ==> HeaderAt(data, s).0 == Failure(ErrShortChunkHeader)
    ensures ChunkHeaderSize <= s.totalLen && s.pos + ChunkHeaderSize > |data| ==>
      HeaderAt(data, s).0 == Failure(ErrShortChunkHeader)
    ensures (ChunkHeaderSize <= s.totalLen && s.pos + ChunkHeaderSize <= |data| &&
             LittleEndian(data[s.pos + 4..s.pos + ChunkHeaderSize]) > s.totalLen - ChunkHeaderSize) ==>
      HeaderAt(data, s).0 == Failure(ErrListSubchunkTooLong)
    ensures HeaderAt(data, s).0.Failure? ==> HeaderAt(data, s).1.err == Some(HeaderAt(data, s).0.error)
  {
    if s.pos + ChunkHeaderSize <= |data| {
      var b := data[s.pos + 4..s.pos + ChunkHeaderSize];
      U32IsLittleEndian(b);
      assert b[..4] == b;
    }
  }

  /** A sticky error is returned again by every later next. */
  lemma NextIsSticky(data: seq<byte>, s: RiffState)
    requires RiffInv(data, s)
    ensures NextAt(data, s).0.Failure? ==> NextAt(data, NextAt(data, s).1) == (NextAt(data, s).0, NextAt(data, s).1)
  {
  }

  // ---- the image headers ---------------------------------------------------

  /** A VP8X chunk's ten bytes: the flags byte, three reserved bytes and the
      canvas width and height less one as 24-bit values. */
  function Vp8xPayload(flags: byte, w: nat, h: nat): (b: seq<byte>)
    requires 1 <= w <= 0x100_0000 && 1 <= h <= 0x100_0000
    ensures |b| == 10
  {
    [flags, 0, 0, 0] + Le24(w - 1) + Le24(h - 1)
  }

  /** The canvas size of a VP8X chunk is what was written, whatever the
      flags say. */
  lemma Vp8xRoundTrip(flags: byte, w: nat, h: nat)
    requires 1 <= w <= 0x100_0000 && 1 <= h <= 0x100_0000
    ensures Vp8xSize(Vp8xPayload(flags, w, h)) == Size(w, h)
  {
    var b := Vp8xPayload(flags, w, h);
    assert b[4..7] == Le24(w - 1) && b[7..10] == Le24(h - 1);
    U24Le24(w - 1);
    U24Le24(h - 1);
  }

  /** Every VP8X canvas dimension lies in 1..2^24. */
  lemma Vp8xSizeBounds(b: seq<byte>)
    requires |b| == 10
    ensures 1 <= Vp8xSize(b).width <= 0x100_0000 && 1 <= Vp8xSize(b).height <= 0x100_0000
  {
  }

  /** The 32 bits after a VP8L signature byte: width and height less one in
      14 bits each, the alpha hint and a 3-bit version. */
  function Vp8lWord(w: nat, h: nat, alpha: bool, version: nat): (x: nat)
    requires 1 <= w <= 0x4000 && 1 <= h <= 0x4000 && version < 8
    ensures x < Two32
  {
    (w - 1) + 0x4000 * ((h - 1) + 0x4000 * ((if alpha then 1 else 0) + 2 * version))
  }

  /** The first five bytes of a VP8L chunk. */
  function Vp8lBytes(w: nat, h: nat, alpha: bool, version: nat): (b: seq<byte>)
    requires 1 <= w <= 0x4000 && 1 <= h <= 0x4000 && version < 8
    ensures |b| == 5
  {
    [0x2f] + Le32(Vp8lWord(w, h, alpha, version))
  }

  lemma Pow2Values()
    ensures Pow2(3) == 8 && Pow2(8) == 256 && Pow2(14) == 0x4000
    ensures Pow2(22) == 256 * 0x4000 && Pow2(37) == 256 * 0x4000 * 0x4000 * 2
  {
    Pow2Add(8, 14);
    Pow2Add(22, 14);
    Pow2Add(36, 1);
  }

  /** The value of a VP8L chunk's first five bytes, least significant bit
      first. */
  function Vp8lValue(w: nat, h: nat, alpha: bool, version: nat): nat
    requires 1 <= w <= 0x4000 && 1 <= h <= 0x4000 && version < 8
  {
    0x2f + 256 * Vp8lWord(w, h, alpha, version)
  }

  lemma Vp8lWidthBits(w: nat, h: nat, alpha: bool, version: nat)
    requires 1 <= w <= 0x4000 && 1 <= h <= 0x4000 && version < 8
    ensures (Vp8lValue(w, h, alpha, version) / 256) % 0x4000 == w - 1
  {
    var v := Vp8lWord(w, h, alpha, version);
    DivModUnique(Vp8lValue(w, h, alpha, version), 256, v, 0x2f);
    DivModUnique(v, 0x4000, (h - 1) + 0x4000 * ((if alpha then 1 else 0) + 2 * version), w - 1);
  }

  lemma Vp8lHeightBits(w: nat, h: nat, alpha: bool, version: nat)
    requires 1 <= w <= 0x4000 && 1 <= h <= 0x4000 && version < 8
    ensures (Vp8lValue(w, h, alpha, version) / (256 * 0x4000)) % 0x4000 == h - 1
  {
    var hi := (h - 1) + 0x4000 * ((if alpha then 1 else 0) + 2 * version);
    var x := Vp8lValue(w, h, alpha, version);
    assert x == hi * (256 * 0x4000) + (0x2f + 256 * (w - 1));
    DivModUnique(x, 256 * 0x4000, hi, 0x2f + 256 * (w - 1));
    DivModUnique(hi, 0x4000, (if alpha then 1 else 0) + 2 * version, h - 1);
  }

  lemma Vp8lVersionBits(w: nat, h: nat, alpha: bool, version: nat)
    requires 1 <= w <= 0x4000 && 1 <= h <= 0x4000 && version < 8
    ensures (Vp8lValue(w, h, alpha, version) / (256 * 0x4000 * 0x4000 * 2)) % 8 == version
  {
    var lo := 0x2f + 256 * ((w - 1) + 0x4000 * ((h - 1) + 0x4000 * (if alpha then 1 else 0)));
    var x := Vp8lValue(w, h, alpha, version);
    assert x == version * (256 * 0x4000 * 0x4000 * 2) + lo;
    DivModUnique(x, 256 * 0x4000 * 0x4000 * 2, version, lo);
    DivModUnique(version, 8, 0, version);
  }

  /** decodeVP8LHeader reads back the width and height written after the
      signature byte, ignores the alpha hint, and refuses any version but 0;
      what follows the fifth byte plays no part. */
  lemma Vp8lRoundTrip(w: nat, h: nat, alpha: bool, version: nat, rest: seq<byte>)
    requires 1 <= w <= 0x4000 && 1 <= h <= 0x4000 && version < 8
    ensures Vp8lHeaderOf(Vp8lBytes(w, h, alpha, version) + rest) ==
      if version == 0 then Success(Size(w, h)) else Failure(Vp8lInvalidVersion)
  {
    var v := Vp8lWord(w, h, alpha, version);
    var b := Vp8lBytes(w, h, alpha, version) + rest;
    var b5 := b[..5];
    assert b5 == [0x2f] + Le32(v) && b5[1..] == Le32(v);
    U32IsLittleEndian(Le32(v));
    assert Le32(v)[..4] == Le32(v);
    U32Le32(v);
    assert LittleEndian(b5) == Vp8lValue(w, h, alpha, version);
    Pow2Values();
    Vp8lWidthBits(w, h, alpha, version);
    Vp8lHeightBits(w, h, alpha, version);
    Vp8lVersionBits(w, h, alpha, version);
  }

  /** A VP8 key frame header: the 3-byte frame tag with its low bit clear,
      the start code 9d 01 2a, then width and height in 14 bits each with a
      2-bit scale above them. */
  function Vp8KeyFrame(tag: seq<byte>, w: nat, h: nat, xs: nat, ys: nat): (b: seq<byte>)
    requires |tag| == 3 && tag[0] as int % 2 == 0
    requires w < 0x4000 && h < 0x4000 && xs < 4 && ys < 4
    ensures |b| == 10
  {
    tag + [0x9d, 0x01, 0x2a, (w % 256) as byte, (xs * 64 + w / 256) as byte, (h % 256) as byte, (ys * 64 + h / 256) as byte]
  }

  /** decodeVP8FrameHeader reads back a key frame's width and height and
      drops the scale bits. */
  lemma Vp8KeyFrameRoundTrip(data: seq<byte>, s: RiffState, tag: seq<byte>, w: nat, h: nat, xs: nat, ys: nat)
    requires |tag| == 3 && tag[0] as int % 2 == 0
    requires w < 0x4000 && h < 0x4000 && xs < 4 && ys < 4
    requires RiffInv(data, s) && s.err.None? && 10 <= ChunkAvail(data, s)
    requires data[s.pos..s.pos + 10] == Vp8KeyFrame(tag, w, h, xs, ys)
    ensures Vp8FrameHeaderAt(data, s) == Success(Size(w, h))
  {
    var k := Vp8KeyFrame(tag, w, h, xs, ys);
    var f := ReadFullChunkAt(data, s, 3);
    assert f.0 == k[..3] && f.0[0] == tag[0];
    var g := ReadFullChunkAt(data, f.2, 7);
    assert g.0 == data[s.pos + 3..s.pos + 10] == k[3..];
    DivModUnique(xs * 64 + w / 256, 64, xs, w / 256);
    DivModUnique(ys * 64 + h / 256, 64, ys, h / 256);
  }

  /** An inter frame, whose tag has its low bit set, gives a zero size; a
      chunk too short for the tag or for a key frame's seven further bytes
      ends with io.ReadFull's error; a key frame without the start code is
      invalid. */
  lemma Vp8FrameOutcomes(data: seq<byte>, s: RiffState)
    requires RiffInv(data, s) && s.err.None?
    ensures ChunkAvail(data, s) == 0 ==> Vp8FrameHeaderAt(data, s) == Failure(EOF)
    ensures 0 < ChunkAvail(data, s) < 3 ==> Vp8FrameHeaderAt(data, s) == Failure(UnexpectedEOF)
    ensures 3 <= ChunkAvail(data, s) && data[s.pos] as int % 2 == 1 ==>
      Vp8FrameHeaderAt(data, s) == Success(Size(0, 0))
    ensures 3 <= ChunkAvail(data, s) && data[s.pos] as int % 2 == 0 && ChunkAvail(data, s) == 3 ==>
      Vp8FrameHeaderAt(data, s) == Failure(EOF)
    ensures 3 < ChunkAvail(data, s) < 10 && data[s.pos] as int % 2 == 0 ==>
      Vp8FrameHeaderAt(data, s) == Failure(UnexpectedEOF)
    ensures 10 <= ChunkAvail(data, s) && data[s.pos] as int % 2 == 0 && data[s.pos + 3..s.pos + 6] != [0x9d, 0x01, 0x2a] ==>
      Vp8FrameHeaderAt(data, s) == Failure(Vp8InvalidFormat)
  {
    if 3 <= ChunkAvail(data, s) {
      var f := ReadFullChunkAt(data, s, 3);
      assert f.0[0] == data[s.pos];
      assert f.2 == Advance(s, 3);
      if 10 <= ChunkAvail(data, s) {
        assert ChunkAvail(data, f.2) >= 7;
        var g := ReadFullChunkAt(data, f.2, 7);
        assert g.0 == data[s.pos + 3..s.pos + 10];
        assert g.0[..3] == data[s.pos + 3..s.pos + 6];
      }
    }
  }

  // ---- decodewebp ----------------------------------------------------------

  /** decodewebp succeeds only on a stream that starts with a RIFF header
      whose form type is WEBP. */
  lemma DecodeNeedsWebpForm(data: seq<byte>, p: nat)
    requires p <= |data|
    ensures DecodeWebpAt(data, p).Success? ==>
      p + 12 <= |data| && data[p..p + 4] == FccRIFF && data[p + 8..p + 12] == FccWEBP
  {
    NewReaderErrors(data, p);
  }

  /** What one chunk does to the loop: the end of the list is an invalid
      format, an ALPH chunk before any VP8X is invalid, a chunk of unknown
      kind is passed over, and a VP8X chunk whose length is not ten is
      invalid. After any chunk the loop goes on to, no alpha is wanted, so
      the ALPH branch that reads the filter byte is never taken. */
  lemma ChunkStepOutcomes(data: seq<byte>, s: RiffState)
    requires RiffInv(data, s)
    ensures NextAt(data, s).0 == Failure(EOF) ==> ChunksAt(data, s, false) == Failure(ErrInvalidFormat)
    ensures var n := NextAt(data, s);
      n.0.Success? && n.0.value.id == FccALPH ==> ChunksAt(data, s, false) == Failure(ErrInvalidFormat)
    ensures var n := NextAt(data, s);
      n.0.Success? && n.0.value.id == FccVP8X && n.0.value.len != 10 ==>
      ChunksAt(data, s, false) == Failure(ErrInvalidFormat)
    ensures var n := NextAt(data, s);
      n.0.Success? && n.0.value.id !in {FccALPH, FccVP8, FccVP8L, FccVP8X} ==>
      ChunksAt(data, s, false) == ChunksAt(data, n.1, false)
    ensures ChunkStep(data, s, false).Continue? ==> !ChunkStep(data, s, false).wantAlpha
  {
  }

  /** The smallest still-image file with a canvas size: a RIFF list of form
      WEBP whose first chunk is VP8X. */
  function Vp8xFile(size: nat, flags: byte, w: nat, h: nat): (b: seq<byte>)
    requires 22 <= size < Two32
    requires 1 <= w <= 0x100_0000 && 1 <= h <= 0x100_0000
    ensures |b| == 30
  {
    RiffHeader(FccWEBP, size) + ChunkHeader(FccVP8X, 10) + Vp8xPayload(flags, w, h)
  }

  /** decodewebp gives back the canvas size of a file that starts with a
      VP8X chunk, whatever its flags and whatever follows. */
  lemma DecodeVp8xFile(pre: seq<byte>, size: nat, flags: byte, w: nat, h: nat, rest: seq<byte>)
    requires 22 <= size < Two32
    requires 1 <= w <= 0x100_0000 && 1 <= h <= 0x100_0000
    ensures DecodeWebpAt(pre + Vp8xFile(size, flags, w, h) + rest, |pre|) == Success(Size(w, h))
  {
    var p := |pre|;
    var payload := Vp8xPayload(flags, w, h);
    var tail := ChunkHeader(FccVP8X, 10) + payload + rest;
    var data := pre + Vp8xFile(size, flags, w, h) + rest;
    assert data == pre + RiffHeader(FccWEBP, size) + tail;
    NewReaderReadsHeader(pre, FccWEBP, size, tail);
    var s0 := RiffState(p + 12, None, size - 4, 0, false);
    assert data[p + 12..p + 20] == ChunkHeader(FccVP8X, 10);
    HeaderReadsChunk(data, s0, FccVP8X, 10);
    var s1 := s0.(pos := p + 20, totalLen := size - 12, chunkLen := 10, padded := false);
    assert NextAt(data, s0) == (Success(Chunk(FccVP8X, 10)), s1);
    assert data[p + 20..p + 30] == payload;
    assert ReadFullChunkAt(data, s1, 10).0 == payload;
    Vp8xRoundTrip(flags, w, h);
  }

  /** A lossless file: a RIFF list of form WEBP whose first chunk is VP8L. */
  function Vp8lFile(size: nat, len: nat, w: nat, h: nat, alpha: bool, version: nat): (b: seq<byte>)
    requires 5 <= len && 12 + len <= size < Two32
    requires 1 <= w <= 0x4000 && 1 <= h <= 0x4000 && version < 8
    ensures |b| == 25
  {
    RiffHeader(FccWEBP, size) + ChunkHeader(FccVP8L, len) + Vp8lBytes(w, h, alpha, version)
  }

  /** decodewebp gives back the size of a lossless file, and refuses one
      whose header has a version other than 0. */
  lemma DecodeVp8lFile(pre: seq<byte>, size: nat, len: nat, w: nat, h: nat, alpha: bool, version: nat, rest: seq<byte>)
    requires 5 <= len && 12 + len <= size < Two32
    requires 1 <= w <= 0x4000 && 1 <= h <= 0x4000 && version < 8
    ensures DecodeWebpAt(pre + Vp8lFile(size, len, w, h, alpha, version) + rest, |pre|) ==
      if version == 0 then Success(Size(w, h)) else Failure(Vp8lInvalidVersion)
  {
    var p := |pre|;
    var head := Vp8lBytes(w, h, alpha, version);
    var tail := ChunkHeader(FccVP8L, len) + head + rest;
    var data := pre + Vp8lFile(size, len, w, h, alpha, version) + rest;
    assert data == pre + RiffHeader(FccWEBP, size) + tail;
    NewReaderReadsHeader(pre, FccWEBP, size, tail);
    var s0 := RiffState(p + 12, None, size - 4, 0, false);
    assert data[p + 12..p + 20] == ChunkHeader(FccVP8L, len);
    HeaderReadsChunk(data, s0, FccVP8L, len);
    var s1 := s0.(pos := p + 20, totalLen := size - 12, chunkLen := len, padded := len % 2 == 1);
    assert NextAt(data, s0) == (Success(Chunk(FccVP8L, len)), s1);
    var b := ChunkBytes(data, s1);
    assert b[..5] == head;
    assert b == head + b[5..];
    Vp8lRoundTrip(w, h, alpha, version, b[5..]);
  }
}
