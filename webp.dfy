/** The WebP size reader of vendor/github.com/fumiama/imgsz/webp.go: a RIFF
    reader over the file's chunks, the VP8 key frame header (section 9.1 of
    RFC 6386), the VP8L image header and the VP8X chunk (section 2 of
    RFC 9649). */
module Webp {
  import opened Text
  import opened ByteStream

  // ---- four-character codes and errors ------------------------------------

  const FccRIFF: seq<byte> := [0x52, 0x49, 0x46, 0x46]
  const FccALPH: seq<byte> := [0x41, 0x4c, 0x50, 0x48]
  const FccVP8: seq<byte> := [0x56, 0x50, 0x38, 0x20]
  const FccVP8L: seq<byte> := [0x56, 0x50, 0x38, 0x4c]
  const FccVP8X: seq<byte> := [0x56, 0x50, 0x38, 0x58]
  const FccWEBP: seq<byte> := [0x57, 0x45, 0x42, 0x50]
  /** fourCC{}, what every failing call returns for a code. */
  const NoFourCC: seq<byte> := [0, 0, 0, 0]

  const ChunkHeaderSize := 8
  const Two32 := 0x1_0000_0000

  const ErrInvalidFormat := Message("webp: invalid format")
  const ErrMissingPaddingByte := Message("riff: missing padding byte")
  const ErrMissingRIFFChunkHeader := Message("riff: missing RIFF chunk header")
  const ErrListSubchunkTooLong := Message("riff: list subchunk too long")
  const ErrShortChunkData := Message("riff: short chunk data")
  const ErrShortChunkHeader := Message("riff: short chunk header")
  const ErrStaleReader := Message("riff: stale reader")
  const Vp8InvalidFormat := Message("vp8: invalid format")
  const Vp8lInvalidHeader := Message("vp8l: invalid header")
  const Vp8lInvalidVersion := Message("vp8l: invalid version")

  /** u32: the first four bytes as an OR of shifted bytes. */
  function U32(b: seq<byte>): (r: nat)
    requires |b| >= 4
    ensures r < Two32
  {
    b[0] as nat + b[1] as nat * 0x100 + b[2] as nat * 0x1_0000 + b[3] as nat * 0x100_0000
  }

  /** The 24-bit value VP8X stores a dimension minus one in. */
  function U24(b: seq<byte>): (r: nat)
    requires |b| >= 3
    ensures r < 0x100_0000
  {
    b[0] as nat + b[1] as nat * 0x100 + b[2] as nat * 0x1_0000
  }

  function Pow2(n: nat): (r: nat)
    ensures r > 0
  {
    if n == 0 then 1 else 2 * Pow2(n - 1)
  }

  // ---- the RIFF reader as a function of the stream --------------------------

  /** The state of a webpeader: where its io.Reader stands, its sticky error,
      the bytes left in the list and in the current chunk, and whether the
      current chunk is followed by a padding byte. */
  datatype RiffState = RiffState(pos: nat, err: Option<Error>, totalLen: nat, chunkLen: nat, padded: bool)

  /** Both lengths are uint32 values, and while no error is recorded the
      current chunk lies inside the list. */
  predicate RiffInv(data: seq<byte>, s: RiffState)
  {
    s.pos <= |data| && s.totalLen < Two32 && s.chunkLen < Two32 && (s.err.None? ==> s.chunkLen <= s.totalLen)
  }

  /** The state after g bytes of the current chunk have been read. */
  function Advance(s: RiffState, g: nat): RiffState
    requires g <= s.chunkLen && g <= s.totalLen
  {
    s.(pos := s.pos + g, totalLen := s.totalLen - g, chunkLen := s.chunkLen - g)
  }

  /** The bytes of the current chunk the stream still holds. */
  function ChunkAvail(data: seq<byte>, s: RiffState): nat
    requires s.pos <= |data|
  {
    Min(s.chunkLen, |data| - s.pos)
  }

  function ChunkBytes(data: seq<byte>, s: RiffState): seq<byte>
    requires s.pos <= |data|
  {
    data[s.pos..s.pos + ChunkAvail(data, s)]
  }

  /** The error a chunk reader reports once its webpeader has one. */
  function StaleError(e: Error): (r: Error)
    ensures r != EOF
  {
    if e == EOF then ErrStaleReader else e
  }

  /** chunkReader.Read with a buffer of k bytes on the current chunk: the
      bytes, the error and the new state. */
  function ReadChunkAt(data: seq<byte>, s: RiffState, k: nat): (r: (seq<byte>, Option<Error>, RiffState))
    requires RiffInv(data, s)
    ensures RiffInv(data, r.2) && r.2.err == s.err && r.2.padded == s.padded
    ensures r.1.Some? ==> r.0 == [] && r.2 == s
    ensures r.1.None? ==> s.err.None? && |r.0| <= k && (k > 0 ==> |r.0| > 0)
    ensures r.1.None? ==> |r.0| <= ChunkAvail(data, s) && r.2 == Advance(s, |r.0|) && r.0 == data[s.pos..r.2.pos]
    ensures r.1 == Some(EOF) <==> s.err.None? && ChunkAvail(data, s) == 0
    ensures r.1.Some? && r.1 != Some(EOF) ==> s.err.Some? && r.1 == Some(StaleError(s.err.value))
  {
    if s.err.Some? then ([], Some(StaleError(s.err.value)), s)
    else if s.chunkLen == 0 || s.pos == |data| then ([], Some(EOF), s)
    else
      var got := Min(Min(s.chunkLen, k), |data| - s.pos);
      (data[s.pos..s.pos + got], None, Advance(s, got))
  }

  /** io.ReadFull over the chunk reader: n bytes, or as many as the chunk
      and the stream hold with EOF (none) or ErrUnexpectedEOF (some). */
  function ReadFullChunkAt(data: seq<byte>, s: RiffState, n: nat): (r: (seq<byte>, Option<Error>, RiffState))
    requires RiffInv(data, s)
    ensures RiffInv(data, r.2) && r.2.totalLen <= s.totalLen && r.2.err == s.err
    ensures r.1.None? ==> |r.0| == n
  {
    if n == 0 then ([], None, s)
    else if s.err.Some? then ([], Some(StaleError(s.err.value)), s)
    else
      var got := Min(n, ChunkAvail(data, s));
      (data[s.pos..s.pos + got], if got == n then None else if got == 0 then Some(EOF) else Some(UnexpectedEOF), Advance(s, got))
  }

  /** The io.Copy to ioutil.Discard that next starts with: the rest of the
      current chunk, or errShortChunkData when the stream ends first. */
  function DrainAt(data: seq<byte>, s: RiffState): (r: RiffState)
    requires RiffInv(data, s) && s.err.None?
    ensures RiffInv(data, r) && r.totalLen <= s.totalLen && r.padded == s.padded
    ensures r.err.None? ==> r.chunkLen == 0
  {
    if s.chunkLen == 0 then s
    else if s.pos + s.chunkLen <= |data| then Advance(s, s.chunkLen)
    else Advance(s, |data| - s.pos).(err := Some(ErrShortChunkData))
  }

  /** The padding byte after a chunk of odd length. */
  function PadAt(data: seq<byte>, s: RiffState): (r: RiffState)
    requires RiffInv(data, s) && s.err.None? && s.chunkLen == 0
    ensures RiffInv(data, r) && r.totalLen <= s.totalLen && r.chunkLen == 0
  {
    if !s.padded then s
    else if s.totalLen == 0 then s.(err := Some(ErrListSubchunkTooLong))
    else if s.pos == |data| then s.(totalLen := s.totalLen - 1, err := Some(ErrMissingPaddingByte))
    else s.(pos := s.pos + 1, totalLen := s.totalLen - 1)
  }

  /** A chunk's four-character code and length. */
  datatype Chunk = Chunk(id: seq<byte>, len: nat)

  /** The chunk header next reads. */
  function HeaderAt(data: seq<byte>, s: RiffState): (r: (Result<Chunk>, RiffState))
    requires RiffInv(data, s) && s.err.None? && s.chunkLen == 0
    ensures RiffInv(data, r.1)
    ensures r.0.Failure? ==> r.1.err == Some(r.0.error)
    ensures r.0.Success? ==> r.1.err.None? && r.1.totalLen + ChunkHeaderSize <= s.totalLen
    ensures r.0.Success? ==> r.1.chunkLen == r.0.value.len && |r.0.value.id| == 4
  {
    if s.totalLen == 0 then (Failure(EOF), s.(err := Some(EOF)))
    else if s.totalLen < ChunkHeaderSize then (Failure(ErrShortChunkHeader), s.(err := Some(ErrShortChunkHeader)))
    else
      var t := s.totalLen - ChunkHeaderSize;
      if s.pos + ChunkHeaderSize > |data| then
        (Failure(ErrShortChunkHeader), s.(pos := |data|, totalLen := t, err := Some(ErrShortChunkHeader)))
      else
        var len := U32(data[s.pos + 4..s.pos + ChunkHeaderSize]);
        var s1 := s.(pos := s.pos + ChunkHeaderSize, totalLen := t, chunkLen := len);
        if len > t then (Failure(ErrListSubchunkTooLong), s1.(err := Some(ErrListSubchunkTooLong)))
        else (Success(Chunk(data[s.pos..s.pos + 4], len)), s1.(padded := len % 2 == 1))
  }

  /** webpeader.next: the next chunk, or the error it also records. */
  function NextAt(data: seq<byte>, s: RiffState): (r: (Result<Chunk>, RiffState))
    requires RiffInv(data, s)
    ensures RiffInv(data, r.1)
    ensures r.0.Failure? ==> r.1.err == Some(r.0.error)
    ensures r.0.Success? ==> r.1.err.None? && r.1.totalLen + ChunkHeaderSize <= s.totalLen
    ensures r.0.Success? ==> r.1.chunkLen == r.0.value.len && |r.0.value.id| == 4
  {
    if s.err.Some? then (Failure(s.err.value), s)
    else
      var d := DrainAt(data, s);
      if d.err.Some? then (Failure(d.err.value), d)
      else
        var q := PadAt(data, d);
        if q.err.Some? then (Failure(q.err.value), q)
        else HeaderAt(data, q)
  }

  /** newListReader on a stream at q: the list type and the reader's state. */
  function NewListReaderAt(data: seq<byte>, q: nat, chunkLen: nat): (r: Result<(seq<byte>, RiffState)>)
    requires q <= |data| && chunkLen < Two32
    ensures r.Success? ==> RiffInv(data, r.value.1) && r.value.1.err.None? && r.value.1.chunkLen == 0
  {
    if chunkLen < 4 then Failure(ErrShortChunkData)
    else if q + 4 > |data| then Failure(ErrShortChunkData)
    else Success((data[q..q + 4], RiffState(q + 4, None, chunkLen - 4, 0, false)))
  }

  /** newReader on a stream at p. */
  function NewReaderAt(data: seq<byte>, p: nat): (r: Result<(seq<byte>, RiffState)>)
    requires p <= |data|
    ensures r.Success? ==> RiffInv(data, r.value.1) && r.value.1.err.None? && r.value.1.chunkLen == 0
  {
    if p + ChunkHeaderSize > |data| then Failure(ErrMissingRIFFChunkHeader)
    else if data[p..p + 4] != FccRIFF then Failure(ErrMissingRIFFChunkHeader)
    else NewListReaderAt(data, p + ChunkHeaderSize, U32(data[p + 4..p + ChunkHeaderSize]))
  }

  // ---- the image headers --------------------------------------------------------

  /** decodeVP8FrameHeader on the current chunk: an inter frame gives a zero
      size; a key frame must carry the start code 9d 01 2a, then two 14-bit
      little-endian dimensions whose top two bits are scaling. */
  function Vp8FrameHeaderAt(data: seq<byte>, s: RiffState): Result<Size>
    requires RiffInv(data, s)
  {
    var f := ReadFullChunkAt(data, s, 3);
    if f.1.Some? then Failure(f.1.value)
    else if f.0[0] as int % 2 != 0 then Success(Size(0, 0))
    else
      var g := ReadFullChunkAt(data, f.2, 7);
      if g.1.Some? then Failure(g.1.value)
      else
        var b := g.0;
        if b[0] != 0x9d || b[1] != 0x01 || b[2] != 0x2a then Failure(Vp8InvalidFormat)
        else Success(Size((b[4] as int % 64) * 256 + b[3] as int, (b[6] as int % 64) * 256 + b[5] as int))
  }

  /** The n bits starting at bit `at` of the bytes b read least significant
      bit first, as a number. */
  function BitsAt(b: seq<byte>, at: nat, n: nat): nat
  {
    (LittleEndian(b) / Pow2(at)) % Pow2(n)
  }

  /** decodeVP8LHeader on the bytes b of the chunk: the signature byte 0x2f,
      14 bits of width minus one, 14 bits of height minus one, the alpha
      hint and a 3-bit version that must be 0. */
  function Vp8lHeaderOf(b: seq<byte>): Result<Size>
  {
    if |b| < 1 then Failure(UnexpectedEOF)
    else if b[0] != 0x2f then Failure(Vp8lInvalidHeader)
    else if |b| < 5 then Failure(UnexpectedEOF)
    else if BitsAt(b[..5], 37, 3) != 0 then Failure(Vp8lInvalidVersion)
    else Success(Size(BitsAt(b[..5], 8, 14) + 1, BitsAt(b[..5], 22, 14) + 1))
  }

  /** The canvas size of a VP8X chunk's ten bytes. */
  function Vp8xSize(b: seq<byte>): Size
    requires |b| == 10
  {
    Size(U24(b[4..7]) + 1, U24(b[7..10]) + 1)
  }

  // ---- decodewebp as a function of the stream --------------------------------

  /** One turn of decodewebp's loop ends the decoding or goes on. */
  datatype Step = Done(outcome: Result<Size>) | Continue(state: RiffState, wantAlpha: bool)

  function ChunkStep(data: seq<byte>, s: RiffState, wantAlpha: bool): (r: Step)
    requires RiffInv(data, s)
    ensures r.Continue? ==> RiffInv(data, r.state) && r.state.totalLen < s.totalLen
  {
    var n := NextAt(data, s);
    if n.0.Failure? then Done(Failure(if n.0.error == EOF then ErrInvalidFormat else n.0.error))
    else
      var c, s1 := n.0.value, n.1;
      if c.id == FccALPH then
        if !wantAlpha then Done(Failure(ErrInvalidFormat))
        else
          var f := ReadFullChunkAt(data, s1, 1);
          if f.1.Some? then Done(Failure(if f.1.value == EOF then ErrInvalidFormat else f.1.value))
          else Continue(f.2, false)
      else if c.id == FccVP8 then
        if wantAlpha || c.len >= 0x8000_0000 then Done(Failure(ErrInvalidFormat))
        else Done(Vp8FrameHeaderAt(data, s1))
      else if c.id == FccVP8L then
        if wantAlpha then Done(Failure(ErrInvalidFormat))
        else Done(Vp8lHeaderOf(ChunkBytes(data, s1)))
      else if c.id == FccVP8X then
        if c.len != 10 then Done(Failure(ErrInvalidFormat))
        else
          var f := ReadFullChunkAt(data, s1, 10);
          if f.1.Some? then Done(Failure(f.1.value))
          else Done(Success(Vp8xSize(f.0)))
      else Continue(s1, wantAlpha)
  }

  function ChunksAt(data: seq<byte>, s: RiffState, wantAlpha: bool): Result<Size>
    requires RiffInv(data, s)
    decreases s.totalLen
  {
    match ChunkStep(data, s, wantAlpha)
    case Done(o) => o
    case Continue(s1, w) => ChunksAt(data, s1, w)
  }

  /** decodewebp on a stream at p. */
  function DecodeWebpAt(data: seq<byte>, p: nat): Result<Size>
    requires p <= |data|
  {
    match NewReaderAt(data, p)
    case Failure(e) => Failure(e)
    case Success(v) => if v.0 != FccWEBP then Failure(ErrInvalidFormat) else ChunksAt(data, v.1, false)
  }

  // ---- the reader objects ------------------------------------------------------

  class RiffReader {
    const r: Reader
    var err: Option<Error>
    var totalLen: nat
    var chunkLen: nat
    var chunkReader: ChunkReader?
    const buf: array<byte>
    var padded: bool

    ghost predicate Valid()
      reads this, r
    {
      && r.Valid() && buf.Length == ChunkHeaderSize && RiffInv(r.data, State())
      && (err.None? && chunkLen != 0 ==> chunkReader != null && chunkReader.z == this)
    }

    function State(): RiffState
      reads this, r
    {
      RiffState(r.pos, err, totalLen, chunkLen, padded)
    }

    /** &webpeader{r: r}. */
    constructor (r: Reader)
      requires r.Valid()
      ensures Valid() && this.r == r && fresh(buf)
      ensures err.None? && totalLen == 0 && chunkLen == 0 && chunkReader == null && !padded
    {
      this.r := r;
      err := None;
      totalLen, chunkLen := 0, 0;
      chunkReader := null;
      buf := new byte[ChunkHeaderSize];
      padded := false;
    }

    /** next's io.Copy(ioutil.Discard, z.chunkReader) and its length check. */
    method Drain()
      requires Valid() && err.None? && chunkLen != 0
      modifies this, r
      ensures Valid() && State() == DrainAt(r.data, old(State())) && chunkReader == old(chunkReader)
    {
      var want := chunkLen;
      var got: nat := 0;
      var c := chunkReader;
      var copyErr: Option<Error> := None;
      ghost var s0 := State();
      while true
        invariant Valid() && chunkReader == c && c != null && c.z == this && err.None?
        invariant got <= want == s0.chunkLen <= s0.totalLen && State() == Advance(s0, got)
        decreases chunkLen
      {
        var b, e := c.Read(8192);
        if e.Some? {
          if e != Some(EOF) {
            copyErr := e;
          }
          break;
        }
        got := got + |b|;
      }
      err := copyErr;
      if err.None? && got != want {
        err := Some(ErrShortChunkData);
      }
    }

    /** The padding byte next reads after a chunk of odd length. */
    method Pad()
      requires Valid() && err.None? && chunkLen == 0 && padded
      modifies this, r, buf
      ensures Valid() && State() == PadAt(r.data, old(State())) && chunkReader == old(chunkReader)
    {
      if totalLen == 0 {
        err := Some(ErrListSubchunkTooLong);
        return;
      }
      totalLen := totalLen - 1;
      var k;
      k, err := r.ReadFullInto(buf, 1);
      if err.Some? {
        if err == Some(EOF) {
          err := Some(ErrMissingPaddingByte);
        }
      }
    }

    /** The end-of-list test and the chunk header next reads. */
    method ReadHeader() returns (chunkID: seq<byte>, len: nat, chunkData: ChunkReader?, e: Option<Error>)
      requires Valid() && err.None? && chunkLen == 0
      modifies this, r, buf
      ensures Valid()
      ensures var h := HeaderAt(r.data, old(State()));
        && State() == h.1
        && (h.0.Success? ==> e.None? && chunkID == h.0.value.id && len == h.0.value.len)
        && (h.0.Failure? ==> e == Some(h.0.error) && chunkID == NoFourCC && len == 0 && chunkData == null)
      ensures e.None? ==> chunkData != null && fresh(chunkData) && chunkData == chunkReader && chunkData.z == this
      ensures e.Some? ==> chunkReader == old(chunkReader)
    {
      if totalLen == 0 {
        err := Some(EOF);
        return NoFourCC, 0, null, err;
      }
      if totalLen < ChunkHeaderSize {
        err := Some(ErrShortChunkHeader);
        return NoFourCC, 0, null, err;
      }
      totalLen := totalLen - ChunkHeaderSize;
      ghost var p := r.pos;
      var k;
      k, err := r.ReadFullInto(buf, ChunkHeaderSize);
      if err.Some? {
        if err == Some(EOF) || err == Some(UnexpectedEOF) {
          err := Some(ErrShortChunkHeader);
        }
        return NoFourCC, 0, null, err;
      }
      assert buf[..4] == r.data[p..p + 4] && buf[4..ChunkHeaderSize] == r.data[p + 4..p + ChunkHeaderSize] by {
        assert buf[..ChunkHeaderSize] == r.data[p..p + ChunkHeaderSize];
      }
      chunkID := buf[..4];
      chunkLen := U32(buf[4..ChunkHeaderSize]);
      if chunkLen > totalLen {
        err := Some(ErrListSubchunkTooLong);
        return NoFourCC, 0, null, err;
      }
      padded := chunkLen % 2 == 1;
      chunkReader := new ChunkReader(this);
      return chunkID, chunkLen, chunkReader, None;
    }

    /** webpeader.next. */
    method Next() returns (chunkID: seq<byte>, len: nat, chunkData: ChunkReader?, e: Option<Error>)
      requires Valid()
      modifies this, r, buf
      ensures Valid()
      ensures var n := NextAt(r.data, old(State()));
        && State() == n.1
        && (n.0.Success? ==> e.None? && chunkID == n.0.value.id && len == n.0.value.len)
        && (n.0.Failure? ==> e == Some(n.0.error) && chunkID == NoFourCC && len == 0 && chunkData == null)
      ensures e.None? ==> chunkData != null && fresh(chunkData) && chunkData == chunkReader && chunkData.z == this
    {
      if err.Some? {
        return NoFourCC, 0, null, err;
      }
      if chunkLen != 0 {
        Drain();
        if err.Some? {
          return NoFourCC, 0, null, err;
        }
      }
      chunkReader := null;
      if padded {
        Pad();
        if err.Some? {
          return NoFourCC, 0, null, err;
        }
      }
      chunkID, len, chunkData, e := ReadHeader();
    }
  }

  class ChunkReader {
    const z: RiffReader

    constructor (z: RiffReader)
      ensures this.z == z
    {
      this.z := z;
    }

    /** chunkReader.Read(p) with len(p) == k: a reader that is no longer the
        webpeader's current one, or whose webpeader has failed, reports so;
        otherwise at most the rest of the chunk is read. */
    method Read(k: nat) returns (b: seq<byte>, err: Option<Error>)
      requires z.Valid()
      modifies z, z.r
      ensures z.Valid() && z.chunkReader == old(z.chunkReader)
      ensures this != z.chunkReader ==> b == [] && err == Some(ErrStaleReader) && z.State() == old(z.State())
      ensures this == z.chunkReader ==> (b, err, z.State()) == ReadChunkAt(z.r.data, old(z.State()), k)
    {
      if this != z.chunkReader {
        return [], Some(ErrStaleReader);
      }
      if z.err.Some? {
        if z.err == Some(EOF) {
          return [], Some(ErrStaleReader);
        }
        return [], z.err;
      }
      var n := z.chunkLen;
      if n == 0 {
        return [], Some(EOF);
      }
      if n > k {
        n := k;
      }
      b, err := z.r.Read(n);
      z.totalLen := z.totalLen - |b|;
      z.chunkLen := z.chunkLen - |b|;
      if err != Some(EOF) {
        z.err := err;
      }
    }
  }

  /** io.ReadFull(chunkData, buf[:n]). */
  method ReadFullChunk(c: ChunkReader, n: nat) returns (b: seq<byte>, err: Option<Error>)
    requires c.z.Valid() && c == c.z.chunkReader
    modifies c.z, c.z.r
    ensures c.z.Valid() && c.z.chunkReader == c
    ensures (b, err, c.z.State()) == ReadFullChunkAt(c.z.r.data, old(c.z.State()), n)
  {
    b := [];
    err := None;
    ghost var s0 := c.z.State();
    ghost var data := c.z.r.data;
    while |b| < n && err.None?
      invariant c.z.Valid() && c.z.chunkReader == c && c.z.r.data == data
      invariant |b| <= n && |b| <= ChunkAvail(data, s0) && b == data[s0.pos..s0.pos + |b|]
      invariant s0.err.Some? ==> b == [] && c.z.State() == s0
      invariant s0.err.None? ==> |b| <= s0.totalLen && c.z.State() == Advance(s0, |b|)
      invariant err.Some? ==>
        || (s0.err.Some? && err == Some(StaleError(s0.err.value)))
        || (s0.err.None? && err == Some(EOF) && |b| == ChunkAvail(data, s0))
      decreases n - |b|, if err.None? then 1 else 0
    {
      var chunk, e := c.Read(n - |b|);
      b := b + chunk;
      err := e;
    }
    if |b| >= n {
      err := None;
    } else if |b| > 0 && err == Some(EOF) {
      err := Some(UnexpectedEOF);
    }
  }

  /** newListReader(chunkLen, chunkData). */
  method NewListReader(chunkLen: nat, chunkData: Reader) returns (listType: seq<byte>, data: RiffReader?, err: Option<Error>)
    requires chunkData.Valid() && chunkLen < Two32
    modifies chunkData
    ensures chunkData.Valid()
    ensures var n := NewListReaderAt(chunkData.data, old(chunkData.pos), chunkLen);
      if n.Success? then
        && err.None? && data != null && fresh(data) && fresh(data.buf) && data.r == chunkData && data.Valid()
        && data.chunkReader == null && listType == n.value.0 && data.State() == n.value.1
      else err == Some(n.error) && data == null && listType == NoFourCC
  {
    if chunkLen < 4 {
      return NoFourCC, null, Some(ErrShortChunkData);
    }
    var z := new RiffReader(chunkData);
    ghost var q := chunkData.pos;
    var k, e := chunkData.ReadFullInto(z.buf, 4);
    if e.Some? {
      if e == Some(EOF) || e == Some(UnexpectedEOF) {
        e := Some(ErrShortChunkData);
      }
      return NoFourCC, null, e;
    }
    z.totalLen := chunkLen - 4;
    return z.buf[..4], z, None;
  }

  /** newReader(r). */
  method NewReader(r: Reader) returns (formType: seq<byte>, data: RiffReader?, err: Option<Error>)
    requires r.Valid()
    modifies r
    ensures r.Valid()
    ensures var n := NewReaderAt(r.data, old(r.pos));
      if n.Success? then
        && err.None? && data != null && fresh(data) && fresh(data.buf) && data.r == r && data.Valid()
        && data.chunkReader == null && formType == n.value.0 && data.State() == n.value.1
      else err == Some(n.error) && data == null && formType == NoFourCC
  {
    var buf := new byte[ChunkHeaderSize];
    ghost var p := r.pos;
    var k, e := r.ReadFullInto(buf, ChunkHeaderSize);
    if e.Some? {
      if e == Some(EOF) || e == Some(UnexpectedEOF) {
        e := Some(ErrMissingRIFFChunkHeader);
      }
      return NoFourCC, null, e;
    }
    assert buf[..4] == r.data[p..p + 4] && buf[4..ChunkHeaderSize] == r.data[p + 4..p + ChunkHeaderSize] by {
      ghost var whole := buf[..ChunkHeaderSize];
      assert whole == r.data[p..p + ChunkHeaderSize];
      assert buf[..4] == whole[..4] && r.data[p..p + 4] == whole[..4];
      assert buf[4..ChunkHeaderSize] == whole[4..] && r.data[p + 4..p + ChunkHeaderSize] == whole[4..];
    }
    if buf[0] != 0x52 || buf[1] != 0x49 || buf[2] != 0x46 || buf[3] != 0x46 {
      assert buf[..4] != FccRIFF;
      return NoFourCC, null, Some(ErrMissingRIFFChunkHeader);
    }
    assert buf[..4] == FccRIFF;
    formType, data, err := NewListReader(U32(buf[4..ChunkHeaderSize]), r);
  }

  /** decodeVP8FrameHeader(chunkData). */
  method DecodeVP8FrameHeader(c: ChunkReader) returns (w: int, h: int, err: Option<Error>)
    requires c.z.Valid() && c == c.z.chunkReader
    modifies c.z, c.z.r
    ensures c.z.Valid() && c.z.chunkReader == c
    ensures var d := Vp8FrameHeaderAt(c.z.r.data, old(c.z.State()));
      if d.Success? then err.None? && Size(w, h) == d.value else err == Some(d.error) && w == 0 && h == 0
  {
    var b;
    b, err := ReadFullChunk(c, 3);
    if err.Some? {
      return 0, 0, err;
    }
    if b[0] as int % 2 != 0 {
      return 0, 0, None;
    }
    b, err := ReadFullChunk(c, 7);
    if err.Some? {
      return 0, 0, err;
    }
    if b[0] != 0x9d || b[1] != 0x01 || b[2] != 0x2a {
      return 0, 0, Some(Vp8InvalidFormat);
    }
    return (b[4] as int % 64) * 256 + b[3] as int, (b[6] as int % 64) * 256 + b[5] as int, None;
  }

  // ---- the VP8L bit reader ---------------------------------------------------

  /** vp8ldecoder over the current chunk. `bits` holds the nBits bits read
      from the chunk and not yet handed out; `used` counts the bits handed
      out, so the bytes consumed, read least significant bit first, are the
      `used` bits handed out followed by `bits`. */
  class Vp8lDecoder {
    const r: ChunkReader
    var bits: nat
    var nBits: nat
    /** Where the chunk's bytes start in the stream and how many it holds. */
    ghost const start: nat
    ghost const avail: nat
    ghost var used: nat

    /** The bytes taken from the chunk so far. */
    ghost function Consumed(): seq<byte>
      reads r.z, r.z.r
      requires start <= r.z.r.pos <= |r.z.r.data|
    {
      r.z.r.data[start..r.z.r.pos]
    }

    /** The chunk's bytes, as they stood when the decoder was made. */
    ghost function Bytes(): seq<byte>
      reads r.z, r.z.r
      requires start + avail <= |r.z.r.data|
    {
      r.z.r.data[start..start + avail]
    }

    /** What holds between steps of read: the bits held are the consumed
        bytes' value with the `used` bits handed out shifted away. */
    ghost predicate Inv()
      reads this, r.z, r.z.r
    {
      && r.z.Valid() && r == r.z.chunkReader && r.z.err.None?
      && start <= r.z.r.pos && start + avail <= |r.z.r.data|
      && r.z.r.pos - start + ChunkAvail(r.z.r.data, r.z.State()) == avail
      && used + nBits == 8 * (r.z.r.pos - start)
      && bits == LittleEndian(Consumed()) / Pow2(used)
    }

    /** Between calls of read fewer than eight bits are held. */
    ghost predicate Valid()
      reads this, r.z, r.z.r
    {
      Inv() && nBits < 8
    }

    /** &vp8ldecoder{r: rr}. */
    constructor (r: ChunkReader)
      requires r.z.Valid() && r == r.z.chunkReader && r.z.err.None?
      ensures Valid() && this.r == r && used == 0
      ensures start == r.z.r.pos && avail == ChunkAvail(r.z.r.data, r.z.State())
    {
      this.r := r;
      bits, nBits := 0, 0;
      start := r.z.r.pos;
      avail := ChunkAvail(r.z.r.data, r.z.State());
      used := 0;
    }

    /** One turn of read's loop: the next byte of the chunk goes above the
        bits held, or ErrUnexpectedEOF when the chunk has no bytes left. */
    method Fill() returns (err: Option<Error>)
      requires Inv()
      modifies this, r.z, r.z.r
      ensures r.z.Valid() && r == r.z.chunkReader && used == old(used)
      ensures err.None? <==> old(r.z.r.pos) - start < avail
      ensures err.Some? ==> err == Some(UnexpectedEOF)
      ensures err.None? ==> Inv() && nBits == old(nBits) + 8
    {
      ghost var before := Consumed();
      var b, e := r.Read(1);
      if e.Some? {
        return Some(UnexpectedEOF);
      }
      assert Consumed() == before + [b[0]];
      TakeByte(before, b[0], used, nBits);
      bits := bits + b[0] as nat * Pow2(nBits);
      nBits := nBits + 8;
      err := None;
    }

    /** The end of read: the low n bits held are handed out. */
    method Take(n: nat) returns (u: nat)
      requires Inv() && n <= nBits
      modifies this
      ensures Inv() && used == old(used) + n && nBits == old(nBits) - n
      ensures u == BitsAt(Consumed(), old(used), n)
    {
      ghost var cons := Consumed();
      var pn := Pow2(n);
      assert pn > 0;
      u := bits % pn;
      bits := bits / pn;
      nBits := nBits - n;
      DivDiv(LittleEndian(cons), Pow2(used), pn);
      Pow2Add(used, n);
      used := used + n;
    }

    /** read(n): the next n bits of the chunk, least significant first, or
        ErrUnexpectedEOF when the chunk holds fewer. */
    method Read(n: nat) returns (u: nat, err: Option<Error>)
      requires Valid() && n <= 24
      modifies this, r.z, r.z.r
      ensures r.z.Valid() && r == r.z.chunkReader
      ensures err.None? <==> old(used) + n <= 8 * avail
      ensures err.Some? ==> err == Some(UnexpectedEOF)
      ensures err.None? ==> Valid() && used == old(used) + n && u == BitsAt(Consumed(), old(used), n)
      ensures err.None? ==> Consumed() == Bytes()[..r.z.r.pos - start]
    {
      while nBits < n
        invariant Inv() && used == old(used) && nBits < n + 8
        decreases n - nBits
      {
        err := Fill();
        if err.Some? {
          return 0, err;
        }
      }
      u := Take(n);
      err := None;
      ConsumedPrefix(r.z.r.data, start, r.z.r.pos, avail);
    }
  }

  /** The bytes a bit reader has consumed are a prefix of its chunk's. */
  lemma ConsumedPrefix(data: seq<byte>, start: nat, pos: nat, len: nat)
    requires start <= pos <= start + len <= |data|
    ensures data[start..pos] == data[start..start + len][..pos - start]
  {
  }

  /** Where decodeVP8LHeader's fields lie in the first five bytes. */
  lemma HeaderFields(b: seq<byte>)
    requires |b| >= 5
    ensures BitsAt(b[..1], 0, 8) == b[0] as nat
    ensures BitsAt(b[..3], 8, 14) == BitsAt(b[..5], 8, 14)
  {
    assert b[..1] == [b[0]];
    SingleByte(b[0]);
    assert b[..5] == b[..3] + b[3..5];
    BitsAtPrefix(b[..3], b[3..5], 8, 14);
  }

  /** The reads of decodeVP8LHeader after the signature byte: width and
      height less one, 14 bits each, which end at bit 36 of the chunk. */
  method ReadDimensions(d: Vp8lDecoder) returns (width: nat, height: nat, err: Option<Error>)
    requires d.Valid() && d.used == 8
    modifies d, d.r.z, d.r.z.r
    ensures d.r.z.Valid() && d.r == d.r.z.chunkReader
    ensures err.None? <==> 5 <= d.avail
    ensures err.Some? ==> err == Some(UnexpectedEOF)
    ensures err.None? ==> && d.Valid() && d.used == 36
                          && width == BitsAt(d.Bytes()[..5], 8, 14)
                          && height == BitsAt(d.Bytes()[..5], 22, 14)
  {
    ghost var b := d.Bytes();
    width, err := d.Read(14);
    if err.Some? {
      return 0, 0, err;
    }
    assert d.Consumed() == b[..3];
    assert width == BitsAt(b[..3], 8, 14);
    height, err := d.Read(14);
    if err.Some? {
      return 0, 0, err;
    }
    assert d.Consumed() == b[..5];
    HeaderFields(b);
  }

  /** The last reads of decodeVP8LHeader: the ignored alpha hint and the
      3-bit version, which end at bit 40, inside the five bytes already
      taken. */
  method ReadVersion(d: Vp8lDecoder) returns (version: nat, err: Option<Error>)
    requires d.Valid() && d.used == 36 && 5 <= d.avail
    modifies d, d.r.z, d.r.z.r
    ensures d.r.z.Valid() && d.r == d.r.z.chunkReader
    ensures err.None? && version == BitsAt(d.Bytes()[..5], 37, 3)
  {
    // Neither read can fail: both are served from the bits already held.
    var hint;
    hint, err := d.Read(1);
    version, err := d.Read(3);
  }

  /** decodeVP8LHeader(chunkData). */
  method DecodeVP8LHeader(c: ChunkReader) returns (w: int, h: int, err: Option<Error>)
    requires c.z.Valid() && c == c.z.chunkReader && c.z.err.None?
    modifies c.z, c.z.r
    ensures c.z.Valid() && c.z.chunkReader == c
    ensures var d := Vp8lHeaderOf(ChunkBytes(c.z.r.data, old(c.z.State())));
      if d.Success? then err.None? && Size(w, h) == d.value else err == Some(d.error) && w == 0 && h == 0
  {
    ghost var b := ChunkBytes(c.z.r.data, c.z.State());
    var d := new Vp8lDecoder(c);
    assert b == d.Bytes();
    var magic;
    magic, err := d.Read(8);
    if err.Some? {
      return 0, 0, err;
    }
    assert d.Consumed() == b[..1] == [b[0]];
    SingleByte(b[0]);
    if magic != 0x2f {
      return 0, 0, Some(Vp8lInvalidHeader);
    }
    var width, height, version;
    width, height, err := ReadDimensions(d);
    if err.Some? {
      return 0, 0, err;
    }
    version, err := ReadVersion(d);
    if version != 0 {
      return 0, 0, Some(Vp8lInvalidVersion);
    }
    return width + 1, height + 1, None;
  }

  /** decodewebp(r). */
  method DecodeWebp(r: Reader) returns (size: Size, err: Option<Error>)
    requires r.Valid()
    modifies r
    ensures var d := DecodeWebpAt(r.data, old(r.pos));
      if d.Success? then err.None? && size == d.value else err == Some(d.error) && size == Size(0, 0)
  {
    ghost var p := r.pos;
    var formType, riffReader, e := NewReader(r);
    if e.Some? {
      return Size(0, 0), e;
    }
    if formType != FccWEBP {
      return Size(0, 0), Some(ErrInvalidFormat);
    }
    var wantAlpha := false;
    while true
      invariant riffReader != null && riffReader.Valid() && riffReader.r == r && fresh(riffReader)
      invariant fresh(riffReader.buf)
      invariant !wantAlpha && ChunksAt(r.data, riffReader.State(), wantAlpha) == DecodeWebpAt(r.data, p)
      decreases riffReader.totalLen
    {
      var chunkID, chunkLen, chunkData, err := riffReader.Next();
      if err == Some(EOF) {
        err := Some(ErrInvalidFormat);
      }
      if err.Some? {
        return Size(0, 0), err;
      }
      if chunkID == FccALPH {
        if !wantAlpha {
          return Size(0, 0), Some(ErrInvalidFormat);
        }
        // wantAlpha is set only by a VP8X chunk, and decoding returns there.
        assert false;
      } else if chunkID == FccVP8 {
        if wantAlpha || chunkLen >= 0x8000_0000 {
          return Size(0, 0), Some(ErrInvalidFormat);
        }
        var w, h, e := DecodeVP8FrameHeader(chunkData);
        if e.Some? {
          return Size(0, 0), e;
        }
        return Size(w, h), None;
      } else if chunkID == FccVP8L {
        if wantAlpha {
          return Size(0, 0), Some(ErrInvalidFormat);
        }
        var w, h, e := DecodeVP8LHeader(chunkData);
        return Size(w, h), e;
      } else if chunkID == FccVP8X {
        if chunkLen != 10 {
          return Size(0, 0), Some(ErrInvalidFormat);
        }
        var b, e := ReadFullChunk(chunkData, 10);
        if e.Some? {
          return Size(0, 0), e;
        }
        wantAlpha := (b[0] as bv8 & 0x10) != 0;
        var widthMinusOne := U24(b[4..7]);
        var heightMinusOne := U24(b[7..10]);
        if wantAlpha {
          return Size(widthMinusOne + 1, heightMinusOne + 1), None;
        }
        return Size(widthMinusOne + 1, heightMinusOne + 1), None;
      }
    }
  }

  // ---- arithmetic of the bit reader ------------------------------------------

  lemma {:induction false} MulStep(a: nat, b: nat, m: nat)
    requires a > b
    ensures a * m >= b * m + m
  {
    if a > b + 1 {
      MulStep(a - 1, b, m);
      assert a * m == (a - 1) * m + m;
    }
  }

  /** Euclidean division has one quotient and one remainder. */
  lemma DivModUnique(x: nat, m: nat, q: nat, r: nat)
    requires m > 0 && x == q * m + r && r < m
    ensures x / m == q && x % m == r
  {
    var q0, r0 := x / m, x % m;
    DivNat(x, m);
    assert x == q0 * m + r0;
    if q > q0 {
      MulStep(q, q0, m);
    } else if q < q0 {
      MulStep(q0, q, m);
    }
  }

  lemma DivAddMultiple(x: nat, m: nat, y: nat)
    requires m > 0
    ensures (x + m * y) / m == x / m + y && (x + m * y) % m == x % m
  {
    DivNat(x, m);
    assert x + m * y == (x / m + y) * m + x % m;
    DivModUnique(x + m * y, m, x / m + y, x % m);
  }

  lemma DivDiv(x: nat, a: nat, b: nat)
    requires a > 0 && b > 0
    ensures x / a / b == x / (a * b)
  {
    var q1, r1 := x / a, x % a;
    var q2, r2 := q1 / b, q1 % b;
    var ab, rest := a * b, r2 * a + r1;
    DivNat(q1, b);
    assert q1 * a == q2 * ab + r2 * a by {
      MulSplit(q2, b, r2, a);
    }
    assert rest < ab by {
      MulStep(b, r2, a);
    }
    DivModUnique(x, ab, q2, rest);
  }

  lemma DivNat(x: int, m: nat)
    requires x >= 0 && m > 0
    ensures x / m >= 0 && 0 <= x % m < m
  {
  }

  lemma MulSplit(q: nat, b: nat, r: nat, a: nat)
    ensures (q * b + r) * a == q * (a * b) + r * a
  {
  }

  lemma Assoc(a: nat, b: nat, c: nat)
    ensures (a * b) * c == a * (b * c)
  {
  }

  lemma {:induction false} Pow2Add(a: nat, b: nat)
    ensures Pow2(a + b) == Pow2(a) * Pow2(b)
  {
    if a > 0 {
      Pow2Add(a - 1, b);
    }
  }

  lemma {:induction false} Pow256IsPow2(k: nat)
    ensures Pow256(k) == Pow2(8 * k)
  {
    if k > 0 {
      Pow256IsPow2(k - 1);
      Pow2Add(8, 8 * (k - 1));
      assert Pow2(8) == 256 by {
        assert Pow2(2) == 4;
        assert Pow2(4) == 16 by { Pow2Add(2, 2); }
        Pow2Add(4, 4);
      }
    }
  }

  /** Little-endian values concatenate: the second part's value is shifted
      past the first part's bytes. */
  lemma {:induction false} LittleEndianConcat(s: seq<byte>, t: seq<byte>)
    ensures LittleEndian(s + t) == LittleEndian(s) + Pow256(|s|) * LittleEndian(t)
  {
    if s == [] {
      assert s + t == t;
    } else {
      assert (s + t)[1..] == s[1..] + t;
      LittleEndianConcat(s[1..], t);
    }
  }

  lemma SingleByte(x: byte)
    ensures LittleEndian([x]) == x as nat && BitsAt([x], 0, 8) == x as nat
  {
    assert [x][1..] == [];
    assert Pow2(8) == 256 by {
      assert Pow2(2) == 4;
      assert Pow2(4) == 16 by { Pow2Add(2, 2); }
      Pow2Add(4, 4);
    }
  }

  lemma MulAssoc(a: nat, b: nat, c: nat)
    ensures a * b * c == a * (c * b)
  {
  }

  lemma ShiftedAdd(x: nat, y: nat, p: nat, q: nat, c: nat)
    requires p > 0 && y == x + p * q * c
    ensures y / p == x / p + c * q
  {
    var cq: nat := c * q;
    MulAssoc(p, q, c);
    DivAddMultiple(x, p, cq);
  }

  /** One step of read's loop: the byte taken lands above the nBits bits
      already held. */
  lemma TakeByte(s: seq<byte>, c: byte, used: nat, nBits: nat)
    requires used + nBits == 8 * |s|
    ensures LittleEndian(s + [c]) / Pow2(used) == LittleEndian(s) / Pow2(used) + c as nat * Pow2(nBits)
  {
    var p, q := Pow2(used), Pow2(nBits);
    LittleEndianConcat(s, [c]);
    SingleByte(c);
    Pow256IsPow2(|s|);
    Pow2Add(used, nBits);
    var x, y := LittleEndian(s), LittleEndian(s + [c]);
    assert y == x + p * q * c as nat;
    ShiftedAdd(x, y, p, q, c as nat);
  }

  /** Bits that lie inside the first bytes do not depend on what follows. */
  lemma BitsAtPrefix(s: seq<byte>, t: seq<byte>, at: nat, n: nat)
    requires at + n <= 8 * |s|
    ensures BitsAt(s + t, at, n) == BitsAt(s, at, n)
  {
    var k := 8 * |s| - at - n;
    var pa, pn, pk := Pow2(at), Pow2(n), Pow2(k);
    var x, y := LittleEndian(s), LittleEndian(t);
    LittleEndianConcat(s, t);
    Pow256IsPow2(|s|);
    Pow2Add(at, n + k);
    Pow2Add(n, k);
    var m := pn * pk;
    assert Pow256(|s|) == pa * m;
    var rest := pk * y;
    var inner := pn * rest;
    Assoc(pa, m, y);
    Assoc(pn, pk, y);
    assert LittleEndian(s + t) == x + pa * inner;
    DivAddMultiple(x, pa, inner);
    DivNat(x, pa);
    DivAddMultiple(x / pa, pn, rest);
  }

}
