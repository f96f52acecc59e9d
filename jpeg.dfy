/** The JPEG size reader of vendor/github.com/fumiama/imgsz/jpg.go: the SOI
    marker, then marker segments until a start-of-frame segment gives the
    height and width (sections B.1.1.2 and B.2.2 and Table B.1 of ITU-T
    T.81). */
module Jpeg {
  import opened Text
  import opened ByteStream

  // ---- marker codes (Table B.1) ---------------------------------------------

  const Sof0Marker: byte := 0xc0
  const Sof1Marker: byte := 0xc1
  const Sof2Marker: byte := 0xc2
  const DhtMarker: byte := 0xc4
  const Rst0Marker: byte := 0xd0
  const Rst7Marker: byte := 0xd7
  const SoiMarker: byte := 0xd8
  const EoiMarker: byte := 0xd9
  const SosMarker: byte := 0xda
  const DqtMarker: byte := 0xdb
  const DriMarker: byte := 0xdd
  const ComMarker: byte := 0xfe
  const App0Marker: byte := 0xe0
  const App14Marker: byte := 0xee
  const App15Marker: byte := 0xef

  const BufferSize := 4096
  const BlockSize := 64

  predicate IsSof(m: byte)
  {
    m == Sof0Marker || m == Sof1Marker || m == Sof2Marker
  }

  /** The markers whose segments decode skips by their length. */
  predicate Skippable(m: byte)
  {
    || m == DhtMarker || m == DqtMarker || m == DriMarker || m == App0Marker || m == App14Marker
    || (App0Marker <= m <= App15Marker) || m == ComMarker
  }

  // ---- the decoding steps, as functions of the stream -----------------------

  /** What processSOF does with a segment of n bytes at q, given the number
      of components seen so far and the size recorded so far: its error, the
      size it records and the number of components it records. */
  function ProcessSOFAt(data: seq<byte>, q: nat, n: nat, nComp: int, prev: Size): (r: (Option<Error>, Size, int))
    requires q <= |data|
  {
    if nComp != 0 then (Some(FormatError("multiple SOF markers")), prev, nComp)
    else
      var c := SofComponents(n);
      if c == 0 then (Some(UnsupportedError("number of components")), prev, nComp)
      else if q + n > |data| then (Some(UnexpectedEOF), prev, c)
      else
        var h := SofHeader(data[q..q + 6], c, prev);
        (h.0, h.1, c)
  }

  /** The component count a frame header of length n announces, 0 when the
      length fits none. */
  function SofComponents(n: nat): int
  {
    if n == 6 + 3 * 1 then 1 else if n == 6 + 3 * 3 then 3 else if n == 6 + 3 * 4 then 4 else 0
  }

  /** The precision, height, width and component count bytes of a frame
      header, checked against c. */
  function SofHeader(b: seq<byte>, c: int, prev: Size): (Option<Error>, Size)
    requires |b| >= 6
  {
    if b[0] != 8 then (Some(UnsupportedError("precision")), prev)
    else
      var size := Size(b[3] as int * 256 + b[4] as int, b[1] as int * 256 + b[2] as int);
      if b[5] as int != c then (Some(FormatError("SOF has wrong length")), size)
      else (None, size)
  }

  /** The loop that slides a two-byte window (t0, t1) one byte at a time
      until t0 is 0xff, k being the next byte to read: the error, the byte
      after the 0xff and where the stream is left. */
  function ScanWindow(data: seq<byte>, k: nat, t0: byte, t1: byte): (r: (Option<Error>, byte, nat))
    requires k <= |data|
    ensures k <= r.2 <= |data|
    ensures r.0.Some? ==> r.0 == Some(EOF) && r.2 == |data|
    decreases |data| - k
  {
    if t0 == 0xff then (None, t1, k)
    else if k == |data| then (Some(EOF), 0, k)
    else ScanWindow(data, k + 1, t1, data[k])
  }

  /** The loop that skips fill bytes: while the marker read is 0xff, read
      the next one. */
  function SkipFill(data: seq<byte>, k: nat, m: byte): (r: (Option<Error>, byte, nat))
    requires k <= |data|
    ensures k <= r.2 <= |data|
    ensures r.0.None? ==> r.1 != 0xff
    ensures r.0.Some? ==> r.0 == Some(EOF) && r.2 == |data|
    decreases |data| - k
  {
    if m != 0xff then (None, m, k)
    else if k == |data| then (Some(EOF), 0, k)
    else SkipFill(data, k + 1, data[k])
  }

  /** What the top of decode's loop finds at q. */
  datatype Scan = ScanError(error: Error) | Extraneous | Marker(marker: byte)

  function NextMarkerAt(data: seq<byte>, q: nat): (r: (Scan, nat))
    requires q <= |data|
    ensures q <= r.1 <= |data|
    ensures !r.0.ScanError? ==> r.1 >= q + 2
    ensures r.0.Marker? ==> r.0.marker != 0xff
  {
    if q + 2 > |data| then (ScanError(UnexpectedEOF), |data|)
    else
      var w := ScanWindow(data, q + 2, data[q], data[q + 1]);
      if w.0.Some? then (ScanError(w.0.value), w.2)
      else if w.1 == 0 then (Extraneous, w.2)
      else
        var f := SkipFill(data, w.2, w.1);
        if f.0.Some? then (ScanError(f.0.value), f.2) else (Marker(f.1), f.2)
  }

  /** One turn of decode's loop ends the decoding or goes on from `pos`. */
  datatype Step = Done(outcome: Result<Size>) | Next(pos: nat)

  /** What decode does with marker m, the stream being at k just after it. */
  function MarkerStep(data: seq<byte>, k: nat, m: byte): (s: Step)
    requires k <= |data|
    ensures s.Next? ==> k <= s.pos <= |data|
  {
    if m == EoiMarker then Done(Success(Size(0, 0)))
    else if Rst0Marker <= m <= Rst7Marker then Next(k)
    else if k + 2 > |data| then Done(Failure(UnexpectedEOF))
    else
      var n := data[k] as int * 256 + data[k + 1] as int - 2;
      if n < 0 then Done(Failure(FormatError("short segment length")))
      else if IsSof(m) then Done(Success(ProcessSOFAt(data, k + 2, n, 0, Size(0, 0)).1))
      else if m == SosMarker then Done(Success(Size(0, 0)))
      else if Skippable(m) then
        if k + 2 + n > |data| then Done(Failure(UnexpectedEOF)) else Next(k + 2 + n)
      else if m < 0xc0 then Done(Failure(FormatError("unknown marker")))
      else Done(Failure(UnsupportedError("unknown marker")))
  }

  function SegmentStep(data: seq<byte>, q: nat): (s: Step)
    requires q <= |data|
    ensures s.Next? ==> q < s.pos <= |data|
  {
    var nm := NextMarkerAt(data, q);
    match nm.0
    case ScanError(e) => Done(Failure(e))
    case Extraneous => Next(nm.1)
    case Marker(m) => MarkerStep(data, nm.1, m)
  }

  /** decode's loop over the segments from q. */
  function Segments(data: seq<byte>, q: nat): Result<Size>
    requires q <= |data|
    decreases |data| - q
  {
    match SegmentStep(data, q)
    case Done(o) => o
    case Next(k) => Segments(data, k)
  }

  /** decode on a stream at p. */
  function JpegDecode(data: seq<byte>, p: nat): Result<Size>
    requires p <= |data|
  {
    if p + 2 > |data| then Failure(UnexpectedEOF)
    else if data[p] != 0xff || data[p + 1] != SoiMarker then Failure(FormatError("missing SOI marker"))
    else Segments(data, p + 2)
  }

  /** The first m bytes of a run copied from data at q are data[q..q + m]. */
  lemma SlicePrefix(t: seq<byte>, data: seq<byte>, n: nat, q: nat, m: nat)
    requires m <= n <= |t| && q + n <= |data| && t[..n] == data[q..q + n]
    ensures t[..m] == data[q..q + m]
  {
    assert t[..m] == t[..n][..m];
  }

  // ---- the decoder ------------------------------------------------------------

  class JpegDecoder {
    var r: Reader?
    /** buf[i..j] are bytes read from r and not yet passed on. */
    const buf: array<byte>
    var i: int
    var j: int
    var nUnreadable: int
    var width: int
    var height: int
    var nComp: int
    var baseline: bool
    var progressive: bool
    const tmp: array<byte>

    /** The buffered bytes are the ones just before where r stands, so the
        decoder's own position in the stream is r.pos - (j - i). */
    ghost predicate Valid()
      reads this, r, buf
    {
      && r != null && r.Valid()
      && buf.Length == BufferSize && tmp.Length == 2 * BlockSize && buf != tmp
      && 0 <= i <= j <= BufferSize && j - i <= r.pos && nUnreadable == 0
      && buf[i..j] == r.data[r.pos - (j - i)..r.pos]
    }

    /** The position in the stream of the next byte the decoder passes on. */
    ghost function Pos(): int
      requires r != null
      reads this, r
    {
      r.pos - (j - i)
    }

    /** The header fields decode fills in. */
    function Fields(): (int, int, int, bool, bool)
      reads this
    {
      (width, height, nComp, baseline, progressive)
    }

    /** The zero value of jpgdecoder. */
    constructor ()
      ensures fresh(buf) && fresh(tmp) && buf.Length == BufferSize && tmp.Length == 2 * BlockSize
      ensures i == 0 && j == 0 && nUnreadable == 0 && r == null
      ensures width == 0 && height == 0 && nComp == 0 && !baseline && !progressive
    {
      r := null;
      buf := new byte[BufferSize];
      i, j, nUnreadable := 0, 0, 0;
      width, height, nComp := 0, 0, 0;
      baseline, progressive := false, false;
      tmp := new byte[2 * BlockSize];
    }

    /** fill: keeps the last two bytes at the front of buf and reads more
        behind them. Called only when nothing is buffered. */
    method Fill() returns (err: Option<Error>)
      requires Valid() && i == j
      modifies this, buf, r
      ensures Valid() && r == old(r) && Fields() == old(Fields()) && Pos() == old(Pos())
      ensures old(r.pos) < |r.data| ==> err.None? && i < j && r.pos > old(r.pos)
      ensures old(r.pos) == |r.data| ==> err == Some(EOF) && i == j
    {
      if j > 2 {
        buf[0] := buf[j - 2];
        buf[1] := buf[j - 1];
        i, j := 2, 2;
      }
      var n;
      n, err := r.ReadInto(buf, j);
      j := j + n;
      if n > 0 {
        err := None;
      }
    }

    /** readByte: the next byte, or EOF as io.Reader reports it. */
    method ReadByte() returns (x: byte, err: Option<Error>)
      requires Valid()
      modifies this, buf, r
      ensures Valid() && r == old(r) && Fields() == old(Fields())
      ensures old(Pos()) < |r.data| ==> err.None? && x == r.data[old(Pos())] && Pos() == old(Pos()) + 1
      ensures old(Pos()) >= |r.data| ==> err == Some(EOF) && Pos() == old(Pos())
    {
      while i == j
        invariant Valid() && r == old(r) && Fields() == old(Fields()) && Pos() == old(Pos())
        decreases |r.data| - r.pos
      {
        err := Fill();
        if err.Some? {
          return 0, err;
        }
      }
      assert buf[i] == buf[i..j][0];
      x := buf[i];
      i := i + 1;
      nUnreadable := 0;
      err := None;
    }

    /** Moves up to `want` buffered bytes to tmp[filled..]: the copy at the
        head of readFull's loop. */
    method Take(filled: nat, want: nat) returns (m: nat)
      requires Valid() && filled + want <= tmp.Length
      modifies this, tmp
      ensures Valid() && r == old(r) && r.pos == old(r.pos) && Fields() == old(Fields())
      ensures m == Min(want, old(j - i)) && Pos() == old(Pos()) + m
      ensures tmp[..filled] == old(tmp[..filled])
      ensures tmp[filled..filled + m] == r.data[old(Pos())..Pos()]
    {
      m := Min(want, j - i);
      ghost var win := buf[i..j];
      ghost var p0 := Pos();
      ghost var front := tmp[..filled];
      forall k | 0 <= k < m {
        tmp[filled + k] := buf[i + k];
      }
      assert tmp[..filled] == front;
      ghost var moved := tmp[filled..filled + m];
      forall k | 0 <= k < m
        ensures moved[k] == win[..m][k]
      {
        assert moved[k] == tmp[filled + k] == buf[i + k] == win[k];
      }
      i := i + m;
      assert buf[i..j] == win[m..];
      assert win[..m] == r.data[p0..p0 + m] && win[m..] == r.data[p0 + m..r.pos];
    }

    /** readFull(tmp[:n]): exactly n bytes, or ErrUnexpectedEOF once the
        stream runs out. */
    method ReadFull(n: nat) returns (err: Option<Error>)
      requires Valid() && n <= tmp.Length
      modifies this, buf, r, tmp
      ensures Valid() && r == old(r) && Fields() == old(Fields())
      ensures old(Pos()) + n <= |r.data| ==>
        err.None? && Pos() == old(Pos()) + n && tmp[..n] == r.data[old(Pos())..Pos()]
      ensures old(Pos()) + n > |r.data| ==> err == Some(UnexpectedEOF) && Pos() == |r.data|
    {
      ghost var start := Pos();
      var filled := 0;
      while true
        invariant Valid() && r == old(r) && Fields() == old(Fields())
        invariant 0 <= filled <= n && Pos() == start + filled
        invariant tmp[..filled] == r.data[start..Pos()]
        decreases |r.data| - r.pos
      {
        ghost var before := Pos();
        var m := Take(filled, n - filled);
        assert tmp[..filled + m] == tmp[..filled] + tmp[filled..filled + m];
        assert r.data[start..before + m] == r.data[start..before] + r.data[before..before + m];
        filled := filled + m;
        if filled == n {
          break;
        }
        err := Fill();
        if err.Some? {
          if err == Some(EOF) {
            err := Some(UnexpectedEOF);
          }
          return;
        }
      }
      err := None;
    }

    /** ignore(n): skips exactly n bytes, or ErrUnexpectedEOF once the
        stream runs out. */
    method Ignore(n: nat) returns (err: Option<Error>)
      requires Valid()
      modifies this, buf, r
      ensures Valid() && r == old(r) && Fields() == old(Fields())
      ensures old(Pos()) + n <= |r.data| ==> err.None? && Pos() == old(Pos()) + n
      ensures old(Pos()) + n > |r.data| ==> err == Some(UnexpectedEOF) && Pos() == |r.data|
    {
      var rest := n;
      while true
        invariant Valid() && r == old(r) && Fields() == old(Fields())
        invariant 0 <= rest <= n && Pos() == old(Pos()) + (n - rest)
        decreases |r.data| - r.pos
      {
        var m := j - i;
        if m > rest {
          m := rest;
        }
        i := i + m;
        rest := rest - m;
        if rest == 0 {
          break;
        }
        err := Fill();
        if err.Some? {
          if err == Some(EOF) {
            err := Some(UnexpectedEOF);
          }
          return;
        }
      }
      err := None;
    }

    /** readFull(d.tmp[:n]) for a frame header: its first six bytes. */
    method ReadFrameHeader(n: nat) returns (b: seq<byte>, err: Option<Error>)
      requires Valid() && 6 <= n <= tmp.Length
      modifies this, buf, r, tmp
      ensures Valid() && r == old(r) && Fields() == old(Fields())
      ensures old(Pos()) + n <= |r.data| ==> err.None? && b == r.data[old(Pos())..old(Pos()) + 6]
      ensures old(Pos()) + n > |r.data| ==> err == Some(UnexpectedEOF)
    {
      ghost var q := Pos();
      err := ReadFull(n);
      if err.Some? {
        return [], err;
      }
      b := tmp[..6];
      SlicePrefix(tmp[..], r.data, n, q, 6);
    }

    /** processSOF(n), section B.2.2. */
    method ProcessSOF(n: nat) returns (err: Option<Error>)
      requires Valid()
      modifies this, buf, r, tmp
      ensures Valid() && r == old(r)
      ensures (err, Size(width, height), nComp) ==
        ProcessSOFAt(r.data, old(Pos()), n, old(nComp), old(Size(width, height)))
      ensures baseline == old(baseline) && progressive == old(progressive)
    {
      if nComp != 0 {
        return Some(FormatError("multiple SOF markers"));
      }
      var c := SofComponents(n);
      if c == 0 {
        return Some(UnsupportedError("number of components"));
      }
      nComp := c;
      var b;
      b, err := ReadFrameHeader(n);
      if err.Some? {
        return;
      }
      var h := SofHeader(b, c, Size(width, height));
      err, width, height := h.0, h.1.width, h.1.height;
    }

    /** The loop that slides tmp[0..2] along the stream until tmp[0] is
        0xff; on success tmp[1] is the byte after it. */
    method SlideToFF() returns (err: Option<Error>)
      requires Valid()
      modifies this, buf, r, tmp
      ensures Valid() && r == old(r) && Fields() == old(Fields())
      ensures var w := ScanWindow(r.data, old(Pos()), old(tmp[0]), old(tmp[1]));
        err == w.0 && Pos() == w.2 && (err.None? ==> tmp[1] == w.1)
    {
      ghost var w := ScanWindow(r.data, Pos(), tmp[0], tmp[1]);
      while tmp[0] != 0xff
        invariant Valid() && r == old(r) && Fields() == old(Fields())
        invariant 0 <= Pos() <= |r.data|
        invariant ScanWindow(r.data, Pos(), tmp[0], tmp[1]) == w
        decreases |r.data| - Pos()
      {
        tmp[0] := tmp[1];
        var x;
        x, err := ReadByte();
        if err.Some? {
          return;
        }
        tmp[1] := x;
      }
      err := None;
    }

    /** The loop that reads past fill bytes: while the marker is 0xff, the
        next byte is the marker. */
    method SkipFillBytes(m: byte) returns (marker: byte, err: Option<Error>)
      requires Valid()
      modifies this, buf, r
      ensures Valid() && r == old(r) && Fields() == old(Fields())
      ensures var f := SkipFill(r.data, old(Pos()), m);
        err == f.0 && Pos() == f.2 && (err.None? ==> marker == f.1)
    {
      marker := m;
      ghost var f := SkipFill(r.data, Pos(), marker);
      while marker == 0xff
        invariant Valid() && r == old(r) && Fields() == old(Fields())
        invariant 0 <= Pos() <= |r.data|
        invariant SkipFill(r.data, Pos(), marker) == f
        decreases |r.data| - Pos()
      {
        marker, err := ReadByte();
        if err.Some? {
          return;
        }
      }
      err := None;
    }

    /** The top of decode's loop: two bytes, the slide to the next 0xff, the
        "\xff\x00" check and the fill bytes. */
    method NextMarker() returns (s: Scan)
      requires Valid()
      modifies this, buf, r, tmp
      ensures Valid() && r == old(r) && Fields() == old(Fields())
      ensures (s, Pos()) == NextMarkerAt(r.data, old(Pos()))
    {
      ghost var q := Pos();
      var err := ReadFull(2);
      if err.Some? {
        return ScanError(err.value);
      }
      assert tmp[0] == tmp[..2][0] == r.data[q] && tmp[1] == tmp[..2][1] == r.data[q + 1];
      err := SlideToFF();
      if err.Some? {
        return ScanError(err.value);
      }
      var marker := tmp[1];
      if marker == 0 {
        return Extraneous;
      }
      marker, err := SkipFillBytes(marker);
      if err.Some? {
        return ScanError(err.value);
      }
      return Marker(marker);
    }

    /** The rest of decode's loop for marker m: None to go round again, or
        what decode returns. */
    method Segment(marker: byte) returns (result: Option<Result<Size>>)
      requires Valid() && width == 0 && height == 0 && nComp == 0
      modifies this, buf, r, tmp
      ensures Valid() && r == old(r)
      ensures var st := MarkerStep(r.data, old(Pos()), marker);
        if st.Done? then result == Some(st.outcome)
        else result.None? && Pos() == st.pos && width == 0 && height == 0 && nComp == 0
    {
      if marker == EoiMarker {
        return Some(Success(Size(width, height)));
      }
      if Rst0Marker <= marker && marker <= Rst7Marker {
        return None;
      }
      ghost var k := Pos();
      var err := ReadFull(2);
      if err.Some? {
        return Some(Failure(err.value));
      }
      assert tmp[..2][0] == r.data[k] && tmp[..2][1] == r.data[k + 1];
      var n := tmp[0] as int * 256 + tmp[1] as int - 2;
      if n < 0 {
        return Some(Failure(FormatError("short segment length")));
      }
      if marker == Sof0Marker || marker == Sof1Marker || marker == Sof2Marker {
        baseline := marker == Sof0Marker;
        progressive := marker == Sof2Marker;
        err := ProcessSOF(n);
        return Some(Success(Size(width, height)));
      }
      if marker == SosMarker {
        return Some(Success(Size(0, 0)));
      }
      if marker == DhtMarker || marker == DqtMarker || marker == DriMarker || marker == App0Marker || marker == App14Marker {
        err := Ignore(n);
      } else if (App0Marker <= marker && marker <= App15Marker) || marker == ComMarker {
        err := Ignore(n);
      } else if marker < 0xc0 {
        err := Some(FormatError("unknown marker"));
      } else {
        err := Some(UnsupportedError("unknown marker"));
      }
      if err.Some? {
        return Some(Failure(err.value));
      }
      return None;
    }

    /** decode, on a zero-valued decoder. */
    method Decode(rd: Reader) returns (size: Size, err: Option<Error>)
      requires rd.Valid()
      requires buf.Length == BufferSize && tmp.Length == 2 * BlockSize && buf != tmp
      requires i == 0 && j == 0 && nUnreadable == 0 && width == 0 && height == 0 && nComp == 0
      modifies this, buf, tmp, rd
      ensures var d := JpegDecode(rd.data, old(rd.pos));
        if d.Success? then err.None? && size == d.value
        else err == Some(d.error) && size == Size(0, 0)
    {
      r := rd;
      ghost var p := rd.pos;
      err := ReadFull(2);
      if err.Some? {
        return Size(0, 0), err;
      }
      assert tmp[..2][0] == rd.data[p] && tmp[..2][1] == rd.data[p + 1];
      if tmp[0] != 0xff || tmp[1] != SoiMarker {
        return Size(0, 0), Some(FormatError("missing SOI marker"));
      }
      while true
        invariant Valid() && r == rd && width == 0 && height == 0 && nComp == 0
        invariant 0 <= Pos() <= |rd.data|
        invariant JpegDecode(rd.data, p) == Segments(rd.data, Pos())
        decreases |rd.data| - Pos()
      {
        var s := NextMarker();
        if s.ScanError? {
          return Size(0, 0), Some(s.error);
        }
        if s.Extraneous? {
          continue;
        }
        var st := Segment(s.marker);
        if st.Some? {
          match st.value
          case Success(v) =>
            return v, None;
          case Failure(e) =>
            return Size(0, 0), Some(e);
        }
      }
    }
  }

  // ---- properties ---------------------------------------------------------

  /** The stream must open with 0xff 0xd8: a shorter one ends in an
      unexpected EOF, any other pair is "missing SOI marker". */
  lemma JpegDecodeSoi(data: seq<byte>, p: nat)
    requires p <= |data|
    ensures p + 2 > |data| ==> JpegDecode(data, p) == Failure(UnexpectedEOF)
    ensures p + 2 <= |data| && (data[p] != 0xff || data[p + 1] != SoiMarker) ==>
      JpegDecode(data, p) == Failure(FormatError("missing SOI marker"))
    ensures p + 2 <= |data| && data[p] == 0xff && data[p + 1] == SoiMarker ==>
      JpegDecode(data, p) == Segments(data, p + 2)
  {
  }

  /** The window slides one byte at a time up to the first 0xff at e. */
  lemma {:induction false} WindowReachesFF(data: seq<byte>, k: nat, e: nat)
    requires 2 <= k <= e + 2 <= |data| && data[e] == 0xff
    requires forall t | k - 2 <= t < e :: data[t] != 0xff
    ensures ScanWindow(data, k, data[k - 2], data[k - 1]) == (None, data[e + 1], e + 2)
    decreases e + 2 - k
  {
    if k < e + 2 {
      WindowReachesFF(data, k + 1, e);
    }
  }

  /** With no 0xff at or after k - 2 save perhaps the last byte, the window
      runs into the end of the stream, and the error is io.EOF itself. */
  lemma {:induction false} WindowRunsOut(data: seq<byte>, k: nat)
    requires 2 <= k <= |data|
    requires forall t | k - 2 <= t < |data| - 1 :: data[t] != 0xff
    ensures ScanWindow(data, k, data[k - 2], data[k - 1]) == (Some(EOF), 0, |data|)
    decreases |data| - k
  {
    if k < |data| {
      WindowRunsOut(data, k + 1);
    }
  }

  /** A run of fill bytes from k up to e is read past; the marker is data[e]. */
  lemma {:induction false} FillReaches(data: seq<byte>, k: nat, e: nat)
    requires k <= e < |data| && data[e] != 0xff
    requires forall t | k <= t < e :: data[t] == 0xff
    ensures SkipFill(data, k, 0xff) == (None, data[e], e + 1)
    decreases e - k
  {
    if k < e {
      FillReaches(data, k + 1, e);
    }
  }

  /** Extraneous bytes (none of them 0xff) from q up to e, fill bytes from e
      up to f and a marker byte at f: the turn of decode's loop at q handles
      the marker at f as if nothing came before it. */
  lemma ScansToMarker(data: seq<byte>, q: nat, e: nat, f: nat)
    requires q <= e < f < |data|
    requires forall t | q <= t < e :: data[t] != 0xff
    requires forall t | e <= t < f :: data[t] == 0xff
    requires data[f] != 0x00 && data[f] != 0xff
    ensures SegmentStep(data, q) == MarkerStep(data, f + 1, data[f])
  {
    WindowReachesFF(data, q + 2, e);
    if e + 1 < f {
      FillReaches(data, e + 2, f);
    }
  }

  /** "\xff\x00" after extraneous bytes is itself extraneous: the loop goes
      on after it. */
  lemma ScansPastStuffedZero(data: seq<byte>, q: nat, e: nat)
    requires q <= e && e + 2 <= |data| && data[e] == 0xff && data[e + 1] == 0x00
    requires forall t | q <= t < e :: data[t] != 0xff
    ensures SegmentStep(data, q) == Next(e + 2)
    ensures Segments(data, q) == Segments(data, e + 2)
  {
    WindowReachesFF(data, q + 2, e);
  }

  /** A stream with no 0xff byte from q on (the last byte aside) makes
      decode return io.EOF, not ErrUnexpectedEOF. */
  lemma NoMarkerIsEOF(data: seq<byte>, q: nat)
    requires q + 2 <= |data|
    requires forall t | q <= t < |data| - 1 :: data[t] != 0xff
    ensures Segments(data, q) == Failure(EOF)
  {
    WindowRunsOut(data, q + 2);
  }

  /** EOI ends decoding with a zero size and no error; a restart marker is
      passed over without a length being read. */
  lemma EoiAndRestart(data: seq<byte>, q: nat)
    requires q + 2 <= |data| && data[q] == 0xff
    ensures data[q + 1] == EoiMarker ==> Segments(data, q) == Success(Size(0, 0))
    ensures Rst0Marker <= data[q + 1] <= Rst7Marker ==> Segments(data, q) == Segments(data, q + 2)
  {
    if data[q + 1] != 0x00 && data[q + 1] != 0xff {
      ScansToMarker(data, q, q, q + 1);
    }
  }

  /** A segment's length is big-endian and counts its own two bytes: a
      length below 2 is "short segment length". */
  lemma ShortSegment(data: seq<byte>, k: nat, m: byte)
    requires k + 2 <= |data| && data[k] == 0 && data[k + 1] < 2
    requires m != EoiMarker && !(Rst0Marker <= m <= Rst7Marker)
    ensures MarkerStep(data, k, m) == Done(Failure(FormatError("short segment length")))
  {
  }

  /** The two bytes of a 16-bit big-endian value. */
  function BE16(x: nat): (b: seq<byte>)
    requires x < 65536
    ensures |b| == 2 && b[0] as int * 256 + b[1] as int == x
  {
    [(x / 256) as byte, (x % 256) as byte]
  }

  /** A table, restart-interval, application or comment segment with its
      length is passed over whole. */
  lemma SkipsSegment(data: seq<byte>, q: nat, m: byte, body: seq<byte>)
    requires Skippable(m) && |body| + 2 < 65536
    requires q + 4 + |body| <= |data|
    requires data[q..q + 4 + |body|] == [0xff, m] + BE16(|body| + 2) + body
    ensures SegmentStep(data, q) == Next(q + 4 + |body|)
    ensures Segments(data, q) == Segments(data, q + 4 + |body|)
  {
    var seg := data[q..q + 4 + |body|];
    assert data[q] == seg[0] == 0xff && data[q + 1] == seg[1] == m;
    assert data[q + 2] == seg[2] && data[q + 3] == seg[3];
    ScansToMarker(data, q, q, q + 1);
  }

  /** Unknown markers: below 0xc0 a format error, otherwise unsupported. */
  lemma UnknownMarker(data: seq<byte>, k: nat, m: byte)
    requires k + 2 <= |data| && data[k] as int * 256 + data[k + 1] as int >= 2
    requires m != EoiMarker && !(Rst0Marker <= m <= Rst7Marker) && !IsSof(m) && m != SosMarker && !Skippable(m)
    ensures m < 0xc0 ==> MarkerStep(data, k, m) == Done(Failure(FormatError("unknown marker")))
    ensures m >= 0xc0 ==> MarkerStep(data, k, m) == Done(Failure(UnsupportedError("unknown marker")))
  {
  }

  /** A start-of-scan segment before any frame header ends decoding with a
      zero size and no error. */
  lemma ScanBeforeFrame(data: seq<byte>, k: nat)
    requires k + 2 <= |data| && data[k] as int * 256 + data[k + 1] as int >= 2
    ensures MarkerStep(data, k, SosMarker) == Done(Success(Size(0, 0)))
  {
  }

  /** The frame header of section B.2.2: precision 8, height, width, the
      number of components and three bytes per component. */
  function EncodeSof(marker: byte, width: nat, height: nat, comps: seq<byte>): (s: seq<byte>)
    requires IsSof(marker) && width < 65536 && height < 65536
    requires |comps| == 3 || |comps| == 9 || |comps| == 12
  {
    [0xff, marker] + BE16(8 + |comps|) + [8] + BE16(height) + BE16(width) + [(|comps| / 3) as byte] + comps
  }

  /** A stream that opens with SOI and a frame header decodes to the frame's
      width and height, whatever follows. */
  lemma SofDecodes(marker: byte, width: nat, height: nat, comps: seq<byte>, rest: seq<byte>)
    requires IsSof(marker) && width < 65536 && height < 65536
    requires |comps| == 3 || |comps| == 9 || |comps| == 12
    ensures JpegDecode([0xff, SoiMarker] + EncodeSof(marker, width, height, comps) + rest, 0) ==
      Success(Size(width, height))
  {
    var data := [0xff, SoiMarker] + EncodeSof(marker, width, height, comps) + rest;
    assert data[2] == 0xff && data[3] == marker;
    ScansToMarker(data, 2, 2, 3);
    var h, w := BE16(height), BE16(width);
    assert data[6] == 8 && data[7] == h[0] && data[8] == h[1] && data[9] == w[0] && data[10] == w[1];
    assert data[11] as int == |comps| / 3;
  }

  /** A frame header always ends decoding without an error, even when
      processSOF rejects it: the size is then the one recorded before the
      rejection, zero unless only the component count byte was wrong. */
  lemma SofIgnoresErrors(data: seq<byte>, k: nat, m: byte)
    requires IsSof(m) && k + 2 <= |data| && data[k] as int * 256 + data[k + 1] as int >= 2
    ensures MarkerStep(data, k, m).Done? && MarkerStep(data, k, m).outcome.Success?
    ensures var n := data[k] as int * 256 + data[k + 1] as int - 2;
      ProcessSOFAt(data, k + 2, n, 0, Size(0, 0)).0.Some? &&
      ProcessSOFAt(data, k + 2, n, 0, Size(0, 0)).0 != Some(FormatError("SOF has wrong length")) ==>
      MarkerStep(data, k, m) == Done(Success(Size(0, 0)))
  {
  }

  /** processSOF's checks: one frame header only, 1, 3 or 4 components,
      8-bit precision, and a component count byte that matches the length;
      height comes before width. */
  lemma ProcessSOFOutcomes(data: seq<byte>, q: nat, n: nat, nComp: int, prev: Size)
    requires q <= |data|
    ensures var r := ProcessSOFAt(data, q, n, nComp, prev);
      && (nComp != 0 ==> r == (Some(FormatError("multiple SOF markers")), prev, nComp))
      && (nComp == 0 && n != 9 && n != 15 && n != 18 ==> r == (Some(UnsupportedError("number of components")), prev, nComp))
      && (nComp == 0 && (n == 9 || n == 15 || n == 18) ==> r.2 == (n - 6) / 3)
      && (r.0.None? <==>
            nComp == 0 && (n == 9 || n == 15 || n == 18) && q + n <= |data| && data[q] == 8 && data[q + 5] as int == (n - 6) / 3)
      && (r.0.None? || r.0 == Some(FormatError("SOF has wrong length")) ==>
            r.1 == Size(BigEndian(data[q + 3..q + 5]), BigEndian(data[q + 1..q + 3])))
  {
    if nComp == 0 && (n == 9 || n == 15 || n == 18) && q + n <= |data| {
      BigEndian2(data, q + 1);
      BigEndian2(data, q + 3);
    }
  }

  lemma BigEndian2(data: seq<byte>, k: nat)
    requires k + 2 <= |data|
    ensures BigEndian(data[k..k + 2]) == data[k] as int * 256 + data[k + 1] as int
  {
    var b := data[k..k + 2];
    assert b[..|b| - 1] == [data[k]] && b[|b| - 1] == data[k + 1];
    assert BigEndian([data[k]]) == data[k] as nat by {
      assert [data[k]][..0] == [];
    }
  }

  /** Every size decode returns has both sides in 0..65535. */
  lemma {:induction false} SegmentsBounds(data: seq<byte>, q: nat)
    requires q <= |data|
    ensures Segments(data, q).Success? ==>
      0 <= Segments(data, q).value.width < 65536 && 0 <= Segments(data, q).value.height < 65536
    decreases |data| - q
  {
    match SegmentStep(data, q)
    case Done(o) =>
    case Next(k) =>
      SegmentsBounds(data, k);
  }

  /** decode never yields a negative or over-wide size. */
  lemma JpegDecodeBounds(data: seq<byte>, p: nat)
    requires p <= |data|
    ensures JpegDecode(data, p).Success? ==>
      0 <= JpegDecode(data, p).value.width < 65536 && 0 <= JpegDecode(data, p).value.height < 65536
  {
    if p + 2 <= |data| {
      SegmentsBounds(data, p + 2);
    }
  }
}
