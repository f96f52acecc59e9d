/** The GIF reader of vendor/github.com/fumiama/imgsz/gif.go: the 6-byte
    signature and version and the logical screen descriptor that follows it
    (sections 17 and 18 of the GIF89a specification). */
module Gif {
  import opened Text
  import opened ByteStream

  /** "GIF87a" and "GIF89a" as bytes. */
  const Gif87a: seq<byte> := [0x47, 0x49, 0x46, 0x38, 0x37, 0x61]
  const Gif89a: seq<byte> := [0x47, 0x49, 0x46, 0x38, 0x39, 0x61]

  const HeaderLength := 13

  /** readFull's error: io.ReadFull's, with EOF turned into ErrUnexpectedEOF. */
  function NoEOF(e: Option<Error>): (r: Option<Error>)
    ensures r != Some(EOF)
    ensures r.None? <==> e.None?
    ensures e != Some(EOF) ==> r == e
  {
    if e == Some(EOF) then Some(UnexpectedEOF) else e
  }

  /** readFull(r, buf[:n]). */
  method ReadFull(r: Reader, buf: array<byte>, n: nat) returns (err: Option<Error>)
    requires r.Valid() && n <= buf.Length
    modifies r, buf
    ensures r.Valid()
    ensures var rf := ReadFullFrom(r.data, old(r.pos), n);
      && buf[..|rf.0|] == rf.0 && r.pos == rf.1 && err == NoEOF(rf.2)
    ensures var rf := ReadFullFrom(r.data, old(r.pos), n);
      buf[|rf.0|..] == old(buf[|rf.0|..])
  {
    var k;
    k, err := r.ReadFullInto(buf, n);
    if err == Some(EOF) {
      err := Some(UnexpectedEOF);
    }
  }

  /** What readHeaderAndScreenDescriptor makes of the bytes s left in the
      stream: the screen's width and height, or the error it returns. */
  function ScreenDescriptor(s: seq<byte>): Result<Size>
  {
    if |s| < HeaderLength then Failure(Wrapped("gif: reading header", UnexpectedEOF))
    else
      var vers := s[..6];
      if vers != Gif87a && vers != Gif89a then
        Failure(Unrecognized("gif: can't recognize format", vers))
      else
        Success(Size(s[6] as int + s[7] as int * 256, s[8] as int + s[9] as int * 256))
  }

  /** The bytes of a header with the given version, width and height, followed
      by the rest of the descriptor and whatever comes after it. */
  function EncodeScreen(vers: seq<byte>, width: nat, height: nat, rest: seq<byte>): (s: seq<byte>)
    requires width < 65536 && height < 65536
    ensures |s| == |vers| + 4 + |rest|
  {
    vers + [(width % 256) as byte, (width / 256) as byte, (height % 256) as byte, (height / 256) as byte] + rest
  }

  class GifDecoder {
    var vers: seq<byte>
    var width: int
    var height: int
    const tmp: array<byte>

    constructor ()
      ensures fresh(tmp) && tmp.Length == 1024
      ensures vers == [] && width == 0 && height == 0
    {
      vers := [];
      width := 0;
      height := 0;
      tmp := new byte[1024];
    }

    /** Reads the 13 header bytes into tmp, records the version and, when it
        is one of the two known ones, the width and height. */
    method ReadHeaderAndScreenDescriptor(r: Reader) returns (err: Option<Error>)
      requires r.Valid() && tmp.Length == 1024
      modifies this, tmp, r
      ensures r.Valid()
      ensures var d := ScreenDescriptor(r.data[old(r.pos)..]);
        err == if d.Success? then None else Some(d.error)
      ensures var d := ScreenDescriptor(r.data[old(r.pos)..]);
        d.Success? ==> Size(width, height) == d.value
      ensures var s := r.data[old(r.pos)..];
        && r.pos == old(r.pos) + Min(HeaderLength, |s|)
        && (|s| >= HeaderLength ==> vers == s[..6])
        && (!ScreenDescriptor(s).Success? ==> width == old(width) && height == old(height))
        && (|s| < HeaderLength ==> vers == old(vers))
    {
      ghost var s := r.data[r.pos..];
      var e := ReadFull(r, tmp, HeaderLength);
      if e.Some? {
        return Some(Wrapped("gif: reading header", e.value));
      }
      assert tmp[..HeaderLength] == s[..HeaderLength];
      vers := tmp[..6];
      assert vers == s[..HeaderLength][..6] == s[..6];
      if vers != Gif87a && vers != Gif89a {
        return Some(Unrecognized("gif: can't recognize format", vers));
      }
      width := tmp[6] as int + tmp[7] as int * 256;
      height := tmp[8] as int + tmp[9] as int * 256;
      return None;
    }
  }

  // ---- properties ----------------------------------------------------------

  /** The three outcomes: fewer than 13 bytes is an unexpected end of input;
      an unknown version is reported with the six bytes found; otherwise the
      header is accepted. */
  lemma ScreenDescriptorOutcomes(s: seq<byte>)
    ensures |s| < HeaderLength ==> ScreenDescriptor(s) == Failure(Wrapped("gif: reading header", UnexpectedEOF))
    ensures |s| >= HeaderLength && s[..6] != Gif87a && s[..6] != Gif89a ==>
      ScreenDescriptor(s) == Failure(Unrecognized("gif: can't recognize format", s[..6]))
    ensures ScreenDescriptor(s).Success? <==> |s| >= HeaderLength && (s[..6] == Gif87a || s[..6] == Gif89a)
  {
  }

  /** Width and height are the little-endian 16-bit fields at offsets 6 and
      8, so both lie in 0..65535. */
  lemma ScreenDescriptorFields(s: seq<byte>)
    requires ScreenDescriptor(s).Success?
    ensures ScreenDescriptor(s).value.width == LittleEndian(s[6..8])
    ensures ScreenDescriptor(s).value.height == LittleEndian(s[8..10])
    ensures 0 <= ScreenDescriptor(s).value.width < 65536
    ensures 0 <= ScreenDescriptor(s).value.height < 65536
  {
    var w, h := s[6..8], s[8..10];
    assert w[0] == s[6] && w[1..][0] == s[7] && w[1..][1..] == [];
    assert h[0] == s[8] && h[1..][0] == s[9] && h[1..][1..] == [];
    assert LittleEndian(w[1..]) == s[7] as nat;
    assert LittleEndian(w) == s[6] as nat + 256 * s[7] as nat;
    assert LittleEndian(h[1..]) == s[9] as nat;
    assert LittleEndian(h) == s[8] as nat + 256 * s[9] as nat;
  }

  /** Only the first ten bytes decide the result once thirteen are there: the
      colour-table flags, background colour and pixel aspect ratio in bytes
      10 to 12, and everything after them, are ignored. */
  lemma ScreenDescriptorIgnoresTail(s: seq<byte>, t: seq<byte>)
    requires |s| >= HeaderLength && |t| >= HeaderLength && s[..10] == t[..10]
    ensures ScreenDescriptor(s) == ScreenDescriptor(t)
  {
    assert s[..6] == s[..10][..6] && t[..6] == t[..10][..6];
    assert s[6] == s[..10][6] && t[6] == t[..10][6];
    assert s[7] == s[..10][7] && t[7] == t[..10][7];
    assert s[8] == s[..10][8] && t[8] == t[..10][8];
    assert s[9] == s[..10][9] && t[9] == t[..10][9];
  }

  /** Encoding a known version with a width and height, then decoding, gives
      the width and height back. */
  lemma EncodeDecode(vers: seq<byte>, width: nat, height: nat, rest: seq<byte>)
    requires vers == Gif87a || vers == Gif89a
    requires width < 65536 && height < 65536 && |rest| >= 3
    ensures ScreenDescriptor(EncodeScreen(vers, width, height, rest)) == Success(Size(width, height))
  {
    var s := EncodeScreen(vers, width, height, rest);
    assert s[..6] == vers;
  }

  /** Decoding, then encoding the version, width and height found, gives the
      first ten bytes back. */
  lemma DecodeEncode(s: seq<byte>)
    requires ScreenDescriptor(s).Success?
    ensures var d := ScreenDescriptor(s).value;
      0 <= d.width < 65536 && 0 <= d.height < 65536 &&
      EncodeScreen(s[..6], d.width, d.height, []) == s[..10]
  {
    var d := ScreenDescriptor(s).value;
    ScreenDescriptorFields(s);
    var e := EncodeScreen(s[..6], d.width, d.height, []);
    assert e[6] == s[6] && e[7] == s[7] && e[8] == s[8] && e[9] == s[9];
    assert e[..6] == s[..6];
  }
}
