/** The byte streams the image-header decoders of vendor/github.com/fumiama/imgsz
    read from: Go's io.Reader and io.ReadFull over a finite run of bytes,
    the decoders' error values and the Size they return. */
module ByteStream {
  import opened Text

  newtype byte = x: int | 0 <= x < 256

  /** The errors the decoders return. `Message` is a sentinel made with
      errors.New; `Wrapped` is fmt.Errorf("<context>: %v", cause);
      `Unrecognized` is fmt.Errorf("<context> %q", value). */
  datatype Error =
    | EOF
    | UnexpectedEOF
    | FormatError(msg: string)
    | UnsupportedError(msg: string)
    | Message(text: string)
    | Wrapped(context: string, cause: Error)
    | Unrecognized(context: string, value: seq<byte>)

  datatype Result<T> = Success(value: T) | Failure(error: Error)

  /** An image's width and height. */
  datatype Size = Size(width: int, height: int)

  function Min(a: int, b: int): int
  {
    if a < b then a else b
  }

  /** The bytes an ASCII string spells. */
  function Ascii(s: string): seq<byte>
    requires forall k :: 0 <= k < |s| ==> s[k] < 128 as char
  {
    seq(|s|, k requires 0 <= k < |s| => s[k] as int as byte)
  }

  /** Big-endian unsigned value of a run of bytes. */
  function BigEndian(b: seq<byte>): nat
  {
    if b == [] then 0 else BigEndian(b[..|b| - 1]) * 256 + b[|b| - 1] as nat
  }

  /** Little-endian unsigned value of a run of bytes. */
  function LittleEndian(b: seq<byte>): nat
  {
    if b == [] then 0 else b[0] as nat + 256 * LittleEndian(b[1..])
  }

  lemma {:induction false} BigEndianBound(b: seq<byte>)
    ensures BigEndian(b) < Pow256(|b|)
  {
    if b != [] {
      BigEndianBound(b[..|b| - 1]);
    }
  }

  lemma {:induction false} LittleEndianBound(b: seq<byte>)
    ensures LittleEndian(b) < Pow256(|b|)
  {
    if b != [] {
      LittleEndianBound(b[1..]);
    }
  }

  function Pow256(n: nat): nat
  {
    if n == 0 then 1 else 256 * Pow256(n - 1)
  }

  /** What io.ReadFull does to a stream at `pos` when asked for n bytes: the
      bytes it delivers, where the stream is left, and its error (EOF when
      nothing was there, ErrUnexpectedEOF when only part of it was). */
  function ReadFullFrom(data: seq<byte>, pos: nat, n: nat): (r: (seq<byte>, nat, Option<Error>))
    requires pos <= |data|
    ensures pos <= r.1 <= |data| && r.0 == data[pos..r.1]
    ensures r.2.None? <==> pos + n <= |data|
    ensures r.2.None? ==> r.1 == pos + n
  {
    if pos + n <= |data| then (data[pos..pos + n], pos + n, None)
    else if pos == |data| then ([], pos, Some(EOF))
    else (data[pos..], |data|, Some(UnexpectedEOF))
  }

  /** A stream over a fixed run of bytes. Read hands out as many of the
      requested bytes as are left and reports EOF once none are. */
  class Reader {
    const data: seq<byte>
    var pos: nat

    ghost predicate Valid()
      reads this
    {
      pos <= |data|
    }

    constructor (data: seq<byte>)
      ensures Valid() && this.data == data && pos == 0
    {
      this.data := data;
      pos := 0;
    }

    /** io.Reader.Read with a buffer of n bytes. */
    method Read(n: nat) returns (b: seq<byte>, err: Option<Error>)
      requires Valid()
      modifies this
      ensures Valid()
      ensures old(pos) == |data| ==> b == [] && err == Some(EOF) && pos == old(pos)
      ensures old(pos) < |data| ==> err.None? && pos == old(pos) + Min(n, |data| - old(pos)) && b == data[old(pos)..pos]
    {
      if pos == |data| {
        return [], Some(EOF);
      }
      var k := Min(n, |data| - pos);
      b := data[pos..pos + k];
      pos := pos + k;
      err := None;
    }

    /** io.Reader.Read(buf[off:]): as many bytes as fit and are left land at
        buf[off..], and nothing else in buf changes. */
    method ReadInto(buf: array<byte>, off: nat) returns (n: nat, err: Option<Error>)
      requires Valid() && off <= buf.Length
      modifies this, buf
      ensures Valid() && off + n <= buf.Length
      ensures old(pos) == |data| ==> n == 0 && err == Some(EOF) && pos == old(pos)
      ensures old(pos) < |data| ==>
        err.None? && n == Min(buf.Length - off, |data| - old(pos)) && pos == old(pos) + n
      ensures buf[off..off + n] == data[old(pos)..pos]
      ensures buf[..off] == old(buf[..off]) && buf[off + n..] == old(buf[off + n..])
    {
      var b;
      b, err := Read(buf.Length - off);
      n := |b|;
      forall m | 0 <= m < n {
        buf[off + m] := b[m];
      }
    }

    /** io.ReadFull: Read until n bytes have arrived or the stream is done. */
    method ReadFull(n: nat) returns (b: seq<byte>, err: Option<Error>)
      requires Valid()
      modifies this
      ensures Valid()
      ensures (b, pos, err) == ReadFullFrom(data, old(pos), n)
    {
      b := [];
      var start := pos;
      while |b| < n
        invariant Valid() && start <= pos && pos - start == |b| <= n
        invariant b == data[start..pos]
        decreases n - |b|
      {
        var chunk, e := Read(n - |b|);
        if e.Some? {
          if |b| == 0 {
            return b, Some(EOF);
          }
          return b, Some(UnexpectedEOF);
        }
        b := b + chunk;
      }
      err := None;
    }

    /** io.ReadFull(r, buf[:n]): the bytes delivered land at the front of
        buf and nothing else in buf changes. */
    method ReadFullInto(buf: array<byte>, n: nat) returns (k: nat, err: Option<Error>)
      requires Valid() && n <= buf.Length
      modifies this, buf
      ensures Valid()
      ensures var rf := ReadFullFrom(data, old(pos), n);
        && k == |rf.0| && buf[..k] == rf.0 && pos == rf.1 && err == rf.2
      ensures buf[k..] == old(buf[k..])
    {
      var b;
      b, err := ReadFull(n);
      k := |b|;
      forall m | 0 <= m < k {
        buf[m] := b[m];
      }
    }
  }
}
