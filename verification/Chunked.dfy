/** Chunked transfer coding as formChunkedData of respMod_preview.c produces it, and
    a decoder for it after section 7.1 of RFC 9112. */
module Chunked {
  import opened Options
  import opened SystemTypes

  type Bytes = seq<Byte>

  const CRLF: Bytes := [13, 10]
  /** "0\r\n\r\n": the last chunk, with an empty trailer section. */
  const CHUNK_END: Bytes := [48, 13, 10, 13, 10]
  const CHUNK_MAX: nat := 0xFFFF

  const ERR_INVALID_PARAMS: int := -2001
  const ERR_CHUNK_SIZE_EXCEEDED: int := -3005

  // ------------------------------------------------------------------ encoding

  function HexDigit(d: nat): Byte
    requires d < 16
  {
    if d < 10 then 48 + d else 87 + d
  }

  /** The printf conversion %x. */
  function Hex(n: nat): Bytes {
    if n < 16 then [HexDigit(n)] else Hex(n / 16) + [HexDigit(n % 16)]
  }

  function Encode(data: Bytes): Bytes {
    if data == [] then CHUNK_END else Hex(|data|) + CRLF + data + CRLF
  }

  function EncodeAll(pieces: seq<Bytes>): Bytes {
    if pieces == [] then [] else Encode(pieces[0]) + EncodeAll(pieces[1..])
  }

  function Flatten(pieces: seq<Bytes>): Bytes {
    if pieces == [] then [] else pieces[0] + Flatten(pieces[1..])
  }

  // ------------------------------------------------------------------ decoding

  datatype Decoded = Malformed | Decoded(body: Bytes, rest: Bytes)

  /** HEXDIG, in either case; 16 stands for any other character. */
  function HexValue(b: Byte): nat {
    if 48 <= b <= 57 then b - 48
    else if 97 <= b <= 102 then b - 87
    else if 65 <= b <= 70 then b - 55
    else 16
  }

  /** Reads digits as long as there are any. */
  function TakeHex(s: Bytes, acc: nat): (nat, Bytes) {
    if s == [] || HexValue(s[0]) == 16 then (acc, s) else TakeHex(s[1..], 16 * acc + HexValue(s[0]))
  }

  lemma {:induction false} TakeHexShrinks(s: Bytes, acc: nat)
    ensures |TakeHex(s, acc).1| <= |s|
  {
    if s == [] || HexValue(s[0]) == 16 {
    } else {
      TakeHexShrinks(s[1..], 16 * acc + HexValue(s[0]));
    }
  }

  /** A chunked body without chunk extensions and trailer fields: the data of all
      chunks up to the last one, and what follows the body. */
  function Decode(s: Bytes): Decoded
    decreases |s|
  {
    if s == [] || HexValue(s[0]) == 16 then Malformed
    else
      var (size, line) := TakeHex(s, 0);
      TakeHexShrinks(s, 0);
      if |line| < 2 || line[..2] != CRLF then Malformed
      else DecodeData(size, line[2..])
  }

  function DecodeData(size: nat, s: Bytes): Decoded
    decreases |s|
  {
    if |s| < size + 2 || s[size..size + 2] != CRLF then Malformed
    else if size == 0 then Decoded([], s[2..])
    else match Decode(s[size + 2..])
      case Malformed => Malformed
      case Decoded(body, rest) => Decoded(s[..size] + body, rest)
  }

  // ---------------------------------------------------------------- round trip

  predicate AllHex(ds: Bytes) {
    forall i :: 0 <= i < |ds| ==> HexValue(ds[i]) < 16
  }

  function Value(ds: Bytes, acc: nat): nat
    requires AllHex(ds)
  {
    if ds == [] then acc else Value(ds[1..], 16 * acc + HexValue(ds[0]))
  }

  lemma {:induction false} ValueAppend(ds: Bytes, d: Byte, acc: nat)
    requires AllHex(ds) && HexValue(d) < 16
    ensures AllHex(ds + [d]) && Value(ds + [d], acc) == 16 * Value(ds, acc) + HexValue(d)
  {
    if ds == [] {
      assert (ds + [d])[1..] == [];
    } else {
      assert (ds + [d])[1..] == ds[1..] + [d];
      ValueAppend(ds[1..], d, 16 * acc + HexValue(ds[0]));
    }
  }

  /** Printed hexadecimal reads back as the number. */
  lemma {:induction false} HexReadsBack(n: nat)
    ensures Hex(n) != [] && AllHex(Hex(n)) && Value(Hex(n), 0) == n
  {
    if n < 16 {
    } else {
      HexReadsBack(n / 16);
      ValueAppend(Hex(n / 16), HexDigit(n % 16), 0);
    }
  }

  predicate IsLowerHex(b: Byte) {
    48 <= b <= 57 || 97 <= b <= 102
  }

  /** The digits are in lower case and have no leading zero, as %x prints them; with
      HexReadsBack this leaves one possible text for each number. */
  lemma {:induction false} HexIsCanonical(n: nat)
    ensures forall i :: 0 <= i < |Hex(n)| ==> IsLowerHex(Hex(n)[i])
    ensures n > 0 ==> Hex(n)[0] != 48
  {
    if n < 16 {
    } else {
      HexIsCanonical(n / 16);
    }
  }

  function Pow16(k: nat): nat {
    if k == 0 then 1 else 16 * Pow16(k - 1)
  }

  lemma {:induction false} HexLength(n: nat, k: nat)
    requires k >= 1 && n < Pow16(k)
    ensures |Hex(n)| <= k
  {
    if n < 16 {
    } else {
      assert k >= 2;
      HexLength(n / 16, k - 1);
    }
  }

  lemma {:induction false} TakeHexReads(ds: Bytes, rest: Bytes, acc: nat)
    requires AllHex(ds) && rest != [] && HexValue(rest[0]) == 16
    ensures TakeHex(ds + rest, acc) == (Value(ds, acc), rest)
  {
    if ds == [] {
      assert ds + rest == rest;
    } else {
      assert (ds + rest)[1..] == ds[1..] + rest;
      TakeHexReads(ds[1..], rest, 16 * acc + HexValue(ds[0]));
    }
  }

  /** A printed size line is read as that size. */
  lemma DecodeSize(n: nat, rest: Bytes)
    ensures Decode(Hex(n) + (CRLF + rest)) == DecodeData(n, rest)
  {
    var line := CRLF + rest;
    HexReadsBack(n);
    TakeHexReads(Hex(n), line, 0);
    assert (Hex(n) + line)[0] == Hex(n)[0];
    assert line[..2] == CRLF && line[2..] == rest;
  }

  /** The decoding of data followed by a decoded remainder. */
  function Prepend(data: Bytes, d: Decoded): Decoded {
    if d.Malformed? then Malformed else Decoded(data + d.body, d.rest)
  }

  /** A non-empty chunk decodes to its data followed by whatever the rest decodes to. */
  lemma DecodeChunk(data: Bytes, tail: Bytes)
    requires data != []
    ensures Decode(Encode(data) + tail) == Prepend(data, Decode(tail))
  {
    ChunkBytes(data, tail);
    DecodeSize(|data|, data + CRLF + tail);
    Slices(data, CRLF, tail);
  }

  lemma ChunkBytes(data: Bytes, tail: Bytes)
    requires data != []
    ensures Encode(data) + tail == Hex(|data|) + (CRLF + (data + CRLF + tail))
  {
    var hex := Hex(|data|);
    Regroup(hex + CRLF + data, CRLF, tail);
    Regroup(hex + CRLF, data, CRLF + tail);
    Regroup(hex, CRLF, data + (CRLF + tail));
    Regroup(data, CRLF, tail);
  }

  lemma Slices(a: Bytes, b: Bytes, c: Bytes)
    ensures var s := a + b + c;
            s[..|a|] == a && s[|a|..|a| + |b|] == b && s[|a| + |b|..] == c
  {
  }

  lemma Regroup(a: Bytes, b: Bytes, c: Bytes)
    ensures a + b + c == a + (b + c)
  {
  }

  /** A piece is sent as one chunk: the size on its first line is that of the whole piece,
      and the line is followed by the data. */
  lemma OneChunk(data: Bytes)
    requires data != []
    ensures TakeHex(Encode(data), 0) == (|data|, CRLF + (data + CRLF))
  {
    HexReadsBack(|data|);
    Regroup(Hex(|data|) + CRLF, data, CRLF);
    Regroup(Hex(|data|), CRLF, data + CRLF);
    TakeHexReads(Hex(|data|), CRLF + (data + CRLF), 0);
  }

  lemma DecodeEnd(tail: Bytes)
    ensures Decode(CHUNK_END + tail) == Decoded([], tail)
  {
    assert CHUNK_END + tail == Hex(0) + (CRLF + (CRLF + tail));
    DecodeSize(0, CRLF + tail);
  }

  /** The first of several chunks, when the decoding of what follows it is known. */
  lemma ChunkFirst(pieces: seq<Bytes>, tail: Bytes, body: Bytes, rest: Bytes)
    requires pieces != [] && pieces[0] != []
    requires Decode(EncodeAll(pieces[1..]) + tail) == Decoded(body, rest)
    ensures Decode(EncodeAll(pieces) + tail) == Decoded(pieces[0] + body, rest)
  {
    Regroup(Encode(pieces[0]), EncodeAll(pieces[1..]), tail);
    DecodeChunk(pieces[0], EncodeAll(pieces[1..]) + tail);
  }

  /** Chunks of non-empty pieces, closed by the last chunk, decode to the pieces
      joined, whatever follows them on the connection. */
  lemma RoundTrip(pieces: seq<Bytes>, tail: Bytes)
    requires forall i :: 0 <= i < |pieces| ==> pieces[i] != []
    ensures Decode(EncodeAll(pieces) + Encode([]) + tail) == Decoded(Flatten(pieces), tail)
  {
    Regroup(EncodeAll(pieces), Encode([]), tail);
    DecodeEnd(tail);
    ChunksBefore(pieces, CHUNK_END + tail, tail);
  }

  /** Chunks before bytes that end the body. */
  lemma {:induction false} ChunksBefore(pieces: seq<Bytes>, tail: Bytes, rest: Bytes)
    requires forall i :: 0 <= i < |pieces| ==> pieces[i] != []
    requires Decode(tail) == Decoded([], rest)
    ensures Decode(EncodeAll(pieces) + tail) == Decoded(Flatten(pieces), rest)
  {
    if pieces == [] {
      assert EncodeAll(pieces) + tail == tail;
    } else {
      ChunksBefore(pieces[1..], tail, rest);
      ChunkFirst(pieces, tail, Flatten(pieces[1..]), rest);
    }
  }

  /** An empty piece is sent as the last chunk: the decoder stops there and leaves all
      that follows unread. */
  lemma StopsAtEmptyPiece(pieces: seq<Bytes>, k: nat, tail: Bytes)
    requires k < |pieces| && pieces[k] == [] && forall i :: 0 <= i < k ==> pieces[i] != []
    ensures Decode(EncodeAll(pieces) + tail) == Decoded(Flatten(pieces[..k]), EncodeAll(pieces[k + 1..]) + tail)
  {
    var more := EncodeAll(pieces[k + 1..]) + tail;
    DecodeEnd(more);
    ChunksBefore(pieces[..k], CHUNK_END + more, more);
    SplitAtEmpty(pieces, k, tail);
  }

  lemma {:induction false} SplitAtEmpty(pieces: seq<Bytes>, k: nat, tail: Bytes)
    requires k < |pieces| && pieces[k] == []
    ensures EncodeAll(pieces) + tail == EncodeAll(pieces[..k]) + (CHUNK_END + (EncodeAll(pieces[k + 1..]) + tail))
  {
    if k == 0 {
      assert EncodeAll(pieces[..0]) == [];
      Regroup(CHUNK_END, EncodeAll(pieces[1..]), tail);
    } else {
      SplitAtEmpty(pieces[1..], k - 1, tail);
      var end := CHUNK_END + (EncodeAll(pieces[k + 1..]) + tail);
      assert pieces[1..][k..] == pieces[k + 1..] && pieces[..k][1..] == pieces[1..][..k - 1];
      Regroup(Encode(pieces[0]), EncodeAll(pieces[1..]), tail);
      Regroup(Encode(pieces[0]), EncodeAll(pieces[1..][..k - 1]), end);
    }
  }

  /** Exactly the lists without an empty piece survive the trip in one body. */
  lemma RoundTripIff(pieces: seq<Bytes>)
    ensures Decode(EncodeAll(pieces) + Encode([])) == Decoded(Flatten(pieces), [])
       <==> forall i :: 0 <= i < |pieces| ==> pieces[i] != []
  {
    if forall i :: 0 <= i < |pieces| ==> pieces[i] != [] {
      RoundTrip(pieces, []);
      assert EncodeAll(pieces) + Encode([]) + [] == EncodeAll(pieces) + Encode([]);
    } else {
      var k := FirstEmpty(pieces);
      StopsAtEmptyPiece(pieces, k, Encode([]));
    }
  }

  lemma {:induction false} FirstEmpty(pieces: seq<Bytes>) returns (k: nat)
    requires exists i :: 0 <= i < |pieces| && pieces[i] == []
    ensures k < |pieces| && pieces[k] == [] && forall i :: 0 <= i < k ==> pieces[i] != []
  {
    if pieces[0] == [] {
      k := 0;
    } else {
      var i :| 0 <= i < |pieces| && pieces[i] == [];
      assert pieces[1..][i - 1] == [];
      var j := FirstEmpty(pieces[1..]);
      k := j + 1;
    }
  }

  // ------------------------------------------------------------- the C function

  /** sprintf at an offset: the text and its terminating NUL. */
  method PrintAt(out: array<Byte>, offset: nat, text: Bytes) returns (n: nat)
    requires offset + |text| < out.Length
    modifies out
    ensures n == |text| && out[..offset] == old(out[..offset])
    ensures out[offset..offset + n] == text && out[offset + n] == 0
  {
    n := 0;
    while n < |text|
      invariant 0 <= n <= |text| && out[..offset] == old(out[..offset])
      invariant out[offset..offset + n] == text[..n]
    {
      out[offset + n] := text[n];
      n := n + 1;
    }
    out[offset + n] := 0;
  }

  method CopyAt(out: array<Byte>, offset: nat, buf: array<Byte>, n: nat)
    requires out != buf && n <= buf.Length && offset + n <= out.Length
    modifies out
    ensures out[..offset] == old(out[..offset]) && out[offset..offset + n] == buf[..n]
  {
    var i := 0;
    while i < n
      invariant 0 <= i <= n && out[..offset] == old(out[..offset])
      invariant out[offset..offset + i] == buf[..i]
    {
      out[offset + i] := buf[i];
      i := i + 1;
    }
  }

  /** What a call is asked to send: NULL or a length below one means nothing. */
  ghost function Requested(buf: array?<Byte>, bufLen: int): Bytes
    requires buf != null ==> bufLen <= buf.Length
    reads buf
  {
    if buf == null || bufLen < 1 then [] else buf[..bufLen]
  }

  /** formChunkedData: the encoded chunk, closed by a NUL, inside the allocation. When
      strdup is refused the result is still 0, with NULL for the last chunk's five bytes;
      when calloc is, the program writes through NULL, which is the result None here. */
  method FormChunkedData(buf: array?<Byte>, bufLen: int, outParams: bool, granted: bool)
    returns (ret: Option<int>, out: array?<Byte>, chunkLen: int)
    requires buf != null && bufLen <= CHUNK_MAX ==> bufLen <= buf.Length
    ensures !outParams ==> ret == Some(ERR_INVALID_PARAMS)
    ensures outParams && bufLen > CHUNK_MAX ==> ret == Some(ERR_CHUNK_SIZE_EXCEEDED)
    ensures ret == None <==> outParams && !granted && buf != null && 1 <= bufLen <= CHUNK_MAX
    ensures outParams && !granted && (bufLen < 1 || (buf == null && bufLen <= CHUNK_MAX)) ==>
              ret == Some(0) && out == null && chunkLen == 5
    ensures outParams && granted && bufLen <= CHUNK_MAX ==>
              && ret == Some(0) && out != null && fresh(out)
              && 0 <= chunkLen < out.Length && out[chunkLen] == 0
              && out[..chunkLen] == Encode(Requested(buf, bufLen))
  {
    out, chunkLen := null, 0;
    if !outParams {
      return Some(ERR_INVALID_PARAMS), out, chunkLen;
    }
    if bufLen > CHUNK_MAX {
      return Some(ERR_CHUNK_SIZE_EXCEEDED), out, chunkLen;
    }
    if buf == null || bufLen < 1 {
      chunkLen := |CHUNK_END|;
      if granted {
        out := new Byte[|CHUNK_END| + 1];
        chunkLen := PrintAt(out, 0, CHUNK_END);
      }
      return Some(0), out, chunkLen;
    }
    if !granted {
      return None, out, chunkLen;
    }
    assert Pow16(4) == 0x10000;
    HexLength(bufLen, 4);
    var chunk := new Byte[4 + 2 + bufLen + 2 + 4];
    ghost var text := Hex(bufLen) + CRLF;
    var offset := PrintAt(chunk, 0, Hex(bufLen) + CRLF);
    CopyAt(chunk, offset, buf, bufLen);
    ghost var data := buf[..bufLen];
    assert chunk[..offset + bufLen] == text + data;
    offset := offset + bufLen;
    var n := PrintAt(chunk, offset, CRLF);
    offset := offset + n;
    assert chunk[..offset] == text + data + CRLF;
    return Some(0), chunk, offset;
  }
}
