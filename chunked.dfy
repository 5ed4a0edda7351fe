/** The chunked transfer coding of section 7.1 of RFC 9112 (section 4.1 of RFC 7230), as the
    `chunkfile` writer of mds2 produces it: each chunk is its length in upper-case hex, CRLF,
    the data and CRLF, and the body ends with the last chunk `0` and an empty trailer. A
    decoder for the same coding is the encoder's partner. */
module Chunked {
  import opened Wrappers

  // ---------------------------------------------------------------------------
  // Hexadecimal chunk sizes
  // ---------------------------------------------------------------------------

  predicate IsHexDigit(c: char)
  {
    ('0' <= c <= '9') || ('A' <= c <= 'F') || ('a' <= c <= 'f')
  }

  predicate AllHex(s: string)
  {
    forall i :: 0 <= i < |s| ==> IsHexDigit(s[i])
  }

  function HexDigit(d: nat): (c: char)
    requires d < 16
    ensures IsHexDigit(c) && ('a' <= c <= 'z' ==> false)
  {
    if d < 10 then (48 + d) as char else (55 + d) as char
  }

  function HexDigitValue(c: char): (d: nat)
    requires IsHexDigit(c)
    ensures d < 16
  {
    if '0' <= c <= '9' then c as int - 48
    else if 'A' <= c <= 'F' then c as int - 55
    else c as int - 87
  }

  /** `'%X' % n`: upper-case hex without leading zeros. */
  function Hex(n: nat): string
    decreases n
  {
    if n < 16 then [HexDigit(n)] else Hex(n / 16) + [HexDigit(n % 16)]
  }

  /** The value of a run of hex digits, most significant first. */
  function HexValue(h: string): nat
    requires AllHex(h)
  {
    if |h| == 0 then 0 else 16 * HexValue(h[..|h| - 1]) + HexDigitValue(h[|h| - 1])
  }

  /** The size line is hex digits only, at least one, with no leading zero unless the size is
      zero, and reads back as the size. */
  lemma {:induction false} HexReadsBack(n: nat)
    ensures AllHex(Hex(n)) && |Hex(n)| >= 1
    ensures Hex(n)[0] == '0' <==> n == 0
    ensures HexValue(Hex(n)) == n
    ensures forall i :: 0 <= i < |Hex(n)| ==> !('a' <= Hex(n)[i] <= 'f')
    decreases n
  {
    if n >= 16 {
      HexReadsBack(n / 16);
      var h := Hex(n);
      assert h[..|h| - 1] == Hex(n / 16);
      assert HexDigitValue(HexDigit(n % 16)) == n % 16;
    } else {
      assert HexDigitValue(HexDigit(n)) == n;
    }
  }

  /** The number of hex digits `s` starts with. */
  function HexRun(s: string): (k: nat)
    ensures k <= |s| && AllHex(s[..k])
    ensures k < |s| ==> !IsHexDigit(s[k])
  {
    if |s| == 0 || !IsHexDigit(s[0]) then 0
    else
      var k := 1 + HexRun(s[1..]);
      assert s[..k] == [s[0]] + s[1..][..k - 1];
      k
  }

  lemma {:induction false} HexRunOf(h: string, rest: string)
    requires AllHex(h)
    requires |rest| > 0 && !IsHexDigit(rest[0])
    ensures HexRun(h + rest) == |h|
    ensures (h + rest)[..|h|] == h && (h + rest)[|h|..] == rest
  {
    if |h| > 0 {
      assert (h + rest)[1..] == h[1..] + rest;
      HexRunOf(h[1..], rest);
    }
  }

  // ---------------------------------------------------------------------------
  // Encoding
  // ---------------------------------------------------------------------------

  const CRLF: string := "\r\n"
  const LastChunk: string := "0\r\n\r\n"

  /** What `source.read(n)` returns at each call of `chunk_generator` until it returns the
      empty string: the whole rest for a negative `n`, nothing at all for `n == 0`. */
  function Chunks(s: string, n: int): seq<string>
    decreases |s|
  {
    if n == 0 || |s| == 0 then []
    else if n < 0 || |s| <= n then [s]
    else [s[..n]] + Chunks(s[n..], n)
  }

  function EncodeChunk(c: string): string
  {
    Hex(|c|) + CRLF + c + CRLF
  }

  function Encode(cs: seq<string>): string
  {
    if |cs| == 0 then LastChunk else EncodeChunk(cs[0]) + Encode(cs[1..])
  }

  function Concat(cs: seq<string>): string
  {
    if |cs| == 0 then "" else cs[0] + Concat(cs[1..])
  }

  /** Every chunk is non-empty and at most `n` long, all but the last exactly `n`; together
      they are the source, unless `n` is zero, which reads nothing. */
  lemma {:induction false} ChunksCover(s: string, n: int)
    ensures n != 0 ==> Concat(Chunks(s, n)) == s
    ensures n == 0 ==> Chunks(s, n) == []
    ensures forall i :: 0 <= i < |Chunks(s, n)| ==> |Chunks(s, n)[i]| > 0
    ensures n > 0 ==> forall i :: 0 <= i < |Chunks(s, n)| ==> |Chunks(s, n)[i]| <= n
    ensures n > 0 ==> forall i :: 0 <= i < |Chunks(s, n)| - 1 ==> |Chunks(s, n)[i]| == n
    decreases |s|
  {
    if n > 0 && |s| > n {
      ChunksCover(s[n..], n);
      var cs := Chunks(s, n);
      assert cs[1..] == Chunks(s[n..], n);
      assert s == s[..n] + s[n..];
    }
  }

  /** `source.read(n)` on what is left of the source. */
  function Read(rest: string, n: int): (data: string)
    ensures |data| <= |rest|
  {
    if n < 0 || |rest| <= n then rest else rest[..n]
  }

  /** A non-empty read at `pos` is the next chunk, and the chunks after it are those of what
      follows it. */
  lemma ReadIsNextChunk(source: string, pos: nat, n: int)
    requires pos <= |source| && Read(source[pos..], n) != ""
    ensures var data := Read(source[pos..], n);
      pos + |data| <= |source| && Chunks(source[pos..], n) == [data] + Chunks(source[pos + |data|..], n)
  {
    var rest := source[pos..];
    if n > 0 && |rest| > n {
      assert rest[n..] == source[pos + n..];
    } else {
      assert source[pos + |rest|..] == "";
    }
  }

  /** Taking the next read keeps "chunks so far, then the chunks of the rest" equal to all
      chunks. */
  lemma NextChunk(source: string, pos: nat, n: int, chunks: seq<string>, all: seq<string>)
    requires pos <= |source| && Read(source[pos..], n) != ""
    requires chunks + Chunks(source[pos..], n) == all
    ensures pos + |Read(source[pos..], n)| <= |source|
    ensures (chunks + [Read(source[pos..], n)]) + Chunks(source[pos + |Read(source[pos..], n)|..], n) == all
  {
    ReadIsNextChunk(source, pos, n);
    var data := Read(source[pos..], n);
    var later := Chunks(source[pos + |data|..], n);
    assert chunks + ([data] + later) == (chunks + [data]) + later;
  }

  /** An empty read ends the chunk generator. */
  lemma LastRead(source: string, pos: nat, n: int, chunks: seq<string>, all: seq<string>)
    requires pos <= |source| && Read(source[pos..], n) == ""
    requires chunks + Chunks(source[pos..], n) == all
    ensures chunks == all
  {
    assert Chunks(source[pos..], n) == [];
    assert chunks + [] == chunks;
  }

  /** `chunk_generator(source, chunksize)`: read until a read comes back empty. */
  method ChunkGenerator(source: string, chunksize: int) returns (chunks: seq<string>)
    ensures chunks == Chunks(source, chunksize)
  {
    ghost var all := Chunks(source, chunksize);
    chunks := [];
    var pos := 0;
    assert source[pos..] == source;
    while true
      invariant 0 <= pos <= |source|
      invariant chunks + Chunks(source[pos..], chunksize) == all
      decreases |source| - pos
    {
      var data := Read(source[pos..], chunksize);
      if data == "" {
        LastRead(source, pos, chunksize, chunks, all);
        break;
      }
      NextChunk(source, pos, chunksize, chunks, all);
      chunks := chunks + [data];
      pos := pos + |data|;
    }
  }

  /** Writing chunk `i` keeps "written so far, then the encoding of the chunks left" equal. */
  lemma EncodeStep(chunks: seq<string>, i: nat, prior: string, out: string)
    requires i < |chunks| && out == prior + EncodeChunk(chunks[i])
    ensures out + Encode(chunks[i + 1..]) == prior + Encode(chunks[i..])
  {
    assert chunks[i..][1..] == chunks[i + 1..];
  }

  /** The three writes of one chunk to the output. */
  method WriteChunk(out: string, data: string) returns (out': string)
    ensures out' == out + EncodeChunk(data)
  {
    out' := out + Hex(|data|) + CRLF;
    out' := out' + data;
    out' := out' + CRLF;
  }

  /** `chunkfile(source, outputfile, chunksize)`: write each chunk the generator yields, then
      the last chunk. */
  method ChunkFile(source: string, chunksize: int) returns (out: string)
    ensures out == Encode(Chunks(source, chunksize))
  {
    var chunks := ChunkGenerator(source, chunksize);
    out := "";
    assert chunks[0..] == chunks;
    for i := 0 to |chunks|
      invariant out + Encode(chunks[i..]) == Encode(chunks)
    {
      ghost var prior := out;
      out := WriteChunk(out, chunks[i]);
      EncodeStep(chunks, i, prior, out);
    }
    assert chunks[|chunks|..] == [];
    out := out + LastChunk;
  }

  // ---------------------------------------------------------------------------
  // Decoding
  // ---------------------------------------------------------------------------

  /** Reads a chunked body as a recipient does: a hex size line, that many bytes and CRLF,
      repeated until the size zero is followed by the final CRLF. Anything else, trailing
      bytes included, is malformed. */
  function Decode(body: string): Option<string>
    decreases |body|
  {
    var k := HexRun(body);
    if k == 0 || |body| < k + 2 || body[k..k + 2] != CRLF then None
    else
      var size := HexValue(body[..k]);
      var rest := body[k + 2..];
      if size == 0 then (if rest == CRLF then Some("") else None)
      else if |rest| < size + 2 || rest[size..size + 2] != CRLF then None
      else
        match Decode(rest[size + 2..])
        case None => None
        case Some(tail) => Some(rest[..size] + tail)
  }

  lemma DecodeOne(c: string, more: string)
    requires |c| > 0
    ensures Decode(EncodeChunk(c) + more) == match Decode(more) case None => None case Some(t) => Some(c + t)
  {
    var h := Hex(|c|);
    var after := CRLF + c + CRLF + more;
    HexReadsBack(|c|);
    EncodeChunkSplit(c, more);
    HexRunOf(h, after);
    DecodeChunkAt(h + after, |h|, c, more);
  }

  lemma EncodeChunkSplit(c: string, more: string)
    ensures EncodeChunk(c) + more == Hex(|c|) + (CRLF + c + CRLF + more)
  {
    Regroup(Hex(|c|), CRLF, c, more);
  }

  lemma Regroup(h: string, sep: string, c: string, more: string)
    ensures h + sep + c + sep + more == h + (sep + c + sep + more)
  {
  }

  /** A size line of `k` hex digits naming `|c|`, then CRLF, `c`, CRLF: the chunk `c` is read
      and decoding goes on with what follows. */
  lemma DecodeChunkAt(body: string, k: nat, c: string, more: string)
    requires 0 < k <= |body| && HexRun(body) == k && HexValue(body[..k]) == |c| > 0
    requires body[k..] == CRLF + c + CRLF + more
    ensures Decode(body) == match Decode(more) case None => None case Some(t) => Some(c + t)
  {
    Delimited(body, k, CRLF, c, more);
  }

  /** The pieces of `sep + c + sep + more` read back at index `k` of `body`. */
  lemma Delimited(body: string, k: nat, sep: string, c: string, more: string)
    requires k <= |body| && |sep| == 2 && body[k..] == sep + c + sep + more
    ensures |body| >= k + 2 && body[k..k + 2] == sep
    ensures var rest := body[k + 2..];
      && |rest| >= |c| + 2 && rest[..|c|] == c && rest[|c|..|c| + 2] == sep && rest[|c| + 2..] == more
  {
    var rest := body[k + 2..];
    assert body[k..k + 2] == body[k..][..2];
    assert rest == body[k..][2..];
    assert rest == c + sep + more;
    assert rest[..|c|] == c;
    assert rest[|c|..|c| + 2] == sep;
    assert rest[|c| + 2..] == more;
  }

  lemma DecodeLast()
    ensures Decode(LastChunk) == Some("")
  {
    var body := LastChunk;
    assert HexRun(body[1..]) == 0;
    assert HexRun(body) == 1;
    assert body[..1] == "0";
    assert HexValue("0") == 0 by {
      assert "0"[..0] == "";
    }
  }

  lemma {:induction false} DecodeEncode(cs: seq<string>)
    requires forall i :: 0 <= i < |cs| ==> |cs[i]| > 0
    ensures Decode(Encode(cs)) == Some(Concat(cs))
  {
    if |cs| == 0 {
      DecodeLast();
    } else {
      DecodeEncode(cs[1..]);
      DecodeOne(cs[0], Encode(cs[1..]));
    }
  }

  /** A recipient decoding what `chunkfile` wrote gets the source back; a zero chunk size
      writes the last chunk only. */
  lemma ChunkFileRoundTrip(source: string, chunksize: int)
    ensures chunksize != 0 ==> Decode(Encode(Chunks(source, chunksize))) == Some(source)
    ensures chunksize == 0 ==> Encode(Chunks(source, chunksize)) == LastChunk
  {
    ChunksCover(source, chunksize);
    DecodeEncode(Chunks(source, chunksize));
  }

  /** Whatever the chunks, the encoding ends with the zero-size last chunk. */
  lemma {:induction false} EncodeEndsWithLastChunk(cs: seq<string>)
    ensures |Encode(cs)| >= |LastChunk| && Encode(cs)[|Encode(cs)| - |LastChunk|..] == LastChunk
  {
    if |cs| > 0 {
      EncodeEndsWithLastChunk(cs[1..]);
      var e := Encode(cs[1..]);
      assert Encode(cs) == EncodeChunk(cs[0]) + e;
      assert Encode(cs)[|Encode(cs)| - |LastChunk|..] == e[|e| - |LastChunk|..];
    }
  }
}
