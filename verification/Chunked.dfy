/**
 Chunked transfer coding (`decode_chunked`), section 7.1 of RFC 9112.
 */
module Chunked {
  import opened Prelude
  import opened Text

  const CRLF := "\r\n"

  // ----- searching ------------------------------------------------------------

  predicate CrlfAt(s: string, i: nat)
  {
    i + 2 <= |s| && s[i] == '\r' && s[i + 1] == '\n'
  }

  /** The first CRLF from `i` on. */
  function LineEnd(s: string, i: nat): (r: Option<nat>)
    ensures r.Some? ==> i <= r.value && r.value + 2 <= |s|
    decreases |s| - i
  {
    if i >= |s| then None else if CrlfAt(s, i) then Some(i) else LineEnd(s, i + 1)
  }

  lemma {:induction false} LineEndFirst(s: string, i: nat)
    ensures var r := LineEnd(s, i);
            && (r.Some? ==> CrlfAt(s, r.value))
            && forall j :: i <= j < (if r.Some? then r.value else |s|) ==> !CrlfAt(s, j)
    decreases |s| - i
  {
    if i < |s| && !CrlfAt(s, i) {
      LineEndFirst(s, i + 1);
    }
  }

  lemma LineEndIs(s: string, i: nat, e: nat)
    requires i <= e && CrlfAt(s, e) && forall j :: i <= j < e ==> !CrlfAt(s, j)
    ensures LineEnd(s, i) == Some(e)
  {
    LineEndFirst(s, i);
  }

  /** A first CRLF stays the first when bytes are appended. */
  lemma LineEndStable(s: string, i: nat, x: string)
    requires LineEnd(s, i).Some?
    ensures LineEnd(s + x, i) == LineEnd(s, i)
  {
    LineEndFirst(s, i);
    var e := LineEnd(s, i).value;
    assert forall j :: i <= j <= e ==> CrlfAt(s + x, j) == CrlfAt(s, j);
    LineEndIs(s + x, i, e);
  }

  /** `line` ends at the first CRLF when it holds no CR itself. */
  lemma LineEndAfter(line: string, x: string)
    requires '\r' !in line
    ensures LineEnd(line + CRLF + x, 0) == Some(|line|)
  {
    var s := line + CRLF + x;
    assert forall j :: 0 <= j < |line| ==> s[j] == line[j];
    assert s[|line|] == '\r' && s[|line| + 1] == '\n';
    LineEndIs(s, 0, |line|);
  }

  /** Bytes in front only move the positions. */
  lemma LineEndShift(a: string, b: string, k: nat)
    ensures LineEnd(a + b, |a| + k) == match LineEnd(b, k) case None => None case Some(e) => Some(|a| + e)
  {
    LineEndFirst(b, k);
    LineEndFirst(a + b, |a| + k);
    CrlfShift(a, b);
    if LineEnd(b, k).Some? {
      LineEndIs(a + b, |a| + k, |a| + LineEnd(b, k).value);
    }
  }

  lemma CrlfShift(a: string, b: string)
    ensures forall j :: |a| <= j ==> CrlfAt(a + b, j) == CrlfAt(b, j - |a|)
  {
  }

  // ----- hexadecimal --------------------------------------------------------------

  function HexValue(s: string): (v: Option<nat>)
  {
    if s == "" then Some(0)
    else
      match (HexValue(s[..|s| - 1]), HexDigit(s[|s| - 1]))
      case (Some(high), Some(low)) => Some(high * 16 + low)
      case _ => None
  }

  /** `usize::from_str_radix(s, 16)`. */
  function ParseHex(s: string): (v: Option<nat>)
  {
    var digits := if s != "" && s[0] == '+' then s[1..] else s;
    if digits == "" then None
    else
      match HexValue(digits)
      case None => None
      case Some(n) => if n < USIZE_LIMIT then Some(n) else None
  }

  function HexText(n: nat): (s: string)
    ensures s != ""
  {
    if n < 16 then ["0123456789abcdef"[n]] else HexText(n / 16) + ["0123456789abcdef"[n % 16]]
  }

  lemma HexDigitOf(d: nat)
    requires d < 16
    ensures HexDigit("0123456789abcdef"[d]) == Some(d)
  {
    var s := "0123456789abcdef";
    assert s[0] == '0' && s[1] == '1' && s[2] == '2' && s[3] == '3' && s[4] == '4' && s[5] == '5' && s[6] == '6' && s[7] == '7';
    assert s[8] == '8' && s[9] == '9' && s[10] == 'a' && s[11] == 'b' && s[12] == 'c' && s[13] == 'd' && s[14] == 'e' && s[15] == 'f';
  }

  lemma HexAppend(head: string, c: char, high: nat, low: nat)
    requires HexValue(head) == Some(high) && HexDigit(c) == Some(low)
    ensures HexValue(head + [c]) == Some(high * 16 + low)
  {
    var s := head + [c];
    assert s[..|s| - 1] == head;
  }

  lemma {:induction false} HexRoundTrip(n: nat)
    ensures HexValue(HexText(n)) == Some(n)
  {
    HexDigitOf(n % 16);
    var c := "0123456789abcdef"[n % 16];
    if n < 16 {
      HexAppend("", c, 0, n);
      assert "" + [c] == [c];
    } else {
      HexRoundTrip(n / 16);
      HexAppend(HexText(n / 16), c, n / 16, n % 16);
    }
  }

  /** Every byte of a number is a hexadecimal digit. */
  lemma {:induction false} HexBytes(s: string, i: nat)
    requires HexValue(s).Some? && i < |s|
    ensures HexDigit(s[i]).Some?
  {
    if i < |s| - 1 {
      HexBytes(s[..|s| - 1], i);
    }
  }

  // ----- decoding -----------------------------------------------------------------

  /**
   `Overflow` is not an error value: the build checks overflow, and the process ends when
   the end of a chunk exceeds a machine word.
   */
  datatype DecodeError = TruncatedSize | BadSize | Overflow | TruncatedData | MissingCrlf

  /** How a size line is read. The framing below is proved for any such reading. */
  type SizeReader = string -> Option<nat>

  function Prepend(data: string, r: Result<string, DecodeError>): (r': Result<string, DecodeError>)
  {
    match r
    case Err(e) => Err(e)
    case Ok(more) => Ok(data + more)
  }

  lemma PrependNothing(r: Result<string, DecodeError>)
    ensures Prepend("", r) == r
  {
    if r.Ok? { assert "" + r.value == r.value; }
  }

  lemma PrependTwice(a: string, b: string, r: Result<string, DecodeError>)
    ensures Prepend(a, Prepend(b, r)) == Prepend(a + b, r)
  {
    if r.Ok? { Assoc(a, b, r.value); }
  }

  /** The chunk that starts at a position: the last one, or where its data is. */
  datatype Spot = End | Span(from: nat, to: nat)

  function SpotAt(sz: SizeReader, body: string, pos: nat): (r: Result<Spot, DecodeError>)
    ensures r.Ok? && r.value.Span? ==> pos < r.value.from <= r.value.to && r.value.to + 2 <= |body|
  {
    match LineEnd(body, pos)
    case None => Err(TruncatedSize)
    case Some(nl) =>
      match sz(body[pos..nl])
      case None => Err(BadSize)
      case Some(size) => SpanAfter(body, nl + 2, size)
  }

  /** The `size` bytes after a size line, and the CRLF that closes them. */
  function SpanAfter(body: string, from: nat, size: nat): (r: Result<Spot, DecodeError>)
  {
    if size == 0 then Ok(End)
    else if from + size + 2 >= USIZE_LIMIT then Err(Overflow)
    else if from + size + 2 > |body| then Err(TruncatedData)
    else if !CrlfAt(body, from + size) then Err(MissingCrlf)
    else Ok(Span(from, from + size))
  }

  /** The data of the chunks from `pos` on. */
  function DecodeFrom(sz: SizeReader, body: string, pos: nat): (r: Result<string, DecodeError>)
    decreases |body| - pos
  {
    match SpotAt(sz, body, pos)
    case Err(e) => Err(e)
    case Ok(End) => Ok("")
    case Ok(Span(from, to)) => Prepend(body[from..to], DecodeFrom(sz, body, to + 2))
  }

  lemma DecodeSpan(sz: SizeReader, body: string, pos: nat, from: nat, to: nat, out: string)
    requires SpotAt(sz, body, pos) == Ok(Span(from, to))
    ensures from <= to && to + 2 <= |body|
    ensures Prepend(out, DecodeFrom(sz, body, pos)) == Prepend(out + body[from..to], DecodeFrom(sz, body, to + 2))
  {
    PrependTwice(out, body[from..to], DecodeFrom(sz, body, to + 2));
  }

  lemma DecodeStops(sz: SizeReader, body: string, pos: nat, out: string)
    ensures SpotAt(sz, body, pos) == Ok(End) ==> Prepend(out, DecodeFrom(sz, body, pos)) == Ok(out)
    ensures SpotAt(sz, body, pos).Err? ==> Prepend(out, DecodeFrom(sz, body, pos)) == Err(SpotAt(sz, body, pos).error)
  {
    assert out + "" == out;
  }

  /** The decoder as written: one pass with a position and an output buffer. */
  method DecodeFramed(sz: SizeReader, body: string) returns (r: Result<string, DecodeError>)
    ensures r == DecodeFrom(sz, body, 0)
  {
    var pos := 0;
    var out := "";
    ghost var all := DecodeFrom(sz, body, 0);
    PrependNothing(all);
    while true
      invariant 0 <= pos <= |body|
      invariant all == Prepend(out, DecodeFrom(sz, body, pos))
      decreases |body| - pos
    {
      DecodeStops(sz, body, pos, out);
      var newline := LineEnd(body, pos);
      if newline.None? {
        return Err(TruncatedSize);
      }
      var nl := newline.value;
      var line := sz(body[pos..nl]);
      if line.None? {
        return Err(BadSize);
      }
      var size := line.value;
      if size == 0 {
        return Ok(out);
      }
      if nl + 2 + size + 2 >= USIZE_LIMIT {
        return Err(Overflow);
      }
      if nl + 2 + size + 2 > |body| {
        return Err(TruncatedData);
      }
      if !CrlfAt(body, nl + 2 + size) {
        return Err(MissingCrlf);
      }
      DecodeSpan(sz, body, pos, nl + 2, nl + 2 + size, out);
      out := out + body[nl + 2..nl + 2 + size];
      pos := nl + 2 + size + 2;
    }
  }

  // ----- appending and shifting ------------------------------------------------------

  /** Decided for good: more bytes cannot change it. */
  predicate Settled<T(==)>(r: Result<T, DecodeError>)
  {
    r.Ok? || r == Err(Overflow)
  }

  lemma SpanStable(body: string, x: string, from: nat, size: nat)
    requires Settled(SpanAfter(body, from, size))
    ensures SpanAfter(body + x, from, size) == SpanAfter(body, from, size)
  {
  }

  lemma SpotStable(sz: SizeReader, body: string, x: string, pos: nat)
    requires Settled(SpotAt(sz, body, pos))
    ensures SpotAt(sz, body + x, pos) == SpotAt(sz, body, pos)
  {
    LineEndStable(body, pos, x);
    var nl := LineEnd(body, pos).value;
    assert (body + x)[pos..nl] == body[pos..nl];
    SpanStable(body, x, nl + 2, sz(body[pos..nl]).value);
  }

  /** The same spot with the same data gives the same result, once the rest does. */
  lemma SameSpan(sz: SizeReader, b: string, i: nat, b': string, i': nat, from: nat, to: nat, from': nat, to': nat)
    requires SpotAt(sz, b, i) == Ok(Span(from, to)) && SpotAt(sz, b', i') == Ok(Span(from', to'))
    requires b[from..to] == b'[from'..to'] && DecodeFrom(sz, b, to + 2) == DecodeFrom(sz, b', to' + 2)
    ensures DecodeFrom(sz, b, i) == DecodeFrom(sz, b', i')
  {
  }

  lemma SliceStable(body: string, x: string, from: nat, to: nat)
    requires from <= to <= |body|
    ensures (body + x)[from..to] == body[from..to]
  {
  }

  lemma {:induction false} DecodeFromStable(sz: SizeReader, body: string, x: string, pos: nat)
    requires Settled(DecodeFrom(sz, body, pos))
    ensures DecodeFrom(sz, body + x, pos) == DecodeFrom(sz, body, pos)
    decreases |body| - pos
  {
    SpotStable(sz, body, x, pos);
    if SpotAt(sz, body, pos).Ok? && SpotAt(sz, body, pos).value.Span? {
      var spot := SpotAt(sz, body, pos).value;
      DecodeFromStable(sz, body, x, spot.to + 2);
      SliceStable(body, x, spot.from, spot.to);
      SameSpan(sz, body + x, pos, body, pos, spot.from, spot.to, spot.from, spot.to);
    }
  }

  lemma {:induction false} DecodeFromNotLonger(sz: SizeReader, body: string, pos: nat)
    requires DecodeFrom(sz, body, pos).Ok? && pos <= |body|
    ensures |DecodeFrom(sz, body, pos).value| <= |body| - pos
    decreases |body| - pos
  {
    var spot := SpotAt(sz, body, pos).value;
    if spot.Span? {
      DecodeFromNotLonger(sz, body, spot.to + 2);
    }
  }

  function Shifted(r: Result<Spot, DecodeError>, n: nat): Result<Spot, DecodeError>
  {
    match r
    case Ok(Span(from, to)) => Ok(Span(n + from, n + to))
    case _ => r
  }

  lemma SpotShift(sz: SizeReader, a: string, b: string, k: nat)
    requires SpotAt(sz, b, k).Ok? && |a + b| < USIZE_LIMIT
    ensures SpotAt(sz, a + b, |a| + k) == Shifted(SpotAt(sz, b, k), |a|)
  {
    LineEndShift(a, b, k);
    var nl := LineEnd(b, k).value;
    assert (a + b)[|a| + k..|a| + nl] == b[k..nl];
    CrlfShift(a, b);
  }

  lemma SliceShift(a: string, b: string, from: nat, to: nat)
    requires from <= to <= |b|
    ensures (a + b)[|a| + from..|a| + to] == b[from..to]
  {
  }

  lemma {:induction false} DecodeShift(sz: SizeReader, a: string, b: string, k: nat)
    requires DecodeFrom(sz, b, k).Ok? && |a + b| < USIZE_LIMIT
    ensures DecodeFrom(sz, a + b, |a| + k) == DecodeFrom(sz, b, k)
    decreases |b| - k
  {
    SpotShift(sz, a, b, k);
    var spot := SpotAt(sz, b, k).value;
    if spot.Span? {
      var from, to := spot.from, spot.to;
      DecodeShift(sz, a, b, to + 2);
      SliceShift(a, b, from, to);
      SameSpan(sz, a + b, |a| + k, b, k, |a| + from, |a| + to, from, to);
    }
  }

  // ----- the size line ----------------------------------------------------------

  /** Size announced by a chunk-size line, extensions ignored. */
  function LineSize(line: string): (n: Option<nat>)
  {
    var field := line[..IndexOf(line, ';')];
    if !IsUtf8(field) then None else ParseHex(Trim(field))
  }

  function Decode(body: string): (r: Result<string, DecodeError>)
  {
    DecodeFrom(LineSize, body, 0)
  }

  /** `decode_chunked`. */
  method DecodeChunked(body: string) returns (r: Result<string, DecodeError>)
    ensures r == Decode(body)
  {
    r := DecodeFramed(LineSize, body);
  }

  /** A successful decode, or an overflow, does not change when bytes are appended. */
  lemma DecodeStable(body: string, x: string)
    requires Settled(Decode(body))
    ensures Decode(body + x) == Decode(body)
  {
    DecodeFromStable(LineSize, body, x, 0);
  }

  /** Decoding never makes the body longer. */
  lemma DecodeNotLonger(body: string)
    requires Decode(body).Ok?
    ensures |Decode(body).value| <= |body|
  {
    DecodeFromNotLonger(LineSize, body, 0);
  }

  // ----- encoding ------------------------------------------------------------------

  /** One chunk: any spelling of its size, an optional extension, its data. */
  datatype Chunk = Chunk(size: string, ext: string, data: string)

  /** A size line for `n` bytes: hexadecimal digits, then nothing or `;` and text without CR. */
  ghost predicate SizeLine(size: string, ext: string, n: nat)
  {
    && size != "" && HexValue(size) == Some(n) && n < USIZE_LIMIT
    && (ext == "" || (ext[0] == ';' && '\r' !in ext))
  }

  ghost predicate ValidChunk(c: Chunk)
  {
    c.data != "" && SizeLine(c.size, c.ext, |c.data|)
  }

  function EncodeChunk(c: Chunk): (s: string)
  {
    c.size + c.ext + CRLF + c.data + CRLF
  }

  function EncodeChunks(chunks: seq<Chunk>): (s: string)
  {
    if chunks == [] then "" else EncodeChunk(chunks[0]) + EncodeChunks(chunks[1..])
  }

  function Data(chunks: seq<Chunk>): (s: string)
  {
    if chunks == [] then "" else chunks[0].data + Data(chunks[1..])
  }

  lemma LineSizeOf(size: string, ext: string, n: nat)
    requires SizeLine(size, ext, n)
    ensures LineSize(size + ext) == Some(n) && '\r' !in size + ext
  {
    forall i | 0 <= i < |size| ensures HexDigit(size[i]).Some? { HexBytes(size, i); }
    assert ';' !in size && '\r' !in size;
    if ext == "" {
      assert size + ext == size;
      assert IndexOf(size, ';') == |size|;
    } else {
      assert size + ext == size + [';'] + ext[1..];
      IndexOfPrefix(size, ';', ext[1..]);
      assert (size + ext)[..|size|] == size;
    }
    AsciiIsUtf8(size);
    TrimNothing(size);
  }

  lemma LastChunk(zero: string, ext: string, tail: string)
    requires SizeLine(zero, ext, 0)
    ensures Decode(zero + ext + CRLF + tail) == Ok("")
  {
    LineSizeOf(zero, ext, 0);
    LineEndAfter(zero + ext, tail);
    assert (zero + ext + CRLF + tail)[..|zero + ext|] == zero + ext;
    SpotOfLast(LineSize, zero + ext + CRLF + tail, |zero + ext|);
  }

  lemma SpotOfLast(sz: SizeReader, body: string, nl: nat)
    requires nl <= |body| && LineEnd(body, 0) == Some(nl) && sz(body[..nl]) == Some(0)
    ensures DecodeFrom(sz, body, 0) == Ok("")
  {
    assert body[0..nl] == body[..nl];
  }

  lemma SpotOfFirst(sz: SizeReader, body: string, nl: nat, size: nat)
    requires nl + 2 + size + 2 <= |body| && LineEnd(body, 0) == Some(nl) && sz(body[..nl]) == Some(size)
    requires size > 0 && |body| < USIZE_LIMIT && CrlfAt(body, nl + 2 + size)
    ensures SpotAt(sz, body, 0) == Ok(Span(nl + 2, nl + 2 + size))
  {
    assert body[0..nl] == body[..nl];
  }

  lemma ChunkLayout(c: Chunk, more: string)
    ensures var line, body := c.size + c.ext, EncodeChunk(c) + more;
            && body == line + CRLF + (c.data + CRLF + more)
            && body[..|line|] == line && body[|line| + 2..|line| + 2 + |c.data|] == c.data
            && CrlfAt(body, |line| + 2 + |c.data|)
            && |EncodeChunk(c)| == |line| + 2 + |c.data| + 2
  {
  }

  lemma FirstSpot(c: Chunk, more: string)
    requires ValidChunk(c) && |EncodeChunk(c) + more| < USIZE_LIMIT
    ensures var from := |c.size + c.ext| + 2;
            SpotAt(LineSize, EncodeChunk(c) + more, 0) == Ok(Span(from, from + |c.data|))
  {
    var line, body := c.size + c.ext, EncodeChunk(c) + more;
    LineSizeOf(c.size, c.ext, |c.data|);
    ChunkLayout(c, more);
    LineEndAfter(line, c.data + CRLF + more);
    SpotOfFirst(LineSize, body, |line|, |c.data|);
  }

  lemma DecodeOne(sz: SizeReader, body: string, from: nat, to: nat)
    requires SpotAt(sz, body, 0) == Ok(Span(from, to))
    ensures from <= to && to + 2 <= |body| && DecodeFrom(sz, body, 0) == Prepend(body[from..to], DecodeFrom(sz, body, to + 2))
  {
  }

  lemma FirstDecoded(sz: SizeReader, chunk: string, more: string, from: nat, data: string)
    requires |chunk| == from + |data| + 2 && SpotAt(sz, chunk + more, 0) == Ok(Span(from, from + |data|))
    requires (chunk + more)[from..from + |data|] == data
    requires DecodeFrom(sz, more, 0).Ok? && |chunk + more| < USIZE_LIMIT
    ensures DecodeFrom(sz, chunk + more, 0) == Prepend(data, DecodeFrom(sz, more, 0))
  {
    DecodeOne(sz, chunk + more, from, from + |data|);
    DecodeShift(sz, chunk, more, 0);
  }

  lemma FirstChunk(c: Chunk, more: string)
    requires ValidChunk(c) && Decode(more).Ok? && |EncodeChunk(c) + more| < USIZE_LIMIT
    ensures Decode(EncodeChunk(c) + more) == Prepend(c.data, Decode(more))
  {
    FirstSpot(c, more);
    ChunkLayout(c, more);
    FirstDecoded(LineSize, EncodeChunk(c), more, |c.size + c.ext| + 2, c.data);
  }

  /**
   Decoding any chunked encoding gives the concatenated data, whatever the chunk
   boundaries, the spelling of the sizes, the extensions and the trailing bytes.
   */
  lemma {:induction false} DecodeEncoded(chunks: seq<Chunk>, zero: string, ext: string, tail: string)
    requires forall i :: 0 <= i < |chunks| ==> ValidChunk(chunks[i])
    requires SizeLine(zero, ext, 0) && |EncodeChunks(chunks) + (zero + ext + CRLF + tail)| < USIZE_LIMIT
    ensures Decode(EncodeChunks(chunks) + (zero + ext + CRLF + tail)) == Ok(Data(chunks))
  {
    var last := zero + ext + CRLF + tail;
    if chunks == [] {
      LastChunk(zero, ext, tail);
      assert EncodeChunks(chunks) + last == last;
    } else {
      DecodeEncoded(chunks[1..], zero, ext, tail);
      FirstChunk(chunks[0], EncodeChunks(chunks[1..]) + last);
      Assoc(EncodeChunk(chunks[0]), EncodeChunks(chunks[1..]), last);
    }
  }

  /** Any list of non-empty pieces has an encoding: lower-case sizes, no extensions. */
  function ChunksOf(pieces: seq<string>): (chunks: seq<Chunk>)
  {
    if pieces == [] then [] else [Chunk(HexText(|pieces[0]|), "", pieces[0])] + ChunksOf(pieces[1..])
  }

  lemma {:induction false} SplitAnywhere(pieces: seq<string>, tail: string)
    requires forall i :: 0 <= i < |pieces| ==> pieces[i] != "" && |pieces[i]| < USIZE_LIMIT
    requires |EncodeChunks(ChunksOf(pieces)) + ("0" + "" + CRLF + tail)| < USIZE_LIMIT
    ensures Decode(EncodeChunks(ChunksOf(pieces)) + ("0" + "" + CRLF + tail)) == Ok(Flatten(pieces))
  {
    PiecesEncode(pieces);
    assert HexValue("0") == Some(0) by { assert "0"[..0] == ""; }
    DecodeEncoded(ChunksOf(pieces), "0", "", tail);
  }

  lemma {:induction false} PiecesEncode(pieces: seq<string>)
    requires forall i :: 0 <= i < |pieces| ==> pieces[i] != "" && |pieces[i]| < USIZE_LIMIT
    ensures forall i :: 0 <= i < |ChunksOf(pieces)| ==> ValidChunk(ChunksOf(pieces)[i])
    ensures Data(ChunksOf(pieces)) == Flatten(pieces)
  {
    if pieces != [] {
      HexRoundTrip(|pieces[0]|);
      PiecesEncode(pieces[1..]);
    }
  }

  // ----- sizes beyond a machine word ----------------------------------------------------

  /** The size line at `p` announces data whose end, with its CRLF, exceeds a machine word. */
  ghost predicate EndsBeyond(sz: SizeReader, body: string, p: nat)
  {
    && LineEnd(body, p).Some?
    && var nl := LineEnd(body, p).value;
       sz(body[p..nl]).Some? && sz(body[p..nl]).value > 0 && nl + 2 + sz(body[p..nl]).value + 2 >= USIZE_LIMIT
  }

  /** Whole chunks lead from `pos` to `p`. */
  ghost predicate Reached(sz: SizeReader, body: string, pos: nat, p: nat)
    decreases |body| - pos
  {
    p == pos ||
    (SpotAt(sz, body, pos).Ok? && SpotAt(sz, body, pos).value.Span? &&
     Reached(sz, body, SpotAt(sz, body, pos).value.to + 2, p))
  }

  lemma SpotOverflows(sz: SizeReader, body: string, pos: nat)
    ensures SpotAt(sz, body, pos) == Err(Overflow) <==> EndsBeyond(sz, body, pos)
  {
  }

  /** Decoding overflows exactly when whole chunks lead to a size line whose end exceeds a machine word. */
  lemma {:induction false} OverflowIff(sz: SizeReader, body: string, pos: nat)
    ensures DecodeFrom(sz, body, pos) == Err(Overflow) <==>
            exists p: nat :: Reached(sz, body, pos, p) && EndsBeyond(sz, body, p)
    decreases |body| - pos
  {
    var spot := SpotAt(sz, body, pos);
    SpotOverflows(sz, body, pos);
    if EndsBeyond(sz, body, pos) {
      assert Reached(sz, body, pos, pos);
    } else if spot.Ok? && spot.value.Span? {
      var next := spot.value.to + 2;
      OverflowIff(sz, body, next);
      forall p: nat ensures Reached(sz, body, pos, p) <==> p == pos || Reached(sz, body, next, p) {
      }
    } else {
      forall p: nat | Reached(sz, body, pos, p) ensures !EndsBeyond(sz, body, p) {
      }
    }
  }

  lemma LineBeyond(size: string, ext: string, n: nat, tail: string, line: string, body: string)
    requires SizeLine(size, ext, n) && n > 0 && line == size + ext && body == line + CRLF + tail
    ensures LineEnd(body, 0) == Some(|line|) && body[0..|line|] == line && LineSize(body[0..|line|]) == Some(n)
  {
    LineSizeOf(size, ext, n);
    LineEndAfter(line, tail);
    assert body[0..|line|] == line;
  }

  /** The spot of a size line that stands behind `a`. */
  lemma SpotBehind(sz: SizeReader, a: string, b: string, nl: nat, n: nat)
    requires LineEnd(b, 0) == Some(nl) && sz(b[0..nl]) == Some(n)
    ensures SpotAt(sz, a + b, |a|) == SpanAfter(a + b, |a| + nl + 2, n)
  {
    LineEndShift(a, b, 0);
    assert (a + b)[|a|..|a| + nl] == b[0..nl];
  }

  /** A reading from any position passes a whole chunk that stands after `a`. */
  ghost predicate Passes(reading: nat -> Result<string, DecodeError>, a: string, c: Chunk, out: string)
  {
    Prepend(out, reading(|a|)) == Prepend(out + c.data, reading(|a + EncodeChunk(c)|))
  }

  /** Such a reading passes whole chunks, whatever follows them. */
  lemma {:induction false} PastChunks(reading: nat -> Result<string, DecodeError>, a: string, chunks: seq<Chunk>, b: string, out: string, all: string)
    requires forall i :: 0 <= i < |chunks| ==> ValidChunk(chunks[i])
    requires all == a + (EncodeChunks(chunks) + b)
    requires forall x, c, y, o :: ValidChunk(c) && all == x + (EncodeChunk(c) + y) ==> Passes(reading, x, c, o)
    ensures Prepend(out, reading(|a|)) == Prepend(out + Data(chunks), reading(|a| + |EncodeChunks(chunks)|))
    decreases |chunks|
  {
    if chunks == [] {
      assert out + Data(chunks) == out;
    } else {
      var one, rest := EncodeChunk(chunks[0]), EncodeChunks(chunks[1..]);
      Assoc(one, rest, b);
      Assoc(a, one, rest + b);
      assert Passes(reading, a, chunks[0], out);
      PastChunks(reading, a + one, chunks[1..], b, out + chunks[0].data, all);
      Assoc(out, chunks[0].data, Data(chunks[1..]));
    }
  }

  lemma PastOne(a: string, c: Chunk, more: string, out: string)
    requires ValidChunk(c) && |a + (EncodeChunk(c) + more)| < USIZE_LIMIT
    ensures var all := a + (EncodeChunk(c) + more);
            Prepend(out, DecodeFrom(LineSize, all, |a|)) ==
            Prepend(out + c.data, DecodeFrom(LineSize, all, |a + EncodeChunk(c)|))
  {
    FirstSpot(c, more);
    ChunkLayout(c, more);
    PastSpot(LineSize, a, EncodeChunk(c), more, |c.size + c.ext| + 2, c.data, out);
  }

  lemma PastSpot(sz: SizeReader, a: string, chunk: string, more: string, from: nat, data: string, out: string)
    requires |chunk| == from + |data| + 2 && SpotAt(sz, chunk + more, 0) == Ok(Span(from, from + |data|))
    requires (chunk + more)[from..from + |data|] == data && |a + (chunk + more)| < USIZE_LIMIT
    ensures var all := a + (chunk + more);
            Prepend(out, DecodeFrom(sz, all, |a|)) == Prepend(out + data, DecodeFrom(sz, all, |a + chunk|))
  {
    var b := chunk + more;
    SpotShift(sz, a, b, 0);
    SliceShift(a, b, from, from + |data|);
    DecodeSpan(sz, a + b, |a|, |a| + from, |a| + from + |data|, out);
  }

  /** Where the data of a last, unfinished chunk would end. */
  function EndOf(chunks: seq<Chunk>, size: string, ext: string, n: nat): (end: nat)
  {
    |EncodeChunks(chunks)| + |size + ext| + 2 + n + 2
  }

  lemma LastSpot(a: string, size: string, ext: string, n: nat, tail: string)
    requires SizeLine(size, ext, n) && n > 0
    ensures SpotAt(LineSize, a + (size + ext + CRLF + tail), |a|) ==
            SpanAfter(a + (size + ext + CRLF + tail), |a| + |size + ext| + 2, n)
  {
    var b := size + ext + CRLF + tail;
    LineBeyond(size, ext, n, tail, size + ext, b);
    SpotBehind(LineSize, a, b, |size + ext|, n);
  }

  lemma DecodeToLast(chunks: seq<Chunk>, b: string)
    requires (forall i :: 0 <= i < |chunks| ==> ValidChunk(chunks[i])) && |EncodeChunks(chunks) + b| < USIZE_LIMIT
    ensures Decode(EncodeChunks(chunks) + b) ==
            Prepend(Data(chunks), DecodeFrom(LineSize, EncodeChunks(chunks) + b, |EncodeChunks(chunks)|))
  {
    var a := EncodeChunks(chunks);
    assert "" + (a + b) == a + b;
    var reading := (k: nat) => DecodeFrom(LineSize, a + b, k);
    forall x, c, y, o | ValidChunk(c) && a + b == x + (EncodeChunk(c) + y) ensures Passes(reading, x, c, o) {
      PastOne(x, c, y, o);
    }
    PastChunks(reading, "", chunks, b, "", a + b);
    PrependNothing(Decode(a + b));
    assert "" + Data(chunks) == Data(chunks);
  }

  /**
   After any whole chunks, a size that fits a machine word but ends beyond one aborts,
   whatever follows; and while its data is not all there, nothing else does.
   */
  lemma OverflowAfterChunks(chunks: seq<Chunk>, size: string, ext: string, n: nat, tail: string)
    requires (forall i :: 0 <= i < |chunks| ==> ValidChunk(chunks[i])) && SizeLine(size, ext, n) && n > 0
    requires |EncodeChunks(chunks) + (size + ext + CRLF + tail)| < USIZE_LIMIT
    ensures EndOf(chunks, size, ext, n) >= USIZE_LIMIT ==>
              Decode(EncodeChunks(chunks) + (size + ext + CRLF + tail)) == Err(Overflow)
    ensures |tail| < n + 2 ==>
              Decode(EncodeChunks(chunks) + (size + ext + CRLF + tail)) ==
              Err(if EndOf(chunks, size, ext, n) >= USIZE_LIMIT then Overflow else TruncatedData)
  {
    DecodeToLast(chunks, size + ext + CRLF + tail);
    LastSpot(EncodeChunks(chunks), size, ext, n, tail);
  }

  /** The largest size that fits a machine word aborts as the very first one. */
  lemma LargestSizeOverflows(tail: string)
    requires |tail| + 18 < USIZE_LIMIT
    ensures Decode("ffffffffffffffff" + "" + CRLF + tail) == Err(Overflow)
  {
    LargestSize("ffffffffffffffff");
    OverflowAtOnce("ffffffffffffffff", "", USIZE_LIMIT - 1, tail);
  }

  lemma OverflowAtOnce(size: string, ext: string, n: nat, tail: string)
    requires SizeLine(size, ext, n) && n > 0 && |size + ext| + 2 + n + 2 >= USIZE_LIMIT
    requires |size + ext + CRLF + tail| < USIZE_LIMIT
    ensures Decode(size + ext + CRLF + tail) == Err(Overflow)
  {
    var body := size + ext + CRLF + tail;
    OverflowAfterChunks([], size, ext, n, tail);
    assert EncodeChunks([]) + body == body;
  }

  lemma LargestSize(s: string)
    requires s == "ffffffffffffffff"
    ensures HexValue(s) == Some(USIZE_LIMIT - 1)
  {
    FullSize(s, |s|);
    assert s[..|s|] == s;
    WordOfDigits(|s|);
  }

  lemma WordOfDigits(k: nat)
    requires k == 16
    ensures Power16(k) == USIZE_LIMIT
  {
    EightDigits(k - 8);
    EightDigits(k - 16);
  }

  lemma EightDigits(k: nat)
    ensures Power16(k + 8) == 0x1_0000_0000 * Power16(k)
  {
    FourDigits(k);
    FourDigits(k + 4);
  }

  lemma FourDigits(k: nat)
    ensures Power16(k + 4) == 65536 * Power16(k)
  {
    assert Power16(k + 2) == 16 * Power16(k + 1);
    assert Power16(k + 3) == 16 * Power16(k + 2);
  }

  lemma {:induction false} FullSize(s: string, k: nat)
    requires k <= |s| && forall i :: 0 <= i < k ==> s[i] == 'f'
    ensures HexValue(s[..k]) == Some(Power16(k) - 1)
  {
    if k > 0 {
      FullSize(s, k - 1);
      assert s[..k] == s[..k - 1] + ['f'];
      HexAppend(s[..k - 1], 'f', Power16(k - 1) - 1, 15);
    } else {
      assert s[..0] == "";
    }
  }

  function Power16(k: nat): (p: nat)
    ensures p >= 1
  {
    if k == 0 then 1 else 16 * Power16(k - 1)
  }
}
