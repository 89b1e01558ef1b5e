/** Records of the Z21 LAN protocol (`encode`, `parse_records`). */
module Z21Records {
  import opened Prelude

  datatype Record = Record(header: Word, data: seq<Byte>)

  /** The longest payload whose length still fits the 16-bit length field. */
  const MAX_DATA: nat := 65531

  function Little(w: Word): (b: seq<Byte>)
    ensures |b| == 2 && WordAt(b, 0) == w
  {
    [w % 256, w / 256]
  }

  function WordAt(b: seq<Byte>, i: nat): (w: Word)
    requires i + 1 < |b|
  {
    b[i] as int + 256 * (b[i + 1] as int)
  }

  /** The length `encode` writes for a payload: it stays at the largest word. */
  function LengthField(n: nat): (w: Word)
    ensures n <= MAX_DATA ==> w == n + 4
    ensures n > MAX_DATA ==> w == 0xFFFF
  {
    if n <= MAX_DATA then n + 4 else 0xFFFF
  }

  function Encode(header: Word, data: seq<Byte>): (b: seq<Byte>)
    ensures |b| == 4 + |data|
  {
    Little(LengthField(|data|)) + Little(header) + data
  }

  /** The record at offset `off`, when a whole one is there. */
  function RecordAt(buf: seq<Byte>, off: nat): (r: Option<Record>)
    ensures r.Some? ==> off + 4 + |r.value.data| <= |buf|
  {
    if off + 4 > |buf| then None
    else
      var len := WordAt(buf, off);
      if len < 4 || off + len > |buf| then None
      else Some(Record(WordAt(buf, off + 2), buf[off + 4..off + len]))
  }

  /** The records from offset `off` on. */
  function ParseFrom(buf: seq<Byte>, off: nat): (rs: seq<Record>)
    decreases |buf| - off
  {
    match RecordAt(buf, off)
    case None => []
    case Some(r) => [r] + ParseFrom(buf, off + 4 + |r.data|)
  }

  function Parse(buf: seq<Byte>): (rs: seq<Record>)
  {
    ParseFrom(buf, 0)
  }

  lemma ParseTurn(buf: seq<Byte>, off: nat, end: nat, out: seq<Record>)
    requires off + 4 <= end <= |buf| && end == off + WordAt(buf, off)
    ensures out + ParseFrom(buf, off) == (out + [Record(WordAt(buf, off + 2), buf[off + 4..end])]) + ParseFrom(buf, end)
  {
    Assoc(out, [Record(WordAt(buf, off + 2), buf[off + 4..end])], ParseFrom(buf, end));
  }

  lemma ParseStops(buf: seq<Byte>, off: nat, out: seq<Record>)
    requires RecordAt(buf, off).None?
    ensures out + ParseFrom(buf, off) == out
  {
  }

  /** `parse_records`. */
  method ParseRecords(buf: seq<Byte>) returns (out: seq<Record>)
    ensures out == Parse(buf)
  {
    out := [];
    var off := 0;
    ghost var all := Parse(buf);
    while off + 4 <= |buf|
      invariant 0 <= off <= |buf|
      invariant out + ParseFrom(buf, off) == all
    {
      var end := off + WordAt(buf, off);
      var header := WordAt(buf, off + 2);
      if end < off + 4 || end > |buf| {
        break;
      }
      ParseTurn(buf, off, end, out);
      out := out + [Record(header, buf[off + 4..end])];
      off := end;
    }
    ParseStops(buf, off, out);
  }

  // ----- round trips -----------------------------------------------------------------

  function EncodeAll(rs: seq<Record>): (b: seq<Byte>)
  {
    if rs == [] then [] else Encode(rs[0].header, rs[0].data) + EncodeAll(rs[1..])
  }

  ghost predicate Fits(r: Record)
  {
    |r.data| <= MAX_DATA
  }

  lemma RecordShift(a: seq<Byte>, b: seq<Byte>, k: nat)
    ensures RecordAt(a + b, |a| + k) == RecordAt(b, k)
  {
    var s := a + b;
    if k + 4 <= |b| {
      assert s[|a| + k] == b[k] && s[|a| + k + 1] == b[k + 1] && s[|a| + k + 2] == b[k + 2] && s[|a| + k + 3] == b[k + 3];
      var len := WordAt(b, k);
      if 4 <= len && k + len <= |b| {
        assert s[|a| + k + 4..|a| + k + len] == b[k + 4..k + len];
      }
    }
  }

  /** Bytes in front only move the offsets. */
  lemma {:induction false} ParseShift(a: seq<Byte>, b: seq<Byte>, k: nat)
    ensures ParseFrom(a + b, |a| + k) == ParseFrom(b, k)
    decreases |b| - k
  {
    RecordShift(a, b, k);
    if RecordAt(b, k).Some? {
      ParseShift(a, b, k + 4 + |RecordAt(b, k).value.data|);
    }
  }

  lemma EncodedBytes(header: Word, data: seq<Byte>, tail: seq<Byte>)
    ensures var b := Encode(header, data) + tail;
            WordAt(b, 0) == LengthField(|data|) && WordAt(b, 2) == header && b[4..4 + |data|] == data
  {
    var b := Encode(header, data) + tail;
    assert b[0] == Little(LengthField(|data|))[0] && b[1] == Little(LengthField(|data|))[1];
    assert b[2] == Little(header)[0] && b[3] == Little(header)[1];
  }

  /** A record that fits is read back, whatever follows it. */
  lemma ReadEncoded(r: Record, tail: seq<Byte>)
    requires Fits(r)
    ensures Parse(Encode(r.header, r.data) + tail) == [r] + Parse(tail)
  {
    EncodedBytes(r.header, r.data, tail);
    ParseShift(Encode(r.header, r.data), tail, 0);
  }

  lemma OneMore(r: Record, rs: seq<Record>, b: seq<Byte>, more: seq<Record>)
    requires Fits(r) && Parse(b) == rs + more
    ensures Parse(Encode(r.header, r.data) + b) == ([r] + rs) + more
  {
    ReadEncoded(r, b);
    Assoc([r], rs, more);
  }

  /** Any concatenation of records that fit is read back exactly. */
  lemma {:induction false} ParseEncoded(rs: seq<Record>, tail: seq<Byte>, more: seq<Record>)
    requires (forall i :: 0 <= i < |rs| ==> Fits(rs[i])) && more == Parse(tail)
    ensures Parse(EncodeAll(rs) + tail) == rs + more
  {
    if rs == [] {
      assert EncodeAll(rs) + tail == tail && rs + more == more;
    } else {
      assert Fits(rs[0]);
      ParseEncoded(rs[1..], tail, more);
      Assoc(Encode(rs[0].header, rs[0].data), EncodeAll(rs[1..]), tail);
      OneMore(rs[0], rs[1..], EncodeAll(rs[1..]) + tail, more);
      assert [rs[0]] + rs[1..] == rs;
    }
  }

  /** One record is read back exactly when its payload fits; a longer one is cut silently. */
  lemma RoundTripIff(r: Record)
    ensures Parse(Encode(r.header, r.data)) == [r] <==> Fits(r)
  {
    var b := Encode(r.header, r.data);
    assert b + [] == b;
    EncodedBytes(r.header, r.data, []);
    if Fits(r) {
      ReadEncoded(r, []);
    } else {
      assert Parse(b)[0].data == b[4..0xFFFF];
      assert |Parse(b)[0].data| < |r.data|;
    }
  }

  lemma EncodeRead(buf: seq<Byte>, off: nat)
    requires RecordAt(buf, off).Some?
    ensures var r := RecordAt(buf, off).value; Fits(r) && Encode(r.header, r.data) == buf[off..off + 4 + |r.data|]
  {
    var r := RecordAt(buf, off).value;
    assert Little(WordAt(buf, off)) == [buf[off], buf[off + 1]] && Little(r.header) == [buf[off + 2], buf[off + 3]];
  }

  /** `b` stands at `off`, and no record starts after it. */
  ghost predicate ReadUpTo(buf: seq<Byte>, off: nat, b: seq<Byte>)
  {
    off + |b| <= |buf| && b == buf[off..off + |b|] && RecordAt(buf, off + |b|).None?
  }

  lemma ReadOneMore(buf: seq<Byte>, off: nat, first: seq<Byte>, b: seq<Byte>)
    requires off + |first| <= |buf| && first == buf[off..off + |first|] && ReadUpTo(buf, off + |first|, b)
    ensures ReadUpTo(buf, off, first + b)
  {
    Adjacent(buf, off, off + |first|, off + |first| + |b|);
  }

  lemma {:induction false} ReadsFrom(buf: seq<Byte>, off: nat)
    requires off <= |buf|
    ensures ReadUpTo(buf, off, EncodeAll(ParseFrom(buf, off)))
    decreases |buf| - off
  {
    if RecordAt(buf, off).Some? {
      var r := RecordAt(buf, off).value;
      var next := off + 4 + |r.data|;
      EncodeRead(buf, off);
      ReadsFrom(buf, next);
      EncodeCons(r, ParseFrom(buf, next));
      ReadOneMore(buf, off, Encode(r.header, r.data), EncodeAll(ParseFrom(buf, next)));
    }
  }

  lemma Adjacent(buf: seq<Byte>, a: nat, b: nat, c: nat)
    requires a <= b <= c <= |buf|
    ensures buf[a..b] + buf[b..c] == buf[a..c]
  {
  }

  lemma EncodeCons(r: Record, rs: seq<Record>)
    ensures EncodeAll([r] + rs) == Encode(r.header, r.data) + EncodeAll(rs)
  {
    assert ([r] + rs)[0] == r && ([r] + rs)[1..] == rs;
  }

  /** On arbitrary bytes: what was read re-encodes to a prefix, and no record starts after it. */
  lemma ReadsAPrefix(buf: seq<Byte>)
    ensures var b := EncodeAll(Parse(buf));
            |b| <= |buf| && b == buf[..|b|] && RecordAt(buf, |b|).None?
  {
    ReadsFrom(buf, 0);
  }
}
