/**
 Percent-encoding of query values, section 2 of RFC 3986: the client's encoder
 (`percent_encode`) and the device's decoder (`percent_decode`). The chars of a
 string are its UTF-8 bytes.
 */
module Percent {
  import opened Prelude
  import opened Text

  /** Every char is a byte. */
  ghost predicate Bytes(s: string)
  {
    forall i :: 0 <= i < |s| ==> s[i] as int < 256
  }

  /** Text as the program holds it: bytes that are UTF-8. */
  type Octets = s: string | Bytes(s) && IsUtf8(s)

  predicate Unreserved(c: char)
  {
    IsDigit(c) || 'a' <= c <= 'z' || 'A' <= c <= 'Z' || c == '-' || c == '.' || c == '_' || c == '~'
  }

  function UpperHex(d: nat): (c: char)
    requires d < 16
    ensures IsDigit(c) || 'A' <= c <= 'F'
  {
    if d < 10 then DigitChar(d) else ('A' as int + (d - 10)) as char
  }

  function EncodeByte(c: char): (e: string)
    requires c as int < 256
    ensures |e| > 0
  {
    if Unreserved(c) then [c] else ['%', UpperHex(c as int / 16), UpperHex(c as int % 16)]
  }

  function Encode(s: string): (e: string)
    requires Bytes(s)
  {
    if s == "" then "" else Encode(s[..|s| - 1]) + EncodeByte(s[|s| - 1])
  }

  /** `percent_encode`. */
  method PercentEncode(input: string) returns (out: string)
    requires Bytes(input)
    ensures out == Encode(input)
  {
    out := "";
    for i := 0 to |input|
      invariant out == Encode(input[..i])
    {
      assert input[..i + 1][..i] == input[..i];
      if Unreserved(input[i]) {
        out := out + [input[i]];
      } else {
        var b := input[i] as int;
        out := out + ['%'] + [UpperHex(b / 16), UpperHex(b % 16)];
      }
    }
    assert input[..|input|] == input;
  }

  /** The decoded byte at position `i` of `s` and the number of bytes it takes. */
  function DecodeAt(s: string, i: nat): (r: (char, nat))
    requires i < |s|
    ensures 1 <= r.1 && i + r.1 <= |s|
  {
    if s[i] == '+' then (' ', 1)
    else if s[i] == '%' && i + 2 < |s| then
      match (HexDigit(s[i + 1]), HexDigit(s[i + 2]))
      case (Some(a), Some(b)) => ((a * 16 + b) as char, 3)
      case _ => (s[i], 1)
    else (s[i], 1)
  }

  function Decode(s: string): (d: string)
    decreases |s|
  {
    if s == "" then "" else [DecodeAt(s, 0).0] + Decode(s[DecodeAt(s, 0).1..])
  }

  /** The decoded text: the bytes, with what is not UTF-8 replaced. */
  function DecodeText(s: string): (t: string)
  {
    Lossy(Decode(s))
  }

  /** `percent_decode`. */
  method PercentDecode(input: string) returns (text: string)
    ensures text == DecodeText(input)
  {
    var out := DecodeBytes(input);
    text := Lossy(out);
  }

  /** Its loop. */
  method DecodeBytes(input: string) returns (out: string)
    ensures out == Decode(input)
  {
    out := "";
    var i := 0;
    assert input[0..] == input;
    while i < |input|
      invariant 0 <= i <= |input|
      invariant Decode(input) == out + Decode(input[i..])
    {
      DecodeTurn(input, i, out);
      var c, step := input[i], 1;
      if input[i] == '+' {
        c := ' ';
      } else if input[i] == '%' && i + 2 < |input| {
        var h1, h2 := HexDigit(input[i + 1]), HexDigit(input[i + 2]);
        if h1.Some? && h2.Some? {
          c, step := (h1.value * 16 + h2.value) as char, 3;
        }
      }
      assert (c, step) == DecodeAt(input, i);
      out := out + [c];
      i := i + step;
    }
  }

  lemma DecodeTurn(s: string, i: nat, out: string)
    requires i < |s|
    ensures var h := DecodeAt(s, i);
            out + Decode(s[i..]) == (out + [h.0]) + Decode(s[i + h.1..])
  {
    var rest := s[i..];
    var h := DecodeAt(s, i);
    assert DecodeAt(rest, 0) == h;
    assert rest[h.1..] == s[i + h.1..];
  }

  lemma {:induction false} DecodeAppend(a: char, t: string)
    requires a as int < 256
    ensures Decode(EncodeByte(a) + t) == [a] + Decode(t)
  {
    var s := EncodeByte(a) + t;
    if Unreserved(a) {
      assert s[1..] == t;
    } else {
      var b := a as int;
      assert s[1] == UpperHex(b / 16) && s[2] == UpperHex(b % 16);
      assert HexDigit(s[1]) == Some(b / 16) && HexDigit(s[2]) == Some(b % 16);
      assert b / 16 * 16 + b % 16 == b;
      assert s[3..] == t;
    }
  }

  lemma {:induction false} DecodeEncodePrefix(s: string, t: string)
    requires Bytes(s)
    ensures Decode(Encode(s) + t) == s + Decode(t)
  {
    if s == "" {
      assert Encode(s) + t == t;
    } else {
      var init, last := s[..|s| - 1], s[|s| - 1];
      var e := EncodeByte(last);
      DecodeEncodePrefix(init, e + t);
      DecodeAppend(last, t);
      Assoc(Encode(init), e, t);
      Assoc(init, [last], Decode(t));
      assert init + [last] == s;
    }
  }

  /** The device decodes what the client encoded to the same bytes, for every string. */
  lemma RoundTrip(s: string)
    requires Bytes(s)
    ensures Decode(Encode(s)) == s
  {
    DecodeEncodePrefix(s, "");
    assert Encode(s) + "" == Encode(s) && s + "" == s;
  }

  /** And to the same text exactly when it is UTF-8, as every string of the program is. */
  lemma TextRoundTripIff(s: string)
    requires Bytes(s)
    ensures DecodeText(Encode(s)) == s <==> IsUtf8(s)
  {
    RoundTrip(s);
    LossyKeepsIff(s);
  }

  /** The encoded text holds only unreserved characters and escapes, so no separator of a query. */
  lemma {:induction false} EncodedChars(s: string)
    requires Bytes(s)
    ensures forall i :: 0 <= i < |Encode(s)| ==> Unreserved(Encode(s)[i]) || Encode(s)[i] == '%'
  {
    if s != "" {
      EncodedChars(s[..|s| - 1]);
    }
  }

  predicate PlainChar(c: char)
  {
    c as int < 0x80 && c != '%' && c != '+'
  }

  lemma {:induction false} PlainBytes(s: string)
    requires forall i :: 0 <= i < |s| ==> PlainChar(s[i])
    ensures Decode(s) == s
  {
    if s != "" {
      PlainBytes(s[1..]);
    }
  }

  /** ASCII text without escapes is left alone by the decoder. */
  lemma DecodePlain(s: string)
    requires forall i :: 0 <= i < |s| ==> PlainChar(s[i])
    ensures DecodeText(s) == s
  {
    PlainBytes(s);
    AsciiIsUtf8(s);
    LossyKeeps(s);
  }
}
