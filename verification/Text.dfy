/**
 Text as Rust's standard library treats it. A string is the sequence of its
 UTF-8 bytes, each written as the char with that code.
 */
module Text {
  import opened Prelude

  predicate IsDigit(c: char) { '0' <= c <= '9' }

  ghost predicate AllDigits(s: string)
  {
    forall i :: 0 <= i < |s| ==> IsDigit(s[i])
  }

  function DigitChar(d: nat): (c: char)
    requires d < 10
    ensures IsDigit(c) && c as int - '0' as int == d
  {
    ('0' as int + d) as char
  }

  /** `format!("{n}")` for an unsigned integer. */
  function Decimal(n: nat): (s: string)
    ensures |s| > 0 && AllDigits(s)
  {
    if n < 10 then [DigitChar(n)] else Decimal(n / 10) + [DigitChar(n % 10)]
  }

  /** `format!("{i}")` for a signed integer. */
  function SignedDecimal(i: int): (s: string)
  {
    if i < 0 then "-" + Decimal(-i) else Decimal(i)
  }

  /** Value of a run of decimal digits, or `None` when some byte is not a digit. */
  function DigitsValue(s: string): (v: Option<nat>)
    ensures v.Some? <==> AllDigits(s)
  {
    if s == "" then Some(0)
    else
      var last := s[|s| - 1];
      if !IsDigit(last) then None
      else
        assert forall i :: 0 <= i < |s| - 1 ==> s[i] == s[..|s| - 1][i];
        match DigitsValue(s[..|s| - 1])
        case None => None
        case Some(high) => Some(high * 10 + (last as int - '0' as int))
  }

  /** `s.parse::<uN>()` where the type holds the values below `limit`. */
  function ParseUnsigned(s: string, limit: nat): (v: Option<nat>)
    ensures v.Some? ==> v.value < limit
  {
    var digits := if s != "" && s[0] == '+' then s[1..] else s;
    if digits == "" then None
    else
      match DigitsValue(digits)
      case None => None
      case Some(n) => if n < limit then Some(n) else None
  }

  /** `s.parse::<iN>()` where the type holds the values in `-half .. half`. */
  function ParseSigned(s: string, half: nat): (v: Option<int>)
    requires half > 0
    ensures v.Some? ==> 0 - half <= v.value < half
  {
    if s != "" && s[0] == '-' then
      if s[1..] == "" then None
      else
        match DigitsValue(s[1..])
        case None => None
        case Some(n) => if n <= half then Some(0 - n) else None
    else ParseUnsigned(s, half)
  }

  lemma {:induction false} DigitsValueOfDecimal(n: nat)
    ensures DigitsValue(Decimal(n)) == Some(n)
  {
    if n >= 10 {
      DigitsValueOfDecimal(n / 10);
      var s := Decimal(n);
      assert s[..|s| - 1] == Decimal(n / 10);
    } else {
      assert Decimal(n)[..0] == "";
    }
  }

  /** Printing then parsing an unsigned integer gives it back exactly when it fits. */
  lemma ParseUnsignedRoundTrip(n: nat, limit: nat)
    ensures ParseUnsigned(Decimal(n), limit) == if n < limit then Some(n) else None
  {
    DigitsValueOfDecimal(n);
    assert IsDigit(Decimal(n)[0]);
  }

  lemma ParseSignedRoundTrip(i: int, half: nat)
    requires half > 0 && 0 - half <= i < half
    ensures ParseSigned(SignedDecimal(i), half) == Some(i)
  {
    if i < 0 {
      DigitsValueOfDecimal(-i);
      assert SignedDecimal(i)[1..] == Decimal(-i);
    } else {
      ParseUnsignedRoundTrip(i, half);
      assert IsDigit(Decimal(i)[0]);
    }
  }

  lemma DecimalInjective(a: nat, b: nat)
    requires Decimal(a) == Decimal(b)
    ensures a == b
  {
    DigitsValueOfDecimal(a);
    DigitsValueOfDecimal(b);
  }

  // ----- white space -------------------------------------------------------

  predicate IsSpace(c: char)
  {
    c == ' ' || '\t' <= c <= '\r'
  }

  function TrimStart(s: string): (t: string)
    ensures |t| <= |s|
  {
    if s != "" && IsSpace(s[0]) then TrimStart(s[1..]) else s
  }

  function TrimEnd(s: string): (t: string)
    ensures |t| <= |s|
  {
    if s != "" && IsSpace(s[|s| - 1]) then TrimEnd(s[..|s| - 1]) else s
  }

  /** `str::trim`, for ASCII white space. */
  function Trim(s: string): (t: string)
  {
    TrimEnd(TrimStart(s))
  }

  lemma TrimNothing(s: string)
    requires s != "" ==> !IsSpace(s[0]) && !IsSpace(s[|s| - 1])
    ensures Trim(s) == s
  {
  }

  lemma TrimDecimal(i: int)
    ensures Trim(SignedDecimal(i)) == SignedDecimal(i)
    ensures i >= 0 ==> Trim(Decimal(i)) == Decimal(i)
  {
    var s := SignedDecimal(i);
    if i < 0 {
      var d := Decimal(-i);
      assert s[|s| - 1] == d[|d| - 1] && IsDigit(d[|d| - 1]);
    } else {
      assert IsDigit(s[0]) && IsDigit(s[|s| - 1]);
    }
    TrimNothing(s);
  }

  // ----- searching and splitting -------------------------------------------

  /** Index of the first `c` in `s`, or `|s|`. */
  function IndexOf(s: string, c: char): (i: nat)
    ensures i <= |s|
    ensures i < |s| ==> s[i] == c
    ensures forall j :: 0 <= j < i ==> s[j] != c
  {
    if s == "" || s[0] == c then 0 else
      var i := 1 + IndexOf(s[1..], c);
      assert forall j :: 1 <= j < i ==> s[j] == s[1..][j - 1];
      i
  }

  /** `s.split_once(c)`. */
  function SplitOnce(s: string, c: char): (r: Option<(string, string)>)
    ensures r.None? <==> c !in s
    ensures r.Some? ==> s == r.value.0 + [c] + r.value.1 && c !in r.value.0
  {
    var i := IndexOf(s, c);
    if i == |s| then None else Some((s[..i], s[i + 1..]))
  }

  /** `s.split(c)`: the pieces between the separators, never an empty list. */
  function Split(s: string, c: char): (parts: seq<string>)
    ensures |parts| > 0
    decreases |s|
  {
    var i := IndexOf(s, c);
    if i == |s| then [s] else [s[..i]] + Split(s[i + 1..], c)
  }

  /** Joining with a separator, the inverse of `Split`. */
  function Join(parts: seq<string>, c: char): (s: string)
  {
    if |parts| == 0 then ""
    else if |parts| == 1 then parts[0]
    else parts[0] + [c] + Join(parts[1..], c)
  }

  lemma IndexOfPrefix(a: string, c: char, b: string)
    requires c !in a
    ensures IndexOf(a + [c] + b, c) == |a|
  {
    var s := a + [c] + b;
    var i := IndexOf(s, c);
    assert s[|a|] == c;
    assert forall j :: 0 <= j < |a| ==> s[j] == a[j];
  }

  lemma SplitOnceAt(a: string, c: char, b: string)
    requires c !in a
    ensures SplitOnce(a + [c] + b, c) == Some((a, b))
  {
    IndexOfPrefix(a, c, b);
    var s := a + [c] + b;
    assert s[..|a|] == a && s[|a| + 1..] == b;
  }

  lemma {:induction false} SplitJoin(parts: seq<string>, c: char)
    requires |parts| > 0
    requires forall i :: 0 <= i < |parts| ==> c !in parts[i]
    ensures Split(Join(parts, c), c) == parts
  {
    if |parts| == 1 {
      assert IndexOf(parts[0], c) == |parts[0]|;
    } else {
      var rest := Join(parts[1..], c);
      IndexOfPrefix(parts[0], c, rest);
      var s := parts[0] + [c] + rest;
      assert s[..|parts[0]|] == parts[0] && s[|parts[0]| + 1..] == rest;
      SplitJoin(parts[1..], c);
    }
  }

  // ----- machine words and hexadecimal ------------------------------------------------

  /** Values of a `usize` are below this. */
  const USIZE_LIMIT: nat := 0x1_0000_0000_0000_0000

  /** A `usize`. */
  type Size = n: nat | n < USIZE_LIMIT

  /** The value of a hexadecimal digit of either case. */
  function HexDigit(c: char): (v: Option<nat>)
    ensures v.Some? ==> v.value < 16
  {
    if '0' <= c <= '9' then Some(c as int - '0' as int)
    else if 'a' <= c <= 'f' then Some(c as int - 'a' as int + 10)
    else if 'A' <= c <= 'F' then Some(c as int - 'A' as int + 10)
    else None
  }

  // ----- UTF-8 ------------------------------------------------------------------

  predicate Cont(c: char) { 0x80 <= c as int <= 0xBF }

  /** Length of the well-formed encoded character at the head of `s`, or 0. */
  function Utf8Width(s: string): (n: nat)
    requires s != ""
    ensures n <= |s|
    ensures s[0] as int < 0x80 ==> n == 1
  {
    var b := s[0] as int;
    if b < 0x80 then 1
    else if 0xC2 <= b <= 0xDF && |s| >= 2 && Cont(s[1]) then 2
    else if 0xE0 <= b <= 0xEF && |s| >= 3 && Cont(s[1]) && Cont(s[2])
            && (b == 0xE0 ==> s[1] as int >= 0xA0) && (b == 0xED ==> s[1] as int <= 0x9F) then 3
    else if 0xF0 <= b <= 0xF4 && |s| >= 4 && Cont(s[1]) && Cont(s[2]) && Cont(s[3])
            && (b == 0xF0 ==> s[1] as int >= 0x90) && (b == 0xF4 ==> s[1] as int <= 0x8F) then 4
    else 0
  }

  /** `str::from_utf8(..).is_ok()`. */
  predicate IsUtf8(s: string)
  {
    s == "" || (Utf8Width(s) > 0 && IsUtf8(s[Utf8Width(s)..]))
  }

  lemma {:induction false} AsciiIsUtf8(s: string)
    requires forall i :: 0 <= i < |s| ==> s[i] as int < 0x80
    ensures IsUtf8(s)
  {
    if s != "" {
      AsciiIsUtf8(s[1..]);
    }
  }

  /** How many bytes one replacement stands for, at a place where no character starts. */
  function BadLength(s: string): (n: nat)
    requires s != ""
    ensures 1 <= n <= |s|
  {
    var b := s[0] as int;
    if |s| < 2 || !Cont(s[1]) then 1
    else if 0xE0 <= b <= 0xEF then
      if (b == 0xE0 && (s[1] as int) < 0xA0) || (b == 0xED && s[1] as int > 0x9F) then 1 else 2
    else if 0xF0 <= b <= 0xF4 then
      if (b == 0xF0 && (s[1] as int) < 0x90) || (b == 0xF4 && s[1] as int > 0x8F) then 1
      else if |s| < 3 || !Cont(s[2]) then 2
      else 3
    else 1
  }

  /** U+FFFD in UTF-8. */
  const REPLACEMENT: string := [0xEF as char, 0xBF as char, 0xBD as char]

  /** `String::from_utf8_lossy`. */
  function Lossy(s: string): (t: string)
    decreases |s|
  {
    if s == "" then ""
    else if Utf8Width(s) > 0 then s[..Utf8Width(s)] + Lossy(s[Utf8Width(s)..])
    else REPLACEMENT + Lossy(s[BadLength(s)..])
  }

  lemma {:induction false} LossyKeeps(s: string)
    requires IsUtf8(s)
    ensures Lossy(s) == s
    decreases |s|
  {
    if s != "" {
      var n := Utf8Width(s);
      LossyKeeps(s[n..]);
      assert s[..n] + s[n..] == s;
    }
  }

  lemma WidthOfHead(head: string, t: string)
    requires head != "" && Utf8Width(head) == |head|
    ensures Utf8Width(head + t) == |head|
  {
    var s := head + t;
    assert forall i :: 0 <= i < |head| ==> s[i] == head[i];
  }

  lemma Utf8Cons(head: string, t: string)
    requires head != "" && Utf8Width(head) == |head| && IsUtf8(t)
    ensures IsUtf8(head + t)
  {
    WidthOfHead(head, t);
    assert (head + t)[|head|..] == t;
  }

  lemma WidthOfPrefix(s: string)
    requires s != "" && Utf8Width(s) > 0
    ensures Utf8Width(s[..Utf8Width(s)]) == Utf8Width(s)
  {
    var head := s[..Utf8Width(s)];
    assert forall i :: 0 <= i < |head| ==> head[i] == s[i];
  }

  lemma {:induction false} LossyIsUtf8(s: string)
    ensures IsUtf8(Lossy(s))
    decreases |s|
  {
    if s != "" {
      if Utf8Width(s) > 0 {
        WidthOfPrefix(s);
        LossyIsUtf8(s[Utf8Width(s)..]);
        Utf8Cons(s[..Utf8Width(s)], Lossy(s[Utf8Width(s)..]));
      } else {
        LossyIsUtf8(s[BadLength(s)..]);
        assert Utf8Width(REPLACEMENT) == 3;
        Utf8Cons(REPLACEMENT, Lossy(s[BadLength(s)..]));
      }
    }
  }

  /** The conversion leaves exactly the UTF-8 strings as they are. */
  lemma LossyKeepsIff(s: string)
    ensures Lossy(s) == s <==> IsUtf8(s)
  {
    LossyIsUtf8(s);
    if IsUtf8(s) {
      LossyKeeps(s);
    }
  }

  /** A conversion is at most three times as long, and empty only for nothing. */
  lemma {:induction false} LossyLength(s: string)
    ensures |Lossy(s)| <= 3 * |s| && (Lossy(s) == "" <==> s == "")
    decreases |s|
  {
    if s != "" {
      LossyLength(s[if Utf8Width(s) > 0 then Utf8Width(s) else BadLength(s)..]);
    }
  }

  /** `t` is `s` cut in front of a dot. */
  ghost predicate CutAtDot(t: string, s: string)
  {
    t <= s && (|t| < |s| ==> s[|t|] == '.') && '.' !in t
  }

  lemma CutStep(t: string, s: string)
    requires CutAtDot(t, s) && t != ""
    ensures Utf8Width(t) == Utf8Width(s) && (Utf8Width(s) == 0 ==> BadLength(t) == BadLength(s))
  {
    assert forall i :: 0 <= i < |t| ==> t[i] == s[i];
  }

  /** Cutting and converting can be exchanged. */
  lemma {:induction false} LossyCut(t: string, s: string)
    requires CutAtDot(t, s)
    ensures CutAtDot(Lossy(t), Lossy(s))
    decreases |t|
  {
    if t == "" {
      if s != "" {
        assert Utf8Width(s) == 1;
      }
    } else {
      CutStep(t, s);
      var n := if Utf8Width(s) > 0 then Utf8Width(s) else BadLength(s);
      CutRest(t, s, n);
      LossyCut(t[n..], s[n..]);
      var head := if Utf8Width(s) > 0 then s[..n] else REPLACEMENT;
      CutBehind(head, Lossy(t[n..]), Lossy(s[n..]));
    }
  }

  lemma CutRest(t: string, s: string, n: nat)
    requires CutAtDot(t, s) && n <= |t|
    ensures CutAtDot(t[n..], s[n..]) && t[..n] == s[..n] && '.' !in s[..n]
  {
    assert forall i :: 0 <= i < |t| ==> t[i] == s[i];
  }

  lemma CutBehind(head: string, t: string, s: string)
    requires CutAtDot(t, s) && '.' !in head
    ensures CutAtDot(head + t, head + s)
  {
    assert (head + s)[..|head + t|] == head + s[..|t|];
  }

  lemma CutIs(t: string, s: string)
    requires CutAtDot(t, s)
    ensures s[..IndexOf(s, '.')] == t
  {
    assert |t| < |s| ==> s[|t|] == '.';
    assert forall i :: 0 <= i < |t| ==> t[i] == s[i];
    assert IndexOf(s, '.') == |t|;
  }

  ghost predicate ReplacementAt(s: string, i: nat)
  {
    i + 3 <= |s| && s[i] == REPLACEMENT[0] && s[i + 1] == REPLACEMENT[1] && s[i + 2] == REPLACEMENT[2]
  }

  ghost predicate HoldsReplacement(s: string)
  {
    exists i: nat :: ReplacementAt(s, i)
  }

  /** Text without replacement characters is the conversion of itself only. */
  lemma {:induction false} LossyPlain(s: string)
    requires !HoldsReplacement(Lossy(s))
    ensures Lossy(s) == s
    decreases |s|
  {
    if s != "" {
      if Utf8Width(s) > 0 {
        var n := Utf8Width(s);
        NotBehind(s[..n], Lossy(s[n..]));
        LossyPlain(s[n..]);
        assert s[..n] + s[n..] == s;
      } else {
        assert ReplacementAt(Lossy(s), 0);
      }
    }
  }

  lemma NotBehind(head: string, t: string)
    requires !HoldsReplacement(head + t)
    ensures !HoldsReplacement(t)
  {
    if HoldsReplacement(t) {
      var i: nat :| ReplacementAt(t, i);
      assert ReplacementAt(head + t, |head| + i);
    }
  }
}
