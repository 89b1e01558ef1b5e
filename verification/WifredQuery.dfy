/** The query strings of the WiFred configuration page: how they are written and read. */
module WifredQuery {
  import opened Prelude
  import opened Text
  import opened WifredConfig
  import Percent

  /** The parameters the device knows. */
  datatype Key =
    | ThrottleName
    | SelectLoco | Address | Mode | Direction | LongAddress
    | ServerName | ServerPort | Automatic
    | Remove | WifiSsid | WifiKey
    | Function(index: U8)
    | Unknown

  function KeyName(k: Key): (name: string)
  {
    match k
    case ThrottleName => "throttleName"
    case SelectLoco => "loco"
    case Address => "loco.address"
    case Mode => "loco.mode"
    case Direction => "loco.direction"
    case LongAddress => "loco.longAddress"
    case ServerName => "loco.serverName"
    case ServerPort => "loco.serverPort"
    case Automatic => "loco.automatic"
    case Remove => "remove"
    case WifiSsid => "wifiSSID"
    case WifiKey => "wifiKEY"
    case Function(index) => "f" + Decimal(index)
    case Unknown => ""
  }

  /** `is_function_key`. */
  predicate IsFunctionKey(name: string)
  {
    |name| > 1 && name[0] == 'f' && DigitsValue(name[1..]).Some?
  }

  /** How `apply_query` dispatches on a decoded key. */
  function KeyOf(name: string): (k: Key)
  {
    if name == "throttleName" then ThrottleName
    else if name == "loco" then SelectLoco
    else if name == "loco.address" then Address
    else if name == "loco.mode" then Mode
    else if name == "loco.direction" then Direction
    else if name == "loco.longAddress" then LongAddress
    else if name == "loco.serverName" then ServerName
    else if name == "loco.serverPort" then ServerPort
    else if name == "loco.automatic" then Automatic
    else if name == "remove" then Remove
    else if name == "wifiSSID" then WifiSsid
    else if name == "wifiKEY" then WifiKey
    else if IsFunctionKey(name) then
      var n := ParseUnsigned(name[1..], 0x100);
      Function(if n.Some? then n.value else 0)
    else Unknown
  }

  lemma KeyOfFunction(index: U8)
    ensures KeyOf("f" + Decimal(index)) == Function(index)
  {
    var name := "f" + Decimal(index);
    assert name[0] == 'f';
    assert "throttleName"[0] == 't' && "loco"[0] == 'l' && "loco.address"[0] == 'l' && "loco.mode"[0] == 'l';
    assert "loco.direction"[0] == 'l' && "loco.longAddress"[0] == 'l' && "loco.serverName"[0] == 'l';
    assert "loco.serverPort"[0] == 'l' && "loco.automatic"[0] == 'l' && "remove"[0] == 'r';
    assert "wifiSSID"[0] == 'w' && "wifiKEY"[0] == 'w';
    assert name[1..] == Decimal(index);
    DigitsValueOfDecimal(index);
    ParseUnsignedRoundTrip(index, 0x100);
  }

  /** The device recognises every parameter the driver writes. */
  lemma KeyOfName(k: Key)
    requires !k.Unknown?
    ensures KeyOf(KeyName(k)) == k
  {
    if k.Function? {
      KeyOfFunction(k.index);
    } else {
      assert "throttleName"[0] != "loco.address"[0];
      assert "loco.direction"[5] != "loco.automatic"[5];
      assert "loco.serverName"[11] != "loco.serverPort"[11];
    }
  }

  predicate KeyChar(c: char)
  {
    c != '&' && c != '=' && Percent.PlainChar(c)
  }

  lemma {:induction false} KeyCharsIn(s: string)
    requires s == "" || (KeyChar(s[0]) && forall i :: 0 <= i < |s[1..]| ==> KeyChar(s[1..][i]))
    ensures forall i :: 0 <= i < |s| ==> KeyChar(s[i])
  {
    forall i | 0 <= i < |s| ensures KeyChar(s[i]) {
      if i > 0 { assert s[1..][i - 1] == s[i]; }
    }
  }

  lemma FunctionKeyChars(index: U8)
    ensures var n := "f" + Decimal(index); forall i :: 0 <= i < |n| ==> KeyChar(n[i])
  {
    assert AllDigits(Decimal(index));
    assert ("f" + Decimal(index))[1..] == Decimal(index);
    KeyCharsIn("f" + Decimal(index));
  }

  lemma LocoKeyChars()
    ensures forall i :: 0 <= i < |"loco.address"| ==> KeyChar("loco.address"[i])
    ensures forall i :: 0 <= i < |"loco.mode"| ==> KeyChar("loco.mode"[i])
    ensures forall i :: 0 <= i < |"loco.direction"| ==> KeyChar("loco.direction"[i])
    ensures forall i :: 0 <= i < |"loco.longAddress"| ==> KeyChar("loco.longAddress"[i])
  {
  }

  lemma ServerKeyChars()
    ensures forall i :: 0 <= i < |"loco.serverName"| ==> KeyChar("loco.serverName"[i])
    ensures forall i :: 0 <= i < |"loco.serverPort"| ==> KeyChar("loco.serverPort"[i])
    ensures forall i :: 0 <= i < |"loco.automatic"| ==> KeyChar("loco.automatic"[i])
  {
  }

  lemma OtherKeyChars()
    ensures forall i :: 0 <= i < |"throttleName"| ==> KeyChar("throttleName"[i])
    ensures forall i :: 0 <= i < |"loco"| ==> KeyChar("loco"[i])
    ensures forall i :: 0 <= i < |"remove"| ==> KeyChar("remove"[i])
    ensures forall i :: 0 <= i < |"wifiSSID"| ==> KeyChar("wifiSSID"[i])
    ensures forall i :: 0 <= i < |"wifiKEY"| ==> KeyChar("wifiKEY"[i])
  {
  }

  /** Names hold no separator of a query and nothing to decode. */
  lemma KeyChars(k: Key)
    ensures var n := KeyName(k); forall i :: 0 <= i < |n| ==> KeyChar(n[i])
  {
    if k.Function? {
      FunctionKeyChars(k.index);
    } else if k.Address? || k.Mode? || k.Direction? || k.LongAddress? {
      LocoKeyChars();
    } else if k.ServerName? || k.ServerPort? || k.Automatic? {
      ServerKeyChars();
    } else {
      OtherKeyChars();
    }
  }

  // ----- writing -------------------------------------------------------------------

  /** One parameter; `raw` is the text after the `=`. */
  datatype Field = Field(key: Key, raw: string)

  ghost predicate ValidField(f: Field)
  {
    !f.key.Unknown? && '&' !in f.raw
  }

  function FieldText(f: Field): (s: string)
    ensures s != ""
  {
    KeyName(f.key) + "=" + f.raw
  }

  function FieldTexts(fields: seq<Field>): (texts: seq<string>)
    ensures |texts| == |fields|
    ensures forall i :: 0 <= i < |texts| ==> texts[i] == FieldText(fields[i])
  {
    seq(|fields|, i requires 0 <= i < |fields| => FieldText(fields[i]))
  }

  function Query(fields: seq<Field>): (q: string)
  {
    Join(FieldTexts(fields), '&')
  }

  // ----- reading ---------------------------------------------------------------------

  /** A decoded parameter. */
  datatype Pair = Pair(key: Key, value: string)

  function PairOf(part: string): (p: Pair)
  {
    match SplitOnce(part, '=')
    case Some((k, v)) => Pair(KeyOf(Percent.DecodeText(k)), Percent.DecodeText(v))
    case None => Pair(KeyOf(Percent.DecodeText(part)), Percent.DecodeText(""))
  }

  function PairsOf(parts: seq<string>): (pairs: seq<Pair>)
  {
    if parts == [] then []
    else if parts[0] == "" then PairsOf(parts[1..])
    else [PairOf(parts[0])] + PairsOf(parts[1..])
  }

  function Meaning(f: Field): Pair
  {
    Pair(f.key, Percent.DecodeText(f.raw))
  }

  function Meanings(fields: seq<Field>): (pairs: seq<Pair>)
  {
    if fields == [] then [] else [Meaning(fields[0])] + Meanings(fields[1..])
  }

  lemma PairOfField(f: Field)
    requires ValidField(f)
    ensures PairOf(FieldText(f)) == Meaning(f)
  {
    KeyChars(f.key);
    KeyOfName(f.key);
    Percent.DecodePlain(KeyName(f.key));
    SplitOnceAt(KeyName(f.key), '=', f.raw);
  }

  lemma {:induction false} PairsOfFields(fields: seq<Field>)
    requires forall i :: 0 <= i < |fields| ==> ValidField(fields[i])
    ensures PairsOf(FieldTexts(fields)) == Meanings(fields)
  {
    if fields != [] {
      var texts := FieldTexts(fields);
      assert ValidField(fields[0]);
      PairOfField(fields[0]);
      assert texts[1..] == FieldTexts(fields[1..]);
      PairsOfFields(fields[1..]);
    }
  }

  lemma NoAmpersand(f: Field)
    requires ValidField(f)
    ensures '&' !in FieldText(f)
  {
    KeyChars(f.key);
  }

  /** The device reads from a query exactly the parameters that were written into it. */
  lemma QueryRoundTrip(fields: seq<Field>)
    requires fields != [] && forall i :: 0 <= i < |fields| ==> ValidField(fields[i])
    ensures PairsOf(Split(Query(fields), '&')) == Meanings(fields)
  {
    forall i | 0 <= i < |fields| ensures '&' !in FieldTexts(fields)[i] {
      assert ValidField(fields[i]);
      NoAmpersand(fields[i]);
    }
    SplitJoin(FieldTexts(fields), '&');
    PairsOfFields(fields);
  }
}
