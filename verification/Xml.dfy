/** Escaping of attribute values (`xml_escape`) and its inverse. */
module Xml {
  import opened Prelude
  import opened Text

  // ----- escaping ---------------------------------------------------------------

  function EscapeChar(c: char): (e: string)
    ensures e != ""
  {
    match c
    case '&' => "&amp;"
    case '<' => "&lt;"
    case '>' => "&gt;"
    case '"' => "&quot;"
    case '\'' => "&apos;"
    case _ => [c]
  }

  function Escape(s: string): (e: string)
  {
    if s == "" then "" else EscapeChar(s[0]) + Escape(s[1..])
  }

  lemma EscapeTurn(s: string, i: nat, out: string)
    requires i < |s|
    ensures out + Escape(s[i..]) == (out + EscapeChar(s[i])) + Escape(s[i + 1..])
  {
    assert s[i..][0] == s[i] && s[i..][1..] == s[i + 1..];
    Assoc(out, EscapeChar(s[i]), Escape(s[i + 1..]));
  }

  /** `xml_escape`. */
  method XmlEscape(s: string) returns (out: string)
    ensures out == Escape(s)
  {
    out := "";
    var i := 0;
    assert s[0..] == s;
    while i < |s|
      invariant 0 <= i <= |s|
      invariant out + Escape(s[i..]) == Escape(s)
    {
      EscapeTurn(s, i, out);
      match s[i] {
        case '&' => out := out + "&amp;";
        case '<' => out := out + "&lt;";
        case '>' => out := out + "&gt;";
        case '"' => out := out + "&quot;";
        case '\'' => out := out + "&apos;";
        case _ => out := out + [s[i]];
      }
      i := i + 1;
    }
    assert out + "" == out;
  }

  /** The char an entity name stands for. */
  function Entity(name: string): (c: Option<char>)
  {
    if name == "amp" then Some('&')
    else if name == "lt" then Some('<')
    else if name == "gt" then Some('>')
    else if name == "quot" then Some('"')
    else if name == "apos" then Some('\'')
    else None
  }

  /** Attribute value as the reader returns it; `None` for a reference it cannot resolve. */
  function Unescape(s: string): (r: Option<string>)
    decreases |s|
  {
    if s == "" then Some("")
    else if s[0] != '&' then Put(s[0], Unescape(s[1..]))
    else
      var end := IndexOf(s, ';');
      if end == |s| then None
      else
        match Entity(s[1..end])
        case None => None
        case Some(c) => Put(c, Unescape(s[end + 1..]))
  }

  function Put(c: char, r: Option<string>): Option<string>
  {
    match r
    case None => None
    case Some(t) => Some([c] + t)
  }

  lemma UnescapeEntity(name: string, c: char, t: string)
    requires ';' !in name && Entity(name) == Some(c)
    ensures Unescape("&" + name + ";" + t) == Put(c, Unescape(t))
  {
    var s := "&" + name + ";" + t;
    var a := "&" + name;
    assert s == a + [';'] + t;
    IndexOfPrefix(a, ';', t);
    assert s[1..|a|] == name && s[|a| + 1..] == t;
  }

  lemma UnescapeChar(c: char, t: string)
    ensures Unescape(EscapeChar(c) + t) == Put(c, Unescape(t))
  {
    match c
    case '&' => assert "&amp;" == "&" + "amp" + ";"; UnescapeEntity("amp", c, t);
    case '<' => assert "&lt;" == "&" + "lt" + ";"; UnescapeEntity("lt", c, t);
    case '>' => assert "&gt;" == "&" + "gt" + ";"; UnescapeEntity("gt", c, t);
    case '"' => assert "&quot;" == "&" + "quot" + ";"; UnescapeEntity("quot", c, t);
    case '\'' => assert "&apos;" == "&" + "apos" + ";"; UnescapeEntity("apos", c, t);
    case _ =>
      var s := EscapeChar(c) + t;
      assert s[0] == c && s[1..] == t;
  }

  /** The reader gives back every string the printer escapes. */
  lemma {:induction false} UnescapeEscape(s: string)
    ensures Unescape(Escape(s)) == Some(s)
  {
    if s != "" {
      UnescapeEscape(s[1..]);
      UnescapeChar(s[0], Escape(s[1..]));
      assert [s[0]] + s[1..] == s;
    }
  }

  /** Text with nothing to escape is printed as it is. */
  lemma {:induction false} EscapePlain(s: string)
    requires forall i :: 0 <= i < |s| ==> EscapeChar(s[i]) == [s[i]]
    ensures Escape(s) == s
  {
    if s != "" {
      EscapePlain(s[1..]);
      assert [s[0]] + s[1..] == s;
    }
  }
}
