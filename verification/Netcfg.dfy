/**
 Policy routing in the kernel: the rule list, how a flow resolves, the `ip` commands
 and the listing that `parse_local_pref` reads. Which commands fail is a parameter.
 */
module Netcfg {
  import opened Prelude
  import opened Text

  /** An IPv4 address as a number. */
  type Addr = nat

  const LOCAL_TABLE: nat := 255
  const SOFTAP_TABLE: nat := 100

  /** Which flows a rule applies to; `Other` stands for selectors this program never writes. */
  datatype Selector = All | Pair(src: Addr, dst: Addr) | Other(tag: nat)

  datatype Rule = Rule(pref: nat, sel: Selector, table: nat)

  datatype Route = Route(dev: string, src: Addr)

  /** `from all lookup local` where the kernel keeps it, and where it is parked. */
  const LOCAL_RULE := Rule(0, All, LOCAL_TABLE)
  const PARKED_RULE := Rule(1, All, LOCAL_TABLE)

  function ExceptionRule(source: Addr, host: Addr): (r: Rule)
  {
    Rule(0, Pair(source, host), SOFTAP_TABLE)
  }

  // ----- fib lookup -----------------------------------------------------------

  /** The rest of the host: foreign selectors and every table but the exception table. */
  datatype World = World(applies: (nat, Addr, Addr) -> bool, routes: (nat, Addr) -> Option<Route>)

  ghost function Lookup(w: World, softap: map<Addr, Route>, table: nat, dst: Addr): (r: Option<Route>)
  {
    if table == SOFTAP_TABLE then (if dst in softap then Some(softap[dst]) else None) else w.routes(table, dst)
  }

  ghost predicate Applies(w: World, sel: Selector, src: Addr, dst: Addr)
  {
    match sel
    case All => true
    case Pair(s, d) => s == src && d == dst
    case Other(tag) => w.applies(tag, src, dst)
  }

  /** The first applicable rule whose table has a route decides. */
  ghost function Resolve(w: World, softap: map<Addr, Route>, rules: seq<Rule>, src: Addr, dst: Addr): (r: Option<Route>)
  {
    if rules == [] then None
    else if Applies(w, rules[0].sel, src, dst) && Lookup(w, softap, rules[0].table, dst).Some?
    then Lookup(w, softap, rules[0].table, dst)
    else Resolve(w, softap, rules[1..], src, dst)
  }

  // ----- ip commands ------------------------------------------------------------

  datatype Command =
    | RouteReplace(dst: Addr, dev: string, src: Addr)
    | RuleAdd(rule: Rule)
    | RuleDel(pref: nat, sel: Option<Selector>, table: nat)
    | FlushTable

  datatype Reply = Done | Exists | Failed

  datatype Kernel = Kernel(rules: seq<Rule>, softap: map<Addr, Route>)

  /** A new rule goes behind the rules of its own and of smaller preference. */
  function Insert(rules: seq<Rule>, r: Rule): (rules': seq<Rule>)
  {
    if rules == [] || rules[0].pref > r.pref then [r] + rules else [rules[0]] + Insert(rules[1..], r)
  }

  predicate Selects(pref: nat, sel: Option<Selector>, table: nat, r: Rule)
  {
    r.pref == pref && r.table == table && (sel.Some? ==> r.sel == sel.value)
  }

  /** Delete the first rule that has the given attributes. */
  function Delete(rules: seq<Rule>, pref: nat, sel: Option<Selector>, table: nat): (rules': seq<Rule>)
  {
    if rules == [] then []
    else if Selects(pref, sel, table, rules[0]) then rules[1..]
    else [rules[0]] + Delete(rules[1..], pref, sel, table)
  }

  function Exec(k: Kernel, c: Command): (out: (Kernel, Reply))
  {
    match c
    case RouteReplace(dst, dev, src) => (k.(softap := k.softap[dst := Route(dev, src)]), Done)
    case RuleAdd(r) => if r in k.rules then (k, Exists) else (k.(rules := Insert(k.rules, r)), Done)
    case RuleDel(pref, sel, table) =>
      var rules' := Delete(k.rules, pref, sel, table);
      if rules' == k.rules then (k, Failed) else (k.(rules := rules'), Done)
    case FlushTable => (k.(softap := map[]), Done)
  }

  // ----- reading the rule list ----------------------------------------------------

  function TableName(t: nat): (s: string)
  {
    if t == 255 then "local" else if t == 254 then "main" else if t == 253 then "default" else Decimal(t)
  }

  /** One line of `ip -4 rule list`; `from` prints the selectors other than `from all`. */
  function RuleLine(r: Rule, from: Selector -> string): (s: string)
  {
    Decimal(r.pref) + [':'] + ("\tfrom " + (if r.sel.All? then "all" else from(r.sel)) + " ") + ("lookup " + TableName(r.table))
  }

  function RuleList(rules: seq<Rule>, from: Selector -> string): (s: string)
  {
    if rules == [] then "" else RuleLine(rules[0], from) + ['\n'] + RuleList(rules[1..], from)
  }

  predicate Contains(s: string, sub: string)
  {
    sub <= s || (s != "" && Contains(s[1..], sub))
  }

  function FindLocalPref(lines: seq<string>): (p: Option<nat>)
  {
    if lines == [] then None
    else
      var line := Trim(lines[0]);
      if Contains(line, "lookup local") || Contains(line, "lookup 255")
      then ParseUnsigned(Trim(Split(line, ':')[0]), 0x1_0000_0000)
      else FindLocalPref(lines[1..])
  }

  /** Preference of the first `lookup local` rule in the listing. */
  function ParseLocalPref(text: string): (p: Option<nat>)
  {
    FindLocalPref(Split(text, '\n'))
  }

  // ----- what the parser finds in a listing ----------------------------------------

  predicate OccursAt(s: string, sub: string, i: nat)
  {
    i + |sub| <= |s| && s[i..i + |sub|] == sub
  }

  lemma {:induction false} ContainsAt(s: string, sub: string, i: nat)
    requires OccursAt(s, sub, i)
    ensures Contains(s, sub)
  {
    if i > 0 {
      assert s[1..][i - 1..i - 1 + |sub|] == sub;
      ContainsAt(s[1..], sub, i - 1);
    }
  }

  lemma {:induction false} ContainsMeans(s: string, sub: string)
    requires Contains(s, sub)
    ensures exists i: nat :: OccursAt(s, sub, i)
  {
    if sub <= s {
      assert OccursAt(s, sub, 0);
    } else {
      ContainsMeans(s[1..], sub);
      var i: nat :| OccursAt(s[1..], sub, i);
      assert s[i + 1..i + 1 + |sub|] == s[1..][i..i + |sub|];
      assert OccursAt(s, sub, i + 1);
    }
  }

  /** Tables the parser takes for the local one: their name starts with `local` or `255`. */
  predicate ReadsLocal(t: nat)
  {
    t == LOCAL_TABLE || (t != 254 && t != 253 && "255" <= Decimal(t))
  }

  /** A printer of selectors whose text stays on its line and does not hold the word `lookup`. */
  ghost predicate PlainPrinter(rules: seq<Rule>, from: Selector -> string)
  {
    forall i :: 0 <= i < |rules| ==> PlainText(from(rules[i].sel))
  }

  ghost predicate PlainText(s: string)
  {
    '\n' !in s && !Contains(s, "lookup")
  }

  function SelText(r: Rule, from: Selector -> string): (s: string)
  {
    if r.sel.All? then "all" else from(r.sel)
  }

  /** Preference of the first rule the parser takes for `lookup local`. */
  function FirstLocal(rules: seq<Rule>): (p: Option<nat>)
  {
    if rules == [] then None
    else if ReadsLocal(rules[0].table) then (if rules[0].pref < 0x1_0000_0000 then Some(rules[0].pref) else None)
    else FirstLocal(rules[1..])
  }

  /** No char of the text in front of the selector, or of a table name, is a `k`. */
  lemma NoK(pref: nat, table: nat)
    ensures 'k' !in Decimal(pref) + ":\tfrom " && 'k' !in TableName(table)
  {
    assert AllDigits(Decimal(pref)) && AllDigits(Decimal(table));
  }

  lemma LookupChars(line: string, i: nat)
    requires OccursAt(line, "lookup", i)
    ensures line[i + 3] == 'k' && forall j :: i <= j < i + 6 ==> line[j] != ' '
  {
    var w := "lookup";
    assert w[0] == 'l' && w[1] == 'o' && w[2] == 'o' && w[3] == 'k' && w[4] == 'u' && w[5] == 'p';
    assert forall j :: i <= j < i + 6 ==> line[j] == line[i..i + 6][j - i];
  }

  /** The word `lookup` stands only in front of the table name. */
  lemma LookupPlace(line: string, a: nat, b: nat, i: nat)
    requires 0 < a <= b && b + 8 <= |line| && line[a - 1] == ' ' && line[b..b + 8] == " lookup "
    requires forall j :: 0 <= j < a || b + 8 <= j < |line| ==> line[j] != 'k'
    requires forall j: nat :: a <= j && j + 6 <= b ==> !OccursAt(line, "lookup", j)
    requires OccursAt(line, "lookup", i)
    ensures i == b + 1
  {
    LookupChars(line, i);
    assert line[b] == line[b..b + 8][0] == ' ';
    LookupK(line, b, i + 3);
  }

  lemma OccursInside(head: string, sel: string, tail: string)
    requires !Contains(sel, "lookup")
    ensures forall j: nat :: |head| <= j && j + 6 <= |head| + |sel| ==> !OccursAt(head + sel + tail, "lookup", j)
  {
    var line := head + sel + tail;
    forall j: nat | |head| <= j && j + 6 <= |head| + |sel| ensures !OccursAt(line, "lookup", j) {
      assert line[j..j + 6] == sel[j - |head|..j - |head| + 6];
      if OccursAt(sel, "lookup", j - |head|) {
        ContainsAt(sel, "lookup", j - |head|);
      }
    }
  }

  lemma NoKOutside(head: string, sel: string, name: string)
    requires 'k' !in head && 'k' !in name
    ensures var line, b := head + sel + " lookup " + name, |head| + |sel|;
            |line| == b + 8 + |name| && forall j :: 0 <= j < |head| || b + 8 <= j < |line| ==> line[j] != 'k'
  {
    var line, b := head + sel + " lookup " + name, |head| + |sel|;
    forall j | 0 <= j < |head| || b + 8 <= j < |line| ensures line[j] != 'k' {
      if j < |head| {
        assert line[j] == head[j];
      } else {
        assert line[j] == name[j - b - 8];
      }
    }
  }

  lemma Marks(head: string, sel: string, name: string)
    requires head != ""
    ensures var line, b := head + sel + " lookup " + name, |head| + |sel|;
            b + 8 <= |line| && line[|head| - 1] == head[|head| - 1] && line[b..b + 8] == " lookup "
  {
  }

  lemma PlaceInLine(head: string, sel: string, name: string, line: string, i: nat)
    requires 'k' !in head && 'k' !in name && head != "" && head[|head| - 1] == ' ' && !Contains(sel, "lookup")
    requires line == head + sel + " lookup " + name && OccursAt(line, "lookup", i)
    ensures i == |head| + |sel| + 1
  {
    NoKOutside(head, sel, name);
    Marks(head, sel, name);
    Assoc(head + sel, " lookup ", name);
    OccursInside(head, sel, " lookup " + name);
    LookupPlace(line, |head|, |head| + |sel|, i);
  }

  lemma LookupK(line: string, b: nat, p: nat)
    requires b + 8 <= |line| && line[b..b + 8] == " lookup "
    ensures b <= p < b + 8 && line[p] == 'k' ==> p == b + 4
  {
    var w := " lookup ";
    assert b <= p < b + 8 ==> line[p] == line[b..b + 8][p - b];
    assert w[0] == ' ' && w[1] == 'l' && w[2] == 'o' && w[3] == 'o' && w[5] == 'u' && w[6] == 'p' && w[7] == ' ';
  }

  lemma OccursHere(line: string, at: nat, name: string, word: string)
    requires at <= |line| && line[at..] == "lookup " + name
    ensures OccursAt(line, "lookup " + word, at) <==> word <= name
  {
    var tail := line[at..];
    if |word| <= |name| {
      assert line[at..at + 7 + |word|] == tail[..7 + |word|] == "lookup " + name[..|word|];
      assert ("lookup " + word)[7..] == word && ("lookup " + name[..|word|])[7..] == name[..|word|];
    } else {
      assert |line| == at + 7 + |name|;
    }
  }

  lemma OccursWord(line: string, word: string, i: nat)
    requires OccursAt(line, "lookup " + word, i)
    ensures OccursAt(line, "lookup", i)
  {
    assert line[i..i + 6] == line[i..i + 7 + |word|][..6] == ("lookup " + word)[..6] == "lookup";
  }

  lemma LookupFound(head: string, sel: string, name: string, word: string, line: string)
    requires 'k' !in head && 'k' !in name && head != "" && head[|head| - 1] == ' ' && !Contains(sel, "lookup")
    requires line == head + sel + " lookup " + name
    ensures Contains(line, "lookup " + word) <==> word <= name
  {
    var at := |head| + |sel| + 1;
    assert line[at..] == "lookup " + name;
    OccursHere(line, at, name, word);
    if word <= name {
      ContainsAt(line, "lookup " + word, at);
    } else if Contains(line, "lookup " + word) {
      ContainsMeans(line, "lookup " + word);
      var i: nat :| OccursAt(line, "lookup " + word, i);
      OccursWord(line, word, i);
      PlaceInLine(head, sel, name, line, i);
      assert false;
    }
  }

  lemma NameIsLocal(table: nat)
    ensures "local" <= TableName(table) || "255" <= TableName(table) <==> ReadsLocal(table)
  {
    var name := TableName(table);
    if table == 255 {
      assert name == "local";
    } else if table == 254 {
      assert name[0] == 'm';
    } else if table == 253 {
      assert name[0] == 'd';
    } else {
      assert IsDigit(name[0]);
    }
  }

  lemma LineShape(r: Rule, from: Selector -> string)
    ensures RuleLine(r, from) == (Decimal(r.pref) + ":\tfrom ") + SelText(r, from) + " lookup " + TableName(r.table)
  {
  }

  /** A line is taken for a local rule exactly when its table reads so. */
  lemma LineReads(r: Rule, from: Selector -> string)
    requires PlainText(from(r.sel))
    ensures var line := RuleLine(r, from);
            Contains(line, "lookup local") || Contains(line, "lookup 255") <==> ReadsLocal(r.table)
  {
    var head := Decimal(r.pref) + ":\tfrom ";
    LineShape(r, from);
    NoK(r.pref, r.table);
    AllHoldsNoLookup();
    assert "lookup " + "local" == "lookup local" && "lookup " + "255" == "lookup 255";
    LookupFound(head, SelText(r, from), TableName(r.table), "local", RuleLine(r, from));
    LookupFound(head, SelText(r, from), TableName(r.table), "255", RuleLine(r, from));
    NameIsLocal(r.table);
  }

  lemma AllHoldsNoLookup()
    ensures !Contains("all", "lookup")
  {
    if Contains("all", "lookup") {
      ContainsMeans("all", "lookup");
    }
  }

  /** The preference is what stands before the first colon. */
  lemma LinePref(r: Rule, from: Selector -> string)
    ensures Trim(RuleLine(r, from)) == RuleLine(r, from)
    ensures Split(RuleLine(r, from), ':')[0] == Decimal(r.pref)
  {
    var line, n := RuleLine(r, from), Decimal(r.pref);
    var tail := "\tfrom " + SelText(r, from) + " lookup " + TableName(r.table);
    assert line == n + [':'] + tail;
    assert AllDigits(n) && ':' !in n;
    IndexOfPrefix(n, ':', tail);
    assert line[..|n|] == n;
    NameEnd(r.table);
    assert line[0] == n[0] && line[|line| - 1] == TableName(r.table)[|TableName(r.table)| - 1];
    TrimNothing(line);
  }

  lemma NameEnd(table: nat)
    ensures var name := TableName(table); name != "" && !IsSpace(name[|name| - 1]) && '\n' !in name
  {
    assert AllDigits(Decimal(table));
    if table != 255 && table != 254 && table != 253 {
      var d := Decimal(table);
      assert IsDigit(d[|d| - 1]);
    }
  }

  lemma LineIsOne(r: Rule, from: Selector -> string)
    requires PlainText(from(r.sel))
    ensures '\n' !in RuleLine(r, from)
  {
    LineShape(r, from);
    NameEnd(r.table);
    assert AllDigits(Decimal(r.pref));
  }

  lemma PrefRead(pref: nat)
    ensures ParseUnsigned(Trim(Decimal(pref)), 0x1_0000_0000) == if pref < 0x1_0000_0000 then Some(pref) else None
  {
    TrimDecimal(pref);
    ParseUnsignedRoundTrip(pref, 0x1_0000_0000);
  }

  lemma FindNext(r: Rule, from: Selector -> string, lines: seq<string>)
    requires PlainText(from(r.sel))
    ensures FindLocalPref([RuleLine(r, from)] + lines) ==
            if ReadsLocal(r.table) then (if r.pref < 0x1_0000_0000 then Some(r.pref) else None) else FindLocalPref(lines)
  {
    var all := [RuleLine(r, from)] + lines;
    assert all[0] == RuleLine(r, from) && all[1..] == lines;
    LineReads(r, from);
    LinePref(r, from);
    PrefRead(r.pref);
  }

  lemma SplitLine(line: string, rest: string)
    requires '\n' !in line
    ensures Split(line + ['\n'] + rest, '\n') == [line] + Split(rest, '\n')
  {
    IndexOfPrefix(line, '\n', rest);
    var s := line + ['\n'] + rest;
    assert s[..|line|] == line && s[|line| + 1..] == rest;
  }

  lemma NothingListed()
    ensures ParseLocalPref("") == None
  {
    assert Split("", '\n') == [""];
    assert Trim("") == "";
    assert !Contains("", "lookup local") && !Contains("", "lookup 255");
    assert FindLocalPref([""]) == FindLocalPref([]);
  }

  /** In any listing the parser finds the preference of the first rule whose table reads as local. */
  lemma {:induction false} FirstLocalFound(rules: seq<Rule>, from: Selector -> string)
    requires PlainPrinter(rules, from)
    ensures ParseLocalPref(RuleList(rules, from)) == FirstLocal(rules)
  {
    if rules == [] {
      NothingListed();
    } else {
      assert PlainText(from(rules[0].sel));
      FirstLocalFound(rules[1..], from);
      LineIsOne(rules[0], from);
      SplitLine(RuleLine(rules[0], from), RuleList(rules[1..], from));
      FindNext(rules[0], from, Split(RuleList(rules[1..], from), '\n'));
    }
  }

  /** Preference of the first rule that does look up the local table. */
  function TrueLocal(rules: seq<Rule>): (p: Option<nat>)
  {
    if rules == [] then None else if rules[0].table == LOCAL_TABLE then Some(rules[0].pref) else TrueLocal(rules[1..])
  }

  /** Some rule in front of the first local one uses a table such as 2550, whose number starts with 255. */
  predicate Confusing(rules: seq<Rule>)
  {
    rules != [] && rules[0].table != LOCAL_TABLE && (ReadsLocal(rules[0].table) || Confusing(rules[1..]))
  }

  /** Rule `i` is the first whose table reads as local, and it is not. */
  ghost predicate Misread(rules: seq<Rule>, i: nat)
  {
    && i < |rules| && rules[i].table != LOCAL_TABLE && ReadsLocal(rules[i].table)
    && forall j :: 0 <= j < i ==> !ReadsLocal(rules[j].table)
  }

  /** No other rule stands in front of a local rule of the same preference. */
  ghost predicate LocalsApart(rules: seq<Rule>)
  {
    forall i, j :: 0 <= i < j < |rules| && rules[i].table != LOCAL_TABLE && rules[j].table == LOCAL_TABLE ==>
      rules[i].pref != rules[j].pref
  }

  /**
   A misread rule's preference is the answer, in place of the local rule's. So the answer is
   right exactly when no rule is misread or the misread one shares the local rule's
   preference; where preferences are not shared, exactly when the list is not confusing.
   */
  lemma LocalPrefIs(rules: seq<Rule>, from: Selector -> string)
    requires PlainPrinter(rules, from) && forall i :: 0 <= i < |rules| ==> rules[i].pref < 0x1_0000_0000
    ensures Confusing(rules) <==> exists i: nat :: Misread(rules, i)
    ensures forall i: nat :: Misread(rules, i) ==> ParseLocalPref(RuleList(rules, from)) == Some(rules[i].pref)
    ensures ParseLocalPref(RuleList(rules, from)) == TrueLocal(rules) <==>
            forall i: nat :: Misread(rules, i) ==> TrueLocal(rules) == Some(rules[i].pref)
    ensures LocalsApart(rules) ==> (ParseLocalPref(RuleList(rules, from)) == TrueLocal(rules) <==> !Confusing(rules))
  {
    FirstLocalFound(rules, from);
    FirstLocalIs(rules);
    forall i: nat | Misread(rules, i) ensures FirstLocal(rules) == Some(rules[i].pref) {
      FirstLocalAt(rules, i);
    }
    if LocalsApart(rules) && Confusing(rules) {
      var i: nat :| Misread(rules, i);
      NotTrue(rules, i);
    }
  }

  lemma {:induction false} FirstLocalIs(rules: seq<Rule>)
    requires forall i :: 0 <= i < |rules| ==> rules[i].pref < 0x1_0000_0000
    ensures !Confusing(rules) ==> FirstLocal(rules) == TrueLocal(rules) && forall i: nat :: !Misread(rules, i)
    ensures Confusing(rules) ==> exists i: nat :: Misread(rules, i)
  {
    if rules != [] {
      if rules[0].table != LOCAL_TABLE && ReadsLocal(rules[0].table) {
        assert Misread(rules, 0);
      } else if rules[0].table != LOCAL_TABLE {
        FirstLocalIs(rules[1..]);
        forall i: nat ensures Misread(rules, i) <==> i > 0 && Misread(rules[1..], i - 1) {
          MisreadNext(rules, i);
        }
        if Confusing(rules) {
          var i: nat :| Misread(rules[1..], i);
          assert Misread(rules, i + 1);
        }
      } else {
        LocalReads();
      }
    }
  }

  lemma LocalReads()
    ensures ReadsLocal(LOCAL_TABLE)
  {
  }

  lemma MisreadNext(rules: seq<Rule>, i: nat)
    requires rules != [] && !ReadsLocal(rules[0].table)
    ensures Misread(rules, i) <==> i > 0 && Misread(rules[1..], i - 1)
  {
    if i > 0 && Misread(rules[1..], i - 1) {
      forall j | 0 <= j < i ensures !ReadsLocal(rules[j].table) {
        assert j > 0 ==> rules[j] == rules[1..][j - 1];
      }
    } else if i > 0 && Misread(rules, i) {
      assert forall j :: 0 <= j < i - 1 ==> rules[1..][j] == rules[j + 1];
    }
  }

  lemma {:induction false} FirstLocalAt(rules: seq<Rule>, i: nat)
    requires Misread(rules, i) && forall j :: 0 <= j < |rules| ==> rules[j].pref < 0x1_0000_0000
    ensures FirstLocal(rules) == Some(rules[i].pref)
  {
    if i > 0 {
      MisreadNext(rules, i);
      FirstLocalAt(rules[1..], i - 1);
    }
  }

  /** The local rule found is one of those behind the misread rule. */
  lemma {:induction false} TrueLocalAt(rules: seq<Rule>, i: nat)
    requires i < |rules| && forall j :: 0 <= j <= i ==> rules[j].table != LOCAL_TABLE
    ensures TrueLocal(rules).Some? ==>
              exists j :: i < j < |rules| && rules[j].table == LOCAL_TABLE && TrueLocal(rules) == Some(rules[j].pref)
    decreases |rules| - i
  {
    if i + 1 < |rules| && rules[i + 1].table == LOCAL_TABLE {
      TrueLocalIs(rules, i + 1);
    } else if i + 1 < |rules| {
      TrueLocalAt(rules, i + 1);
    } else {
      NoTrueLocal(rules);
    }
  }

  lemma {:induction false} TrueLocalIs(rules: seq<Rule>, i: nat)
    requires i < |rules| && rules[i].table == LOCAL_TABLE && forall j :: 0 <= j < i ==> rules[j].table != LOCAL_TABLE
    ensures TrueLocal(rules) == Some(rules[i].pref)
  {
    if i > 0 {
      TrueLocalIs(rules[1..], i - 1);
    }
  }

  lemma {:induction false} NoTrueLocal(rules: seq<Rule>)
    requires forall j :: 0 <= j < |rules| ==> rules[j].table != LOCAL_TABLE
    ensures TrueLocal(rules).None?
  {
    if rules != [] {
      NoTrueLocal(rules[1..]);
    }
  }

  lemma NotTrue(rules: seq<Rule>, i: nat)
    requires Misread(rules, i) && LocalsApart(rules)
    ensures TrueLocal(rules) != Some(rules[i].pref)
  {
    forall j | 0 <= j <= i ensures rules[j].table != LOCAL_TABLE {
      LocalReads();
    }
    TrueLocalAt(rules, i);
  }

  /** Table 2550 is taken for the local one: 5 is found where the local rule is at 10. */
  lemma Table2550ReadsLocal(rules: seq<Rule>, from: Selector -> string)
    requires rules == [Rule(5, All, 2550), Rule(10, All, LOCAL_TABLE)] && PlainPrinter(rules, from)
    ensures ReadsLocal(2550) && Confusing(rules)
    ensures ParseLocalPref(RuleList(rules, from)) == Some(5) && TrueLocal(rules) == Some(10)
  {
    assert Decimal(2) == "2" && Decimal(25) == "25" && Decimal(255) == "255" && Decimal(2550) == "2550";
    assert rules[1..] == [Rule(10, All, LOCAL_TABLE)];
    FirstLocalFound(rules, from);
  }

  /** In particular the default rule list gives 0, whatever the printer does further down. */
  lemma ListingStartsLocal(rules: seq<Rule>, from: Selector -> string)
    requires rules != [] && rules[0] == LOCAL_RULE
    ensures ParseLocalPref(RuleList(rules, from)) == Some(0)
  {
    var plain: Selector -> string := _ => "x";
    assert !Contains("x", "lookup");
    assert RuleLine(LOCAL_RULE, from) == RuleLine(LOCAL_RULE, plain);
    LineIsOne(LOCAL_RULE, plain);
    SplitLine(RuleLine(LOCAL_RULE, from), RuleList(rules[1..], from));
    FindNext(LOCAL_RULE, plain, Split(RuleList(rules[1..], from), '\n'));
  }

  // ----- what the commands do to the rule list -----------------------------------

  /** The rules behind the local ones: nothing at preference 0 or 1. */
  ghost predicate Behind(rest: seq<Rule>)
  {
    forall i :: 0 <= i < |rest| ==> rest[i].pref >= 2
  }

  /** No other rule looks up the exception table. */
  ghost predicate Unshared(rest: seq<Rule>)
  {
    forall i :: 0 <= i < |rest| ==> rest[i].table != SOFTAP_TABLE
  }

  predicate HasLocal(rules: seq<Rule>)
  {
    exists i :: 0 <= i < |rules| && rules[i].sel.All? && rules[i].table == LOCAL_TABLE && rules[i].pref <= 1
  }

  lemma {:induction false} InsertInFront(front: seq<Rule>, rest: seq<Rule>, r: Rule)
    requires Behind(rest) && r.pref <= 1
    requires forall i :: 0 <= i < |front| ==> front[i].pref <= r.pref
    ensures Insert(front + rest, r) == front + [r] + rest
  {
    var rules := front + rest;
    if front == [] {
      assert rules == rest;
      assert rest != [] ==> rest[0].pref >= 2;
    } else {
      assert rules[0] == front[0] && rules[1..] == front[1..] + rest;
      InsertInFront(front[1..], rest, r);
      assert front == [front[0]] + front[1..];
      Assoc([front[0]], front[1..], [r]);
      Assoc([front[0]], front[1..] + [r], rest);
    }
  }

  lemma {:induction false} DeleteInFront(front: seq<Rule>, r: Rule, tail: seq<Rule>, pref: nat, sel: Option<Selector>, table: nat)
    requires Selects(pref, sel, table, r)
    requires forall i :: 0 <= i < |front| ==> !Selects(pref, sel, table, front[i])
    ensures Delete(front + [r] + tail, pref, sel, table) == front + tail
  {
    var rules := front + [r] + tail;
    if front == [] {
      assert rules == [r] + tail;
    } else {
      assert rules[0] == front[0] && rules[1..] == front[1..] + [r] + tail;
      DeleteInFront(front[1..], r, tail, pref, sel, table);
      assert front == [front[0]] + front[1..];
    }
  }

  lemma {:induction false} DeleteNothing(rules: seq<Rule>, pref: nat, sel: Option<Selector>, table: nat)
    requires forall i :: 0 <= i < |rules| ==> !Selects(pref, sel, table, rules[i])
    ensures Delete(rules, pref, sel, table) == rules
  {
    if rules != [] {
      DeleteNothing(rules[1..], pref, sel, table);
      assert rules == [rules[0]] + rules[1..];
    }
  }
}
