/** Printing a configuration as events, folding events into a configuration. */
module ConfigXml {
  import opened Prelude
  import opened Text
  import opened WifredConfig
  import opened Xml

  datatype Tag =
    | StructurVersion | ThrottleName | FirmwareRevision | BatteryVoltage
    | LocoTag | DccAddress | Mode | Direction | LongAddress | Functions | Function
    | NetworkTag | Ssid | Key | Enabled
    | ServerName | Port | Automatic
    | OtherTag

  /** An attribute whose value is still escaped. */
  datatype Attr = IdAttr(raw: string) | ValueAttr(raw: string) | OtherAttr

  /** `Other` stands for text, declarations and comments. */
  datatype Event = Start(tag: Tag, attrs: seq<Attr>) | Empty(tag: Tag, attrs: seq<Attr>) | End(tag: Tag) | Other

  type Document = seq<Event>

  // ----- attribute readers ----------------------------------------------------------

  function RawValue(attrs: seq<Attr>): (raw: Option<string>)
  {
    if attrs == [] then None
    else if attrs[0].ValueAttr? then Some(attrs[0].raw)
    else RawValue(attrs[1..])
  }

  function RawId(attrs: seq<Attr>): (raw: Option<string>)
  {
    if attrs == [] then None
    else if attrs[0].IdAttr? then Some(attrs[0].raw)
    else RawId(attrs[1..])
  }

  function Unescaped(raw: Option<string>): (s: Option<string>)
  {
    match raw
    case None => None
    case Some(r) => Unescape(r)
  }

  function Unsigned(raw: Option<string>, limit: nat): (n: Option<nat>)
    ensures n.Some? ==> n.value < limit
  {
    match Unescaped(raw)
    case None => None
    case Some(s) => ParseUnsigned(Trim(s), limit)
  }

  function Signed(raw: Option<string>): (n: Option<I64>)
  {
    match Unescaped(raw)
    case None => None
    case Some(s) => ParseSigned(Trim(s), I64_HALF)
  }

  function Boolean(raw: Option<string>): (b: Option<bool>)
  {
    match Unescaped(raw)
    case None => None
    case Some(s) =>
      var t := Trim(s);
      if t == "1" || t == "true" then Some(true)
      else if t == "0" || t == "false" then Some(false)
      else None
  }

  function Or<T>(o: Option<T>, d: T): T
  {
    if o.Some? then o.value else d
  }

  // ----- the parser ------------------------------------------------------------------

  datatype Parser = Parser(cfg: Config, loco: Option<Loco>, network: Option<Network>, inFunctions: bool)

  const InitialParser := Parser(EmptyConfig, None, None, false)

  /** `handle_element`. */
  function Element(p: Parser, tag: Tag, attrs: seq<Attr>): (q: Parser)
  {
    var v := RawValue(attrs);
    match tag
    case StructurVersion => p.(cfg := p.cfg.(structureVersion := Unescaped(v)))
    case ThrottleName => p.(cfg := p.cfg.(throttleName := Unescaped(v)))
    case FirmwareRevision => p.(cfg := p.cfg.(firmwareRevision := Unescaped(v)))
    case BatteryVoltage => p.(cfg := p.cfg.(batteryMv := Unsigned(v, 0x1_0000_0000)))
    case LocoTag => p.(loco := Some(UnusedLoco(Unsigned(RawId(attrs), 0x100))))
    case DccAddress => if p.loco.None? then p else p.(loco := Some(p.loco.value.(address := Or(Signed(v), -1))))
    case Mode => if p.loco.None? then p else p.(loco := Some(p.loco.value.(mode := Unescaped(v))))
    case Direction => if p.loco.None? then p else p.(loco := Some(p.loco.value.(direction := Unsigned(v, 0x100))))
    case LongAddress => if p.loco.None? then p else p.(loco := Some(p.loco.value.(longAddress := Boolean(v))))
    case Functions => p.(inFunctions := true)
    case Function =>
      if !p.inFunctions || p.loco.None? then p
      else
        var entry := FunctionEntry(Or(Unsigned(RawId(attrs), 0x100), 0), Or(Unsigned(v, 0x100), 0));
        p.(loco := Some(p.loco.value.(functions := p.loco.value.functions + [entry])))
    case NetworkTag => p.(network := Some(Network("", None, false)))
    case Ssid => if p.network.None? then p else p.(network := Some(p.network.value.(ssid := Or(Unescaped(v), ""))))
    case Key => if p.network.None? then p else p.(network := Some(p.network.value.(key := Unescaped(v))))
    case Enabled => if p.network.None? then p else p.(network := Some(p.network.value.(enabled := Or(Boolean(v), false))))
    case ServerName =>
      var server := Or(p.cfg.server, Server("", 0, false));
      p.(cfg := p.cfg.(server := Some(server.(name := Or(Unescaped(v), "")))))
    case Port =>
      if p.cfg.server.None? then p
      else p.(cfg := p.cfg.(server := Some(p.cfg.server.value.(port := Or(Unsigned(v, 0x1_0000), 0)))))
    case Automatic =>
      if p.cfg.server.None? then p
      else p.(cfg := p.cfg.(server := Some(p.cfg.server.value.(automatic := Or(Boolean(v), false)))))
    case OtherTag => p
  }

  function Close(p: Parser, tag: Tag): (q: Parser)
  {
    match tag
    case LocoTag =>
      if p.loco.None? then p else p.(cfg := p.cfg.(locos := p.cfg.locos + [p.loco.value]), loco := None)
    case NetworkTag =>
      if p.network.None? then p else p.(cfg := p.cfg.(networks := p.cfg.networks + [p.network.value]), network := None)
    case Functions => p.(inFunctions := false)
    case _ => p
  }

  function Step(p: Parser, e: Event): (q: Parser)
  {
    match e
    case Start(tag, attrs) => Element(p, tag, attrs)
    case Empty(tag, attrs) => Element(p, tag, attrs)
    case End(tag) => Close(p, tag)
    case Other => p
  }

  function Fold(p: Parser, doc: Document): (q: Parser)
    decreases |doc|
  {
    if doc == [] then p else Fold(Step(p, doc[0]), doc[1..])
  }

  function Parsed(doc: Document): (cfg: Config)
  {
    Fold(InitialParser, doc).cfg
  }

  /** A body as the reader takes it: not text, events up to an error, or a whole document. */
  datatype Body = NotUtf8 | Broken(events: Document) | Whole(events: Document)

  datatype ParseError = NotText | BadXml

  function ParsedBody(body: Body): (r: Result<Config, ParseError>)
  {
    match body
    case NotUtf8 => Err(NotText)
    case Broken(_) => Err(BadXml)
    case Whole(doc) => Ok(Parsed(doc))
  }

  /** `parse`: one pass over the events; nothing is returned of a body that is not a whole document. */
  method Parse(body: Body) returns (r: Result<Config, ParseError>)
    ensures r == ParsedBody(body)
  {
    if body.NotUtf8? {
      return Err(NotText);
    }
    var doc := body.events;
    var p := InitialParser;
    var i := 0;
    assert doc[0..] == doc;
    while i < |doc|
      invariant 0 <= i <= |doc|
      invariant Fold(InitialParser, doc) == Fold(p, doc[i..])
    {
      assert doc[i..][0] == doc[i] && doc[i..][1..] == doc[i + 1..];
      p := Step(p, doc[i]);
      i := i + 1;
    }
    return if body.Broken? then Err(BadXml) else Ok(p.cfg);
  }

  lemma {:induction false} FoldAppend(p: Parser, a: Document, b: Document)
    ensures Fold(p, a + b) == Fold(Fold(p, a), b)
    decreases |a|
  {
    if a == [] {
      assert a + b == b;
    } else {
      assert (a + b)[0] == a[0] && (a + b)[1..] == a[1..] + b;
      FoldAppend(Step(p, a[0]), a[1..], b);
    }
  }

  lemma FoldCons(p: Parser, e: Event, rest: Document)
    ensures Fold(p, [e] + rest) == Fold(Step(p, e), rest)
  {
    assert ([e] + rest)[0] == e && ([e] + rest)[1..] == rest;
  }

  lemma FoldTwo(p: Parser, a: Document, q: Parser, b: Document, r: Parser)
    requires Fold(p, a) == q && Fold(q, b) == r
    ensures Fold(p, a + b) == r
  {
    FoldAppend(p, a, b);
  }

  lemma FoldThen(p: Parser, e: Event, q: Parser, rest: Document, r: Parser)
    requires Step(p, e) == q && Fold(q, rest) == r
    ensures Fold(p, [e] + rest) == r
  {
    FoldCons(p, e, rest);
  }

  lemma FoldOne(p: Parser, e: Event)
    ensures Fold(p, [e]) == Step(p, e)
  {
  }

  // ----- the printer --------------------------------------------------------------------

  /** `push_empty`. */
  function Leaf(tag: Tag, value: string): (e: Event)
  {
    Empty(tag, [ValueAttr(Escape(value))])
  }

  function OptLeaf(tag: Tag, value: Option<string>): (doc: Document)
  {
    match value
    case None => []
    case Some(v) => [Leaf(tag, v)]
  }

  function Flag(b: bool): string
  {
    if b then "1" else "0"
  }

  function FunctionEvent(f: FunctionEntry): Event
  {
    Empty(Function, [IdAttr(Decimal(f.index)), ValueAttr(Decimal(f.value))])
  }

  function FunctionEvents(fs: seq<FunctionEntry>): (doc: Document)
  {
    if fs == [] then [] else [FunctionEvent(fs[0])] + FunctionEvents(fs[1..])
  }

  /** The number printed for the slot at position `i`: its own, or its position as a byte. */
  function SlotId(loco: Loco, i: nat): (id: U8)
  {
    Or(loco.id, (i + 1) % 0x100)
  }

  function LocoHead(loco: Loco, i: nat): (doc: Document)
  {
    [Start(LocoTag, [IdAttr(Decimal(SlotId(loco, i)))])] +
    ([Leaf(DccAddress, SignedDecimal(loco.address))] +
     ([Leaf(Mode, Or(loco.mode, ""))] +
      (DirectionLeaf(loco) + LongLeaf(loco))))
  }

  function DirectionLeaf(loco: Loco): Document
  {
    OptLeaf(Direction, if loco.direction.None? then None else Some(Decimal(loco.direction.value)))
  }

  function LongLeaf(loco: Loco): Document
  {
    OptLeaf(LongAddress, if loco.longAddress.None? then None else Some(Flag(loco.longAddress.value)))
  }

  function LocoTail(loco: Loco): (doc: Document)
  {
    [Start(Functions, [])] + (FunctionEvents(loco.functions) + ([End(Functions)] + [End(LocoTag)]))
  }

  function LocoEvents(loco: Loco, i: nat): (doc: Document)
  {
    LocoHead(loco, i) + LocoTail(loco)
  }

  /** The slots from position `i` on. */
  function LocosEvents(locos: seq<Loco>, i: nat): (doc: Document)
  {
    if locos == [] then [] else LocoEvents(locos[0], i) + LocosEvents(locos[1..], i + 1)
  }

  function LastLeaves(n: Network): Document
  {
    [Leaf(Enabled, Flag(n.enabled))] + [End(NetworkTag)]
  }

  function NetworkEvents(n: Network): (doc: Document)
  {
    [Start(NetworkTag, [])] +
    ([Leaf(Ssid, n.ssid)] +
     (OptLeaf(Key, n.key) + LastLeaves(n)))
  }

  function NetworksEvents(ns: seq<Network>): (doc: Document)
  {
    if ns == [] then [] else NetworkEvents(ns[0]) + NetworksEvents(ns[1..])
  }

  function AutomaticLeaves(s: Server): Document
  {
    [Leaf(Automatic, Flag(s.automatic))] + [End(OtherTag)]
  }

  function ServerEvents(server: Option<Server>): (doc: Document)
  {
    match server
    case None => []
    case Some(s) =>
      [Start(OtherTag, [])] +
      ([Leaf(ServerName, s.name)] +
       ([Leaf(Port, Decimal(s.port))] + AutomaticLeaves(s)))
  }

  function HeadEvents(cfg: Config): (doc: Document)
  {
    OptLeaf(StructurVersion, cfg.structureVersion) +
    (OptLeaf(ThrottleName, cfg.throttleName) +
     (OptLeaf(FirmwareRevision, cfg.firmwareRevision) + BatteryLeaf(cfg.batteryMv)))
  }

  function BatteryLeaf(mv: Option<U32>): Document
  {
    OptLeaf(BatteryVoltage, if mv.None? then None else Some(Decimal(mv.value)))
  }

  function Opening(): Document { [Other, Start(OtherTag, [])] }
  function Between(): Document { [End(OtherTag), Start(OtherTag, [])] }
  function Open(): Document { [Start(OtherTag, [])] }
  function Shut(): Document { [End(OtherTag)] }

  /** `serialize_xml`. */
  function Printed(cfg: Config): (doc: Document)
  {
    Opening() + (HeadEvents(cfg) + (Open() + (LocosEvents(cfg.locos, 0) + (Between() +
    (NetworksEvents(cfg.networks) + (Shut() + (ServerEvents(cfg.server) + Shut())))))))
  }

  lemma LocosTurn(doc: Document, locos: seq<Loco>, i: nat)
    requires i < |locos|
    ensures doc + LocosEvents(locos[i..], i) == (doc + LocoEvents(locos[i], i)) + LocosEvents(locos[i + 1..], i + 1)
  {
    var rest := locos[i..];
    assert rest[0] == locos[i] && rest[1..] == locos[i + 1..];
    Assoc(doc, LocoEvents(locos[i], i), LocosEvents(locos[i + 1..], i + 1));
  }

  lemma NetworksTurn(doc: Document, ns: seq<Network>, i: nat)
    requires i < |ns|
    ensures doc + NetworksEvents(ns[i..]) == (doc + NetworkEvents(ns[i])) + NetworksEvents(ns[i + 1..])
  {
    var rest := ns[i..];
    assert rest[0] == ns[i] && rest[1..] == ns[i + 1..];
    Assoc(doc, NetworkEvents(ns[i]), NetworksEvents(ns[i + 1..]));
  }

  method PrintLocos(start: Document, locos: seq<Loco>) returns (doc: Document)
    ensures doc == start + LocosEvents(locos, 0)
  {
    doc := start;
    var i := 0;
    assert locos[0..] == locos;
    while i < |locos|
      invariant 0 <= i <= |locos|
      invariant doc + LocosEvents(locos[i..], i) == start + LocosEvents(locos, 0)
    {
      LocosTurn(doc, locos, i);
      doc := doc + LocoEvents(locos[i], i);
      i := i + 1;
    }
    assert doc + [] == doc;
  }

  method PrintNetworks(start: Document, ns: seq<Network>) returns (doc: Document)
    ensures doc == start + NetworksEvents(ns)
  {
    doc := start;
    var i := 0;
    assert ns[0..] == ns;
    while i < |ns|
      invariant 0 <= i <= |ns|
      invariant doc + NetworksEvents(ns[i..]) == start + NetworksEvents(ns)
    {
      NetworksTurn(doc, ns, i);
      doc := doc + NetworkEvents(ns[i]);
      i := i + 1;
    }
    assert doc + [] == doc;
  }

  lemma PrintedInOrder(a: Document, b: Document, c: Document, d: Document, e: Document, f: Document, g: Document, h: Document)
    ensures (((((((a + b) + c) + d) + e) + f) + g) + h) == a + (b + (c + (d + (e + (f + (g + h))))))
  {
  }

  /** `serialize_xml`: the parts appended to one buffer. */
  method SerializeXml(cfg: Config) returns (doc: Document)
    ensures doc == Printed(cfg)
    ensures Parsed(doc) == Filled(cfg)
  {
    doc := Opening() + HeadEvents(cfg) + Open();
    doc := PrintLocos(doc, cfg.locos);
    doc := doc + Between();
    doc := PrintNetworks(doc, cfg.networks);
    doc := doc + Shut() + (ServerEvents(cfg.server) + Shut());
    PrintedInOrder(Opening(), HeadEvents(cfg), Open(), LocosEvents(cfg.locos, 0), Between(),
                   NetworksEvents(cfg.networks), Shut(), ServerEvents(cfg.server) + Shut());
    ParsePrinted(cfg);
  }

  // ----- the round trip ---------------------------------------------------------------------

  /** A slot with the defaults the printer fills in. */
  function FilledLoco(loco: Loco, i: nat): Loco
  {
    loco.(id := Some(SlotId(loco, i)), mode := Some(Or(loco.mode, "")))
  }

  function FilledLocos(locos: seq<Loco>, i: nat): (r: seq<Loco>)
  {
    if locos == [] then [] else [FilledLoco(locos[0], i)] + FilledLocos(locos[1..], i + 1)
  }

  /** The configuration with the printer's defaults. */
  function Filled(cfg: Config): Config
  {
    cfg.(locos := FilledLocos(cfg.locos, 0))
  }

  lemma {:induction false} FilledLocosAt(locos: seq<Loco>, i: nat, k: nat)
    requires k < |locos|
    ensures |FilledLocos(locos, i)| == |locos| && FilledLocos(locos, i)[k] == FilledLoco(locos[k], i + k)
  {
    if |locos| > 1 {
      FilledLocosAt(locos[1..], i + 1, if k > 0 then k - 1 else 0);
    }
  }

  lemma LeafText(tag: Tag, v: string)
    ensures Unescaped(RawValue(Leaf(tag, v).attrs)) == Some(v)
  {
    UnescapeEscape(v);
  }

  lemma PlainDecimal(n: nat)
    ensures Unescape(Decimal(n)) == Some(Decimal(n))
  {
    EscapeDigits(Decimal(n));
    UnescapeEscape(Decimal(n));
  }

  lemma EscapeDigits(s: string)
    requires AllDigits(s)
    ensures Escape(s) == s
  {
    forall i | 0 <= i < |s| ensures EscapeChar(s[i]) == [s[i]] {
      assert IsDigit(s[i]);
    }
    EscapePlain(s);
  }

  lemma LeafNumber(tag: Tag, n: nat, limit: nat)
    requires n < limit
    ensures Unsigned(RawValue(Leaf(tag, Decimal(n)).attrs), limit) == Some(n)
  {
    LeafText(tag, Decimal(n));
    TrimDecimal(n);
    ParseUnsignedRoundTrip(n, limit);
  }

  lemma LeafSigned(tag: Tag, n: I64)
    ensures Signed(RawValue(Leaf(tag, SignedDecimal(n)).attrs)) == Some(n)
  {
    LeafText(tag, SignedDecimal(n));
    TrimDecimal(n);
    ParseSignedRoundTrip(n, I64_HALF);
  }

  lemma LeafFlag(tag: Tag, b: bool)
    ensures Boolean(RawValue(Leaf(tag, Flag(b)).attrs)) == Some(b)
  {
    LeafText(tag, Flag(b));
    TrimNothing(Flag(b));
  }

  lemma RawNumber(n: nat, limit: nat)
    requires n < limit
    ensures Unsigned(Some(Decimal(n)), limit) == Some(n)
  {
    PlainDecimal(n);
    TrimDecimal(n);
    ParseUnsignedRoundTrip(n, limit);
  }

  // One slot.

  lemma HeadFolds(p: Parser, loco: Loco, i: nat)
    ensures Fold(p, LocoHead(loco, i)) == p.(loco := Some(FilledLoco(loco, i).(functions := [])))
  {
    var id := SlotId(loco, i);
    var p1 := p.(loco := Some(UnusedLoco(Some(id))));
    RawNumber(id, 0x100);
    var attrs := [IdAttr(Decimal(id))];
    assert RawId(attrs) == Some(Decimal(id));
    var rest1 := [Leaf(DccAddress, SignedDecimal(loco.address))] +
                 ([Leaf(Mode, Or(loco.mode, ""))] + (DirectionLeaf(loco) + LongLeaf(loco)));
    FoldCons(p, Start(LocoTag, attrs), rest1);
    AddressFolds(p1, loco);
  }

  lemma AddressFolds(p: Parser, loco: Loco)
    requires p.loco.Some? && p.loco.value.direction.None? && p.loco.value.longAddress.None?
    ensures Fold(p, [Leaf(DccAddress, SignedDecimal(loco.address))] +
                    ([Leaf(Mode, Or(loco.mode, ""))] + (DirectionLeaf(loco) + LongLeaf(loco))))
            == p.(loco := Some(loco.(id := p.loco.value.id, functions := p.loco.value.functions, mode := Some(Or(loco.mode, "")))))
  {
    LeafSigned(DccAddress, loco.address);
    var q := p.(loco := Some(p.loco.value.(address := loco.address)));
    var r := q.(loco := Some(loco.(id := p.loco.value.id, functions := p.loco.value.functions, mode := Some(Or(loco.mode, "")))));
    ModeFolds(q, loco);
    FoldThen(p, Leaf(DccAddress, SignedDecimal(loco.address)), q,
             [Leaf(Mode, Or(loco.mode, ""))] + (DirectionLeaf(loco) + LongLeaf(loco)), r);
  }

  lemma ModeFolds(p: Parser, loco: Loco)
    requires p.loco.Some? && p.loco.value.direction.None? && p.loco.value.longAddress.None?
    ensures Fold(p, [Leaf(Mode, Or(loco.mode, ""))] + (DirectionLeaf(loco) + LongLeaf(loco)))
            == p.(loco := Some(p.loco.value.(mode := Some(Or(loco.mode, "")), direction := loco.direction, longAddress := loco.longAddress)))
  {
    var mode := Or(loco.mode, "");
    LeafText(Mode, mode);
    var q := p.(loco := Some(p.loco.value.(mode := Some(mode))));
    var r := q.(loco := Some(q.loco.value.(direction := loco.direction)));
    var t := r.(loco := Some(r.loco.value.(longAddress := loco.longAddress)));
    DirectionFolds(q, loco);
    LongFolds(r, loco);
    FoldTwo(q, DirectionLeaf(loco), r, LongLeaf(loco), t);
    FoldThen(p, Leaf(Mode, mode), q, DirectionLeaf(loco) + LongLeaf(loco), t);
  }

  lemma DirectionFolds(p: Parser, loco: Loco)
    requires p.loco.Some?
    ensures Fold(p, DirectionLeaf(loco)) ==
            if loco.direction.Some? then p.(loco := Some(p.loco.value.(direction := loco.direction))) else p
  {
    if loco.direction.Some? {
      LeafNumber(Direction, loco.direction.value, 0x100);
    }
  }

  lemma LongFolds(p: Parser, loco: Loco)
    requires p.loco.Some?
    ensures Fold(p, LongLeaf(loco)) ==
            if loco.longAddress.Some? then p.(loco := Some(p.loco.value.(longAddress := loco.longAddress))) else p
  {
    if loco.longAddress.Some? {
      LeafFlag(LongAddress, loco.longAddress.value);
    }
  }

  lemma FunctionFolds(p: Parser, f: FunctionEntry)
    requires p.loco.Some? && p.inFunctions
    ensures Step(p, FunctionEvent(f)) == p.(loco := Some(p.loco.value.(functions := p.loco.value.functions + [f])))
  {
    RawNumber(f.index, 0x100);
    RawNumber(f.value, 0x100);
    var attrs := FunctionEvent(f).attrs;
    assert attrs[1..] == [ValueAttr(Decimal(f.value))];
    assert RawId(attrs) == Some(Decimal(f.index)) && RawValue(attrs) == Some(Decimal(f.value));
  }

  lemma {:induction false} FunctionsFold(p: Parser, fs: seq<FunctionEntry>)
    requires p.loco.Some? && p.inFunctions
    ensures Fold(p, FunctionEvents(fs)) == p.(loco := Some(p.loco.value.(functions := p.loco.value.functions + fs)))
    decreases |fs|
  {
    var had := p.loco.value.functions;
    if fs == [] {
      assert had + fs == had;
    } else {
      FunctionFolds(p, fs[0]);
      var q := p.(loco := Some(p.loco.value.(functions := had + [fs[0]])));
      FunctionsFold(q, fs[1..]);
      assert had + fs == had + [fs[0]] + fs[1..];
      FoldThen(p, FunctionEvent(fs[0]), q, FunctionEvents(fs[1..]),
               p.(loco := Some(p.loco.value.(functions := had + fs))));
    }
  }

  lemma ClosingFolds(p: Parser)
    requires p.loco.Some?
    ensures Fold(p, [End(Functions)] + [End(LocoTag)]) ==
            p.(cfg := p.cfg.(locos := p.cfg.locos + [p.loco.value]), loco := None, inFunctions := false)
  {
    var q := p.(inFunctions := false);
    FoldOne(q, End(LocoTag));
    FoldThen(p, End(Functions), q, [End(LocoTag)], Step(q, End(LocoTag)));
  }

  lemma TailFolds(p: Parser, loco: Loco)
    requires p.loco.Some? && p.loco.value.functions == []
    ensures Fold(p, LocoTail(loco)) ==
            p.(cfg := p.cfg.(locos := p.cfg.locos + [p.loco.value.(functions := loco.functions)]), loco := None, inFunctions := false)
  {
    var fs, closing := FunctionEvents(loco.functions), [End(Functions)] + [End(LocoTag)];
    var q := p.(inFunctions := true);
    var r := q.(loco := Some(q.loco.value.(functions := loco.functions)));
    FunctionsFold(q, loco.functions);
    assert [] + loco.functions == loco.functions;
    ClosingFolds(r);
    var t := p.(cfg := p.cfg.(locos := p.cfg.locos + [r.loco.value]), loco := None, inFunctions := false);
    FoldTwo(q, fs, r, closing, t);
    FoldThen(p, Start(Functions, []), q, fs + closing, t);
  }

  lemma LocoFolds(p: Parser, loco: Loco, i: nat)
    requires !p.inFunctions
    ensures Fold(p, LocoEvents(loco, i)) ==
            p.(cfg := p.cfg.(locos := p.cfg.locos + [FilledLoco(loco, i)]), loco := None)
  {
    HeadFolds(p, loco, i);
    var q := p.(loco := Some(FilledLoco(loco, i).(functions := [])));
    TailFolds(q, loco);
    FoldTwo(p, LocoHead(loco, i), q, LocoTail(loco),
            p.(cfg := p.cfg.(locos := p.cfg.locos + [FilledLoco(loco, i)]), loco := None));
  }

  lemma {:induction false} LocosFold(p: Parser, locos: seq<Loco>, i: nat)
    requires !p.inFunctions && p.loco.None?
    ensures Fold(p, LocosEvents(locos, i)) == p.(cfg := p.cfg.(locos := p.cfg.locos + FilledLocos(locos, i)))
    decreases |locos|
  {
    var had := p.cfg.locos;
    if locos == [] {
      assert had + FilledLocos(locos, i) == had;
    } else {
      var first := FilledLoco(locos[0], i);
      var q := p.(cfg := p.cfg.(locos := had + [first]));
      LocoFolds(p, locos[0], i);
      LocosFold(q, locos[1..], i + 1);
      Assoc(had, [first], FilledLocos(locos[1..], i + 1));
      FoldTwo(p, LocoEvents(locos[0], i), q, LocosEvents(locos[1..], i + 1),
              p.(cfg := p.cfg.(locos := had + FilledLocos(locos, i))));
    }
  }

  // One network.

  lemma EnabledStep(p: Parser, n: Network)
    requires p.network.Some?
    ensures Step(p, Leaf(Enabled, Flag(n.enabled))) == p.(network := Some(p.network.value.(enabled := n.enabled)))
  {
    LeafFlag(Enabled, n.enabled);
  }

  lemma EnabledFolds(p: Parser, n: Network)
    requires p.network.Some?
    ensures Fold(p, LastLeaves(n)) ==
            p.(cfg := p.cfg.(networks := p.cfg.networks + [p.network.value.(enabled := n.enabled)]), network := None)
  {
    EnabledStep(p, n);
    var q := p.(network := Some(p.network.value.(enabled := n.enabled)));
    FoldOne(q, End(NetworkTag));
    FoldThen(p, Leaf(Enabled, Flag(n.enabled)), q, [End(NetworkTag)], Step(q, End(NetworkTag)));
  }

  lemma KeyAndLastFold(p: Parser, n: Network)
    requires p.network == Some(Network(n.ssid, None, false))
    ensures Fold(p, OptLeaf(Key, n.key) + LastLeaves(n)) == p.(cfg := p.cfg.(networks := p.cfg.networks + [n]), network := None)
  {
    var r := p.(network := Some(Network(n.ssid, n.key, false)));
    KeyFolds(p, n);
    EnabledFolds(r, n);
    FoldTwo(p, OptLeaf(Key, n.key), r, LastLeaves(n), p.(cfg := p.cfg.(networks := p.cfg.networks + [n]), network := None));
  }

  lemma SsidStep(p: Parser, n: Network)
    requires p.network == Some(Network("", None, false))
    ensures Step(p, Leaf(Ssid, n.ssid)) == p.(network := Some(Network(n.ssid, None, false)))
  {
    LeafText(Ssid, n.ssid);
  }

  lemma SsidFolds(p: Parser, n: Network)
    requires p.network == Some(Network("", None, false))
    ensures Fold(p, [Leaf(Ssid, n.ssid)] + (OptLeaf(Key, n.key) + LastLeaves(n))) ==
            p.(cfg := p.cfg.(networks := p.cfg.networks + [n]), network := None)
  {
    var q := p.(network := Some(Network(n.ssid, None, false)));
    SsidStep(p, n);
    KeyAndLastFold(q, n);
    FoldThen(p, Leaf(Ssid, n.ssid), q, OptLeaf(Key, n.key) + LastLeaves(n),
             p.(cfg := p.cfg.(networks := p.cfg.networks + [n]), network := None));
  }

  lemma NetworkFolds(p: Parser, n: Network)
    ensures Fold(p, NetworkEvents(n)) == p.(cfg := p.cfg.(networks := p.cfg.networks + [n]), network := None)
  {
    var q := p.(network := Some(Network("", None, false)));
    SsidFolds(q, n);
    FoldThen(p, Start(NetworkTag, []), q, [Leaf(Ssid, n.ssid)] + (OptLeaf(Key, n.key) + LastLeaves(n)),
             p.(cfg := p.cfg.(networks := p.cfg.networks + [n]), network := None));
  }

  lemma KeyFolds(p: Parser, n: Network)
    requires p.network.Some? && p.network.value.key.None?
    ensures Fold(p, OptLeaf(Key, n.key)) == p.(network := Some(p.network.value.(key := n.key)))
  {
    if n.key.Some? {
      LeafText(Key, n.key.value);
    }
  }

  lemma {:induction false} NetworksFold(p: Parser, ns: seq<Network>)
    requires p.network.None?
    ensures Fold(p, NetworksEvents(ns)) == p.(cfg := p.cfg.(networks := p.cfg.networks + ns))
    decreases |ns|
  {
    var had := p.cfg.networks;
    if ns == [] {
      assert had + ns == had;
    } else {
      NetworkFolds(p, ns[0]);
      var q := p.(cfg := p.cfg.(networks := had + [ns[0]]));
      NetworksFold(q, ns[1..]);
      assert [ns[0]] + ns[1..] == ns;
      Assoc(had, [ns[0]], ns[1..]);
      FoldTwo(p, NetworkEvents(ns[0]), q, NetworksEvents(ns[1..]), p.(cfg := p.cfg.(networks := had + ns)));
    }
  }

  // The server and the head.

  lemma AutomaticFolds(p: Parser, s: Server)
    requires p.cfg.server.Some?
    ensures Fold(p, AutomaticLeaves(s)) == p.(cfg := p.cfg.(server := Some(p.cfg.server.value.(automatic := s.automatic))))
  {
    LeafFlag(Automatic, s.automatic);
    var q := p.(cfg := p.cfg.(server := Some(p.cfg.server.value.(automatic := s.automatic))));
    FoldOne(q, End(OtherTag));
    FoldThen(p, Leaf(Automatic, Flag(s.automatic)), q, [End(OtherTag)], q);
  }

  lemma PortStep(p: Parser, s: Server)
    requires p.cfg.server.Some?
    ensures Step(p, Leaf(Port, Decimal(s.port))) == p.(cfg := p.cfg.(server := Some(p.cfg.server.value.(port := s.port))))
  {
    LeafNumber(Port, s.port, 0x1_0000);
    PortRead(p, Leaf(Port, Decimal(s.port)).attrs, s.port);
  }

  lemma PortRead(p: Parser, attrs: seq<Attr>, port: U16)
    requires p.cfg.server.Some? && Unsigned(RawValue(attrs), 0x1_0000) == Some(port)
    ensures Element(p, Port, attrs) == p.(cfg := p.cfg.(server := Some(p.cfg.server.value.(port := port))))
  {
  }

  lemma PortFolds(p: Parser, s: Server)
    requires p.cfg.server == Some(Server(s.name, 0, false))
    ensures Fold(p, [Leaf(Port, Decimal(s.port))] + AutomaticLeaves(s)) == p.(cfg := p.cfg.(server := Some(s)))
  {
    PortStep(p, s);
    var q := p.(cfg := p.cfg.(server := Some(Server(s.name, s.port, false))));
    AutomaticFolds(q, s);
    FoldThen(p, Leaf(Port, Decimal(s.port)), q, AutomaticLeaves(s), p.(cfg := p.cfg.(server := Some(s))));
  }

  lemma NameFolds(p: Parser, s: Server)
    requires p.cfg.server.None?
    ensures Fold(p, [Leaf(ServerName, s.name)] + ([Leaf(Port, Decimal(s.port))] + AutomaticLeaves(s)))
            == p.(cfg := p.cfg.(server := Some(s)))
  {
    LeafText(ServerName, s.name);
    var q := p.(cfg := p.cfg.(server := Some(Server(s.name, 0, false))));
    PortFolds(q, s);
    FoldThen(p, Leaf(ServerName, s.name), q, [Leaf(Port, Decimal(s.port))] + AutomaticLeaves(s),
             p.(cfg := p.cfg.(server := Some(s))));
  }

  lemma ServerFolds(p: Parser, server: Option<Server>)
    requires p.cfg.server.None?
    ensures Fold(p, ServerEvents(server)) == p.(cfg := p.cfg.(server := server))
  {
    if server.Some? {
      var s := server.value;
      NameFolds(p, s);
      FoldThen(p, Start(OtherTag, []), p, [Leaf(ServerName, s.name)] + ([Leaf(Port, Decimal(s.port))] + AutomaticLeaves(s)),
               p.(cfg := p.cfg.(server := Some(s))));
    }
  }

  lemma VersionFolds(p: Parser, v: Option<string>)
    requires p.cfg.structureVersion.None?
    ensures Fold(p, OptLeaf(StructurVersion, v)) == p.(cfg := p.cfg.(structureVersion := v))
  {
    if v.Some? { LeafText(StructurVersion, v.value); }
  }

  lemma ThrottleFolds(p: Parser, v: Option<string>)
    requires p.cfg.throttleName.None?
    ensures Fold(p, OptLeaf(ThrottleName, v)) == p.(cfg := p.cfg.(throttleName := v))
  {
    if v.Some? { LeafText(ThrottleName, v.value); }
  }

  lemma RevisionFolds(p: Parser, v: Option<string>)
    requires p.cfg.firmwareRevision.None?
    ensures Fold(p, OptLeaf(FirmwareRevision, v)) == p.(cfg := p.cfg.(firmwareRevision := v))
  {
    if v.Some? { LeafText(FirmwareRevision, v.value); }
  }

  lemma BatteryFolds(p: Parser, mv: Option<U32>)
    requires p.cfg.batteryMv.None?
    ensures Fold(p, BatteryLeaf(mv)) == p.(cfg := p.cfg.(batteryMv := mv))
  {
    if mv.Some? { LeafNumber(BatteryVoltage, mv.value, 0x1_0000_0000); }
  }

  lemma FoldFour(p0: Parser, a: Document, p1: Parser, b: Document, p2: Parser, c: Document, p3: Parser, d: Document, p4: Parser)
    requires Fold(p0, a) == p1 && Fold(p1, b) == p2 && Fold(p2, c) == p3 && Fold(p3, d) == p4
    ensures Fold(p0, a + (b + (c + d))) == p4
  {
    FoldTwo(p2, c, p3, d, p4);
    FoldTwo(p1, b, p2, c + d, p4);
    FoldTwo(p0, a, p1, b + (c + d), p4);
  }

  lemma HeadEventsFold(cfg: Config)
    ensures Fold(InitialParser, HeadEvents(cfg)) ==
            InitialParser.(cfg := cfg.(locos := [], networks := [], server := None))
  {
    var p0 := InitialParser;
    var p1 := p0.(cfg := p0.cfg.(structureVersion := cfg.structureVersion));
    var p2 := p1.(cfg := p1.cfg.(throttleName := cfg.throttleName));
    var p3 := p2.(cfg := p2.cfg.(firmwareRevision := cfg.firmwareRevision));
    var p4 := p3.(cfg := p3.cfg.(batteryMv := cfg.batteryMv));
    VersionFolds(p0, cfg.structureVersion);
    ThrottleFolds(p1, cfg.throttleName);
    RevisionFolds(p2, cfg.firmwareRevision);
    BatteryFolds(p3, cfg.batteryMv);
    FoldFour(p0, OptLeaf(StructurVersion, cfg.structureVersion), p1, OptLeaf(ThrottleName, cfg.throttleName), p2,
             OptLeaf(FirmwareRevision, cfg.firmwareRevision), p3, BatteryLeaf(cfg.batteryMv), p4);
  }

  /** Punctuation leaves the parser as it is. */
  lemma PunctuationFolds(p: Parser)
    ensures Fold(p, Opening()) == p && Fold(p, Open()) == p && Fold(p, Shut()) == p && Fold(p, Between()) == p
  {
    FoldCons(p, Other, [Start(OtherTag, [])]);
    FoldCons(p, End(OtherTag), [Start(OtherTag, [])]);
    assert Opening() == [Other] + [Start(OtherTag, [])];
    assert Between() == [End(OtherTag)] + [Start(OtherTag, [])];
  }

  /** Parsing what the device prints gives its configuration, with the printer's defaults. */
  lemma ParsePrinted(cfg: Config)
    ensures Parsed(Printed(cfg)) == Filled(cfg)
  {
    var p := InitialParser;
    var d8 := ServerEvents(cfg.server) + Shut();
    var d7 := Shut() + d8;
    var d6 := NetworksEvents(cfg.networks) + d7;
    var d5 := Between() + d6;
    var d4 := LocosEvents(cfg.locos, 0) + d5;
    var d3 := Open() + d4;
    var d2 := HeadEvents(cfg) + d3;
    FoldAppend(p, Opening(), d2);
    PunctuationFolds(p);
    FoldAppend(p, HeadEvents(cfg), d3);
    HeadEventsFold(cfg);
    var p1 := p.(cfg := cfg.(locos := [], networks := [], server := None));
    FoldAppend(p1, Open(), d4);
    PunctuationFolds(p1);
    BodyFolds(p1, cfg);
  }

  lemma BodyFolds(p: Parser, cfg: Config)
    requires p.cfg.locos == [] && p.cfg.networks == [] && p.cfg.server.None?
    requires p.loco.None? && p.network.None? && !p.inFunctions
    ensures Fold(p, LocosEvents(cfg.locos, 0) + (Between() + (NetworksEvents(cfg.networks) +
                    (Shut() + (ServerEvents(cfg.server) + Shut()))))).cfg
            == p.cfg.(locos := FilledLocos(cfg.locos, 0), networks := cfg.networks, server := cfg.server)
  {
    var d8 := ServerEvents(cfg.server) + Shut();
    var d6 := NetworksEvents(cfg.networks) + (Shut() + d8);
    FoldAppend(p, LocosEvents(cfg.locos, 0), Between() + d6);
    LocosFold(p, cfg.locos, 0);
    assert [] + FilledLocos(cfg.locos, 0) == FilledLocos(cfg.locos, 0);
    var p2 := p.(cfg := p.cfg.(locos := FilledLocos(cfg.locos, 0)));
    FoldAppend(p2, Between(), d6);
    PunctuationFolds(p2);
    RestFolds(p2, cfg);
  }

  lemma RestFolds(p: Parser, cfg: Config)
    requires p.cfg.networks == [] && p.cfg.server.None? && p.network.None?
    ensures Fold(p, NetworksEvents(cfg.networks) + (Shut() + (ServerEvents(cfg.server) + Shut()))).cfg
            == p.cfg.(networks := cfg.networks, server := cfg.server)
  {
    var d8 := ServerEvents(cfg.server) + Shut();
    FoldAppend(p, NetworksEvents(cfg.networks), Shut() + d8);
    NetworksFold(p, cfg.networks);
    assert [] + cfg.networks == cfg.networks;
    var p3 := p.(cfg := p.cfg.(networks := cfg.networks));
    FoldAppend(p3, Shut(), d8);
    PunctuationFolds(p3);
    FoldAppend(p3, ServerEvents(cfg.server), Shut());
    ServerFolds(p3, cfg.server);
    PunctuationFolds(p3.(cfg := p3.cfg.(server := cfg.server)));
  }

  /** With every slot numbered and given a mode, and so whenever it was itself parsed, nothing changes. */
  lemma ParsePrintedExact(cfg: Config)
    requires forall k :: 0 <= k < |cfg.locos| ==> cfg.locos[k].id.Some? && cfg.locos[k].mode.Some?
    ensures Parsed(Printed(cfg)) == cfg
  {
    ParsePrinted(cfg);
    forall k | 0 <= k < |cfg.locos|
      ensures |FilledLocos(cfg.locos, 0)| == |cfg.locos| && FilledLocos(cfg.locos, 0)[k] == cfg.locos[k]
    {
      FilledLocosAt(cfg.locos, 0, k);
    }
    assert FilledLocos(cfg.locos, 0) == cfg.locos;
  }
}
