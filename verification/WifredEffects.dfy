/** What each of the driver's writes does to the device. */
module WifredEffects {
  import opened Prelude
  import opened Text
  import opened WifredConfig
  import opened WifredQuery
  import opened WifredDevice
  import opened Requests
  import opened WifredDriver
  import ConfigXml
  import Percent

  // ----- from paths to parameters ------------------------------------------------------

  ghost predicate ValidWrite(w: Write)
  {
    w != [] && forall i :: 0 <= i < |w| ==> ValidField(w[i])
  }

  ghost predicate AllValid(ws: seq<Write>)
  {
    forall i :: 0 <= i < |ws| ==> ValidWrite(ws[i])
  }

  function AfterWrite(d: Device, w: Write): (r: Device)
  {
    AppliedPairs(d, Meanings(w))
  }

  function AfterWrites(d: Device, ws: seq<Write>): (r: Device)
    decreases |ws|
  {
    if ws == [] then d else AfterWrites(AfterWrite(d, ws[0]), ws[1..])
  }

  lemma {:induction false} AfterAppend(d: Device, a: seq<Write>, b: seq<Write>)
    ensures AfterWrites(d, a + b) == AfterWrites(AfterWrites(d, a), b)
    decreases |a|
  {
    if a == [] {
      assert a + b == b;
    } else {
      assert (a + b)[0] == a[0] && (a + b)[1..] == a[1..] + b;
      AfterAppend(AfterWrite(d, a[0]), a[1..], b);
    }
  }

  lemma RouteOfIndex(q: string)
    ensures RouteOf(INDEX_PATH + ['?'] + q) == Index(Some(q))
  {
    var path := INDEX_PATH + ['?'] + q;
    assert path[1] == 'i' && XML_PATH[1] == 'a' && RESTART_PATH[1] == 'r' && FLASH_PATH[1] == 'f';
    NotPrefix(path, XML_PATH);
    NotPrefix(path, RESTART_PATH);
    NotPrefix(path, FLASH_PATH);
    assert path[..|INDEX_PATH|] == INDEX_PATH;
    assert '?' !in INDEX_PATH;
    SplitOnceAt(INDEX_PATH, '?', q);
  }

  lemma NotPrefix(s: string, p: string)
    requires |p| > 1 && |s| > 1 && s[1] != p[1]
    ensures !(p <= s)
  {
    if |p| <= |s| {
      assert s[..|p|][1] == s[1];
    }
  }

  /** The device answers a write with a page and takes exactly the parameters written. */
  lemma WriteHandled(d: Device, w: Write)
    requires ValidWrite(w)
    ensures Handled(d, PathOf(w)) == (AfterWrite(d, w), Page)
  {
    RouteOfIndex(Query(w));
    QueryRoundTrip(w);
  }

  lemma {:induction false} WritesHandled(d: Device, ws: seq<Write>)
    requires AllValid(ws)
    ensures HandledAll(d, Paths(ws)) == AfterWrites(d, ws)
    decreases |ws|
  {
    if ws != [] {
      WriteHandled(d, ws[0]);
      WritesHandled(AfterWrite(d, ws[0]), ws[1..]);
    }
  }

  // ----- raw values ------------------------------------------------------------------------

  lemma PlainNumber(i: int)
    ensures Percent.DecodeText(SignedDecimal(i)) == SignedDecimal(i) && '&' !in SignedDecimal(i)
  {
    var s := SignedDecimal(i);
    var d := Decimal(if i < 0 then -i else i);
    assert AllDigits(d);
    assert forall k :: 0 <= k < |s| ==> s[k] == '-' || s[k] in d;
    assert forall k :: 0 <= k < |s| ==> s[k] == '-' || IsDigit(s[k]);
    Percent.DecodePlain(s);
  }

  lemma PlainText(s: Percent.Octets)
    ensures Percent.DecodeText(Percent.Encode(s)) == s && '&' !in Percent.Encode(s)
  {
    Percent.TextRoundTripIff(s);
    Percent.EncodedChars(s);
  }

  lemma PlainOn()
    ensures Percent.DecodeText("on") == "on" && '&' !in "on"
  {
    Percent.DecodePlain("on");
  }

  // ----- one slot -----------------------------------------------------------------------------

  predicate IsEdit(k: Key)
  {
    k.Address? || k.Mode? || k.Direction? || k.LongAddress? || k.Function?
  }

  ghost predicate AllEdits(ps: seq<Pair>)
  {
    forall i :: 0 <= i < |ps| ==> IsEdit(ps[i].key)
  }

  function EditedAll(loco: Loco, ps: seq<Pair>): (r: Loco)
    decreases |ps|
  {
    if ps == [] then loco else EditedAll(Edited(loco, ps[0]), ps[1..])
  }

  lemma {:induction false} EditsFold(w: Work, i: nat, ps: seq<Pair>)
    requires w.active == Some(i) && i < |w.cfg.locos| && AllEdits(ps)
    ensures ApplyPairs(w, ps) == w.(cfg := w.cfg.(locos := w.cfg.locos[i := EditedAll(w.cfg.locos[i], ps)]))
    decreases |ps|
  {
    var locos := w.cfg.locos;
    if ps == [] {
      assert locos[i := locos[i]] == locos;
    } else {
      assert IsEdit(ps[0].key);
      var w1 := ApplyPair(w, ps[0]);
      assert w1 == EditActive(w, ps[0]);
      EditsFold(w1, i, ps[1..]);
      var last := EditedAll(locos[i], ps);
      assert locos[i := Edited(locos[i], ps[0])][i := last] == locos[i := last];
    }
  }

  /** Selecting a slot and editing it. */
  function SlotEdited(locos: seq<Loco>, slot: nat, ps: seq<Pair>): (r: seq<Loco>)
  {
    Extended(locos, slot)[slot := EditedAll(Extended(locos, slot)[slot], ps)]
  }

  lemma SlotSelected(slot: nat)
    requires slot < 255
    ensures SlotNumber(slot) == slot + 1 && SelectedBy(Decimal(SlotNumber(slot))) == Some(slot)
  {
    ParseUnsignedRoundTrip(slot + 1, USIZE_LIMIT);
  }

  lemma SlotWritten(d: Device, slot: nat, ps: seq<Pair>)
    requires slot < 255 && AllEdits(ps)
    ensures AppliedPairs(d, [Pair(SelectLoco, Decimal(SlotNumber(slot)))] + ps) ==
            d.(cfg := d.cfg.(locos := SlotEdited(d.cfg.locos, slot, ps)), active := Some(slot))
  {
    SlotSelected(slot);
    var w := Work(d.cfg, d.active, None, None);
    var select := Pair(SelectLoco, Decimal(SlotNumber(slot)));
    PairsCons(w, select, ps);
    var w1 := w.(cfg := d.cfg.(locos := Extended(d.cfg.locos, slot)), active := Some(slot));
    EditsFold(w1, slot, ps);
  }

  // The four or five parameters of a slot.

  /** A slot after its own write; the long-address flag can be set but not cleared. */
  function Basic(loco: Loco, e: RosterEntry): (r: Loco)
  {
    loco.(address := WrittenAddress(e),
          mode := Some(if e.mode.Some? then e.mode.value else ""),
          direction := Some(if e.direction.Some? then e.direction.value else DONT_CHANGE),
          longAddress := if e.longAddress == Some(true) then Some(true) else loco.longAddress)
  }

  function BasicPairs(e: RosterEntry): (ps: seq<Pair>)
  {
    [Pair(Address, SignedDecimal(WrittenAddress(e)))] +
    ([Pair(Mode, if e.mode.Some? then e.mode.value else "")] +
     ([Pair(Direction, Decimal(if e.direction.Some? then e.direction.value else DONT_CHANGE))] + LongPair(e)))
  }

  function LongPair(e: RosterEntry): (ps: seq<Pair>)
  {
    if e.longAddress == Some(true) then [Pair(LongAddress, "on")] else []
  }

  lemma EditedCons(loco: Loco, p: Pair, rest: seq<Pair>)
    ensures EditedAll(loco, [p] + rest) == EditedAll(Edited(loco, p), rest)
  {
    assert ([p] + rest)[0] == p && ([p] + rest)[1..] == rest;
  }

  lemma BasicEdits(loco: Loco, e: RosterEntry)
    ensures EditedAll(loco, BasicPairs(e)) == Basic(loco, e)
  {
    var a := WrittenAddress(e);
    var m := if e.mode.Some? then e.mode.value else "";
    var dir: U8 := if e.direction.Some? then e.direction.value else DONT_CHANGE;
    ParseSignedRoundTrip(a, I64_HALF);
    ParseUnsignedRoundTrip(dir, 0x100);
    var p1, p2, p3 := Pair(Address, SignedDecimal(a)), Pair(Mode, m), Pair(Direction, Decimal(dir));
    EditedCons(loco, p1, [p2] + ([p3] + LongPair(e)));
    var l1 := loco.(address := a);
    EditedCons(l1, p2, [p3] + LongPair(e));
    var l2 := l1.(mode := Some(m));
    EditedCons(l2, p3, LongPair(e));
    var l3 := l2.(direction := Some(dir));
    LongEdits(l3, e);
  }

  lemma LongEdits(loco: Loco, e: RosterEntry)
    ensures EditedAll(loco, LongPair(e)) ==
            loco.(longAddress := if e.longAddress == Some(true) then Some(true) else loco.longAddress)
  {
    if e.longAddress == Some(true) {
      EditedCons(loco, Pair(LongAddress, "on"), []);
    }
  }

  lemma MeaningsCons(f: Field, rest: seq<Field>)
    ensures Meanings([f] + rest) == [Meaning(f)] + Meanings(rest)
  {
    assert ([f] + rest)[0] == f && ([f] + rest)[1..] == rest;
  }

  function LongField(e: RosterEntry): (fs: seq<Field>)
  {
    if e.longAddress == Some(true) then [Field(LongAddress, "on")] else []
  }

  lemma LongMeaning(e: RosterEntry)
    ensures Meanings(LongField(e)) == LongPair(e) && forall i :: 0 <= i < |LongField(e)| ==> ValidField(LongField(e)[i])
  {
    PlainOn();
  }

  lemma LocoFieldsInOrder(slot: nat, e: RosterEntry)
    ensures LocoFields(slot, e) ==
            [Field(SelectLoco, Decimal(SlotNumber(slot)))] +
            ([Field(Address, SignedDecimal(WrittenAddress(e)))] +
             ([Field(Mode, Percent.Encode(if e.mode.Some? then e.mode.value else ""))] +
              ([Field(Direction, Decimal(if e.direction.Some? then e.direction.value else DONT_CHANGE))] + LongField(e))))
  {
  }

  /** The mode and the direction as fields, with their defaults. */
  function ModeField(e: RosterEntry): Field
  {
    Field(Mode, Percent.Encode(if e.mode.Some? then e.mode.value else ""))
  }

  function DirectionField(e: RosterEntry): Field
  {
    Field(Direction, Decimal(if e.direction.Some? then e.direction.value else DONT_CHANGE))
  }

  lemma FieldMeanings(e: RosterEntry)
    ensures Meaning(ModeField(e)) == Pair(Mode, if e.mode.Some? then e.mode.value else "")
    ensures Meaning(DirectionField(e)) == Pair(Direction, DirectionField(e).raw)
    ensures ValidField(ModeField(e)) && ValidField(DirectionField(e))
  {
    PlainText(if e.mode.Some? then e.mode.value else "");
    PlainNumber(if e.direction.Some? then e.direction.value else DONT_CHANGE);
  }

  lemma NumberMeaning(k: Key, i: int)
    requires !k.Unknown?
    ensures Meaning(Field(k, SignedDecimal(i))) == Pair(k, SignedDecimal(i)) && ValidField(Field(k, SignedDecimal(i)))
  {
    PlainNumber(i);
  }

  lemma FourMeanings(f0: Field, f1: Field, f2: Field, f3: Field, rest: seq<Field>)
    ensures Meanings([f0] + ([f1] + ([f2] + ([f3] + rest)))) ==
            [Meaning(f0)] + ([Meaning(f1)] + ([Meaning(f2)] + ([Meaning(f3)] + Meanings(rest))))
  {
    MeaningsCons(f3, rest);
    MeaningsCons(f2, [f3] + rest);
    MeaningsCons(f1, [f2] + ([f3] + rest));
    MeaningsCons(f0, [f1] + ([f2] + ([f3] + rest)));
  }

  lemma FourValid(f0: Field, f1: Field, f2: Field, f3: Field, rest: seq<Field>)
    requires ValidField(f0) && ValidField(f1) && ValidField(f2) && ValidField(f3)
    requires forall i :: 0 <= i < |rest| ==> ValidField(rest[i])
    ensures ValidWrite([f0] + ([f1] + ([f2] + ([f3] + rest))))
  {
  }

  lemma LocoMeaning(slot: nat, e: RosterEntry)
    ensures Meanings(LocoFields(slot, e)) == [Pair(SelectLoco, Decimal(SlotNumber(slot)))] + BasicPairs(e)
    ensures ValidWrite(LocoFields(slot, e))
  {
    LocoFieldsInOrder(slot, e);
    NumberMeaning(SelectLoco, SlotNumber(slot));
    NumberMeaning(Address, WrittenAddress(e));
    FieldMeanings(e);
    LongMeaning(e);
    var f0, f1 := Field(SelectLoco, Decimal(SlotNumber(slot))), Field(Address, SignedDecimal(WrittenAddress(e)));
    FourMeanings(f0, f1, ModeField(e), DirectionField(e), LongField(e));
    FourValid(f0, f1, ModeField(e), DirectionField(e), LongField(e));
  }

  lemma LocoWritten(d: Device, slot: nat, e: RosterEntry)
    requires slot < 255
    ensures var x := Extended(d.cfg.locos, slot);
            AfterWrite(d, LocoFields(slot, e)) ==
            d.(cfg := d.cfg.(locos := x[slot := Basic(x[slot], e)]), active := Some(slot))
  {
    LocoMeaning(slot, e);
    SlotWritten(d, slot, BasicPairs(e));
    BasicEdits(Extended(d.cfg.locos, slot)[slot], e);
  }

  // The function map of a slot.

  /** The entries written one by one. */
  function SetFunctions(had: seq<FunctionEntry>, fs: seq<FunctionEntry>): (r: seq<FunctionEntry>)
    decreases |fs|
  {
    if fs == [] then had else SetFunctions(SetFunction(had, fs[0].index, fs[0].value), fs[1..])
  }

  function FunctionPairs(fs: seq<FunctionEntry>): (ps: seq<Pair>)
    ensures AllEdits(ps)
  {
    if fs == [] then [] else [Pair(Function(fs[0].index), Decimal(fs[0].value))] + FunctionPairs(fs[1..])
  }

  lemma {:induction false} FunctionEdits(loco: Loco, fs: seq<FunctionEntry>)
    ensures EditedAll(loco, FunctionPairs(fs)) == loco.(functions := SetFunctions(loco.functions, fs))
    decreases |fs|
  {
    if fs != [] {
      ParseUnsignedRoundTrip(fs[0].value, 0x100);
      var p := Pair(Function(fs[0].index), Decimal(fs[0].value));
      EditedCons(loco, p, FunctionPairs(fs[1..]));
      var next := loco.(functions := SetFunction(loco.functions, fs[0].index, fs[0].value));
      assert Edited(loco, p) == next;
      FunctionEdits(next, fs[1..]);
    }
  }

  lemma {:induction false} FunctionsMeaning(fs: seq<FunctionEntry>)
    ensures Meanings(FunctionFieldsOf(fs)) == FunctionPairs(fs)
    ensures forall i :: 0 <= i < |fs| ==> ValidField(FunctionFieldsOf(fs)[i])
  {
    if fs != [] {
      PlainNumber(fs[0].value);
      FunctionsMeaning(fs[1..]);
      MeaningsCons(Field(Function(fs[0].index), Decimal(fs[0].value)), FunctionFieldsOf(fs[1..]));
    }
  }

  lemma FunctionMeaning(slot: nat, e: RosterEntry)
    ensures Meanings(FunctionFields(slot, e)) == [Pair(SelectLoco, Decimal(SlotNumber(slot)))] + FunctionPairs(e.functions)
    ensures ValidWrite(FunctionFields(slot, e))
  {
    PlainNumber(SlotNumber(slot));
    FunctionsMeaning(e.functions);
    MeaningsCons(Field(SelectLoco, Decimal(SlotNumber(slot))), FunctionFieldsOf(e.functions));
  }

  lemma FunctionsWritten(d: Device, slot: nat, e: RosterEntry)
    requires slot < 255
    ensures var x := Extended(d.cfg.locos, slot);
            AfterWrite(d, FunctionFields(slot, e)) ==
            d.(cfg := d.cfg.(locos := x[slot := x[slot].(functions := SetFunctions(x[slot].functions, e.functions))]),
               active := Some(slot))
  {
    FunctionMeaning(slot, e);
    SlotWritten(d, slot, FunctionPairs(e.functions));
    FunctionEdits(Extended(d.cfg.locos, slot)[slot], e.functions);
  }

  // ----- the other writes --------------------------------------------------------------------------

  lemma OneParameter(d: Device, f: Field)
    ensures AfterWrite(d, [f]) == Settle(d, ApplyPair(Work(d.cfg, d.active, None, None), Meaning(f)))
  {
    MeaningsCons(f, []);
    assert [f] + [] == [f];
    PairsCons(Work(d.cfg, d.active, None, None), Meaning(f), []);
  }

  lemma IdentityWritten(d: Device, req: Request)
    ensures ValidWrite(IdentityFields(req))
    ensures AfterWrite(d, IdentityFields(req)) == d.(cfg := d.cfg.(throttleName := Some(req.identity)))
  {
    PlainText(req.identity);
    var f := Field(ThrottleName, Percent.Encode(req.identity));
    OneParameter(d, f);
  }

  /** The server block after its write; the automatic flag can be set but not cleared. */
  function ServerAfter(had: Option<Server>, req: Request): (s: Server)
  {
    Server(req.server.host, req.server.port, req.server.automatic || (had.Some? && had.value.automatic))
  }

  lemma ServerPairs(w: Work, host: string, port: U16, automatic: bool)
    requires w.ssid.None?
    ensures var had := w.cfg.server;
            ApplyPairs(w, [Pair(ServerName, host)] + ([Pair(ServerPort, Decimal(port))] +
                          (if automatic then [Pair(Automatic, "on")] else [])))
            == w.(cfg := w.cfg.(server := Some(Server(host, port, automatic || (had.Some? && had.value.automatic)))))
  {
    var p1, p2 := Pair(ServerName, host), Pair(ServerPort, Decimal(port));
    var rest: seq<Pair> := if automatic then [Pair(Automatic, "on")] else [];
    ParseUnsignedRoundTrip(port, 0x1_0000);
    PairsCons(w, p1, [p2] + rest);
    var w1 := ApplyPair(w, p1);
    PairsCons(w1, p2, rest);
    if automatic {
      PairsCons(ApplyPair(w1, p2), Pair(Automatic, "on"), []);
    }
  }

  lemma ServerWritten(d: Device, req: Request)
    ensures ValidWrite(ServerFields(req))
    ensures AfterWrite(d, ServerFields(req)) == d.(cfg := d.cfg.(server := Some(ServerAfter(d.cfg.server, req))))
  {
    ServerMeaning(req);
    ServerPairs(Work(d.cfg, d.active, None, None), req.server.host, req.server.port, req.server.automatic);
  }

  function AutomaticPair(req: Request): (ps: seq<Pair>)
  {
    if req.server.automatic then [Pair(Automatic, "on")] else []
  }

  function AutomaticField(req: Request): (fs: seq<Field>)
  {
    if req.server.automatic then [Field(Automatic, "on")] else []
  }

  lemma AutomaticMeaning(req: Request)
    ensures Meanings(AutomaticField(req)) == AutomaticPair(req)
    ensures forall i :: 0 <= i < |AutomaticField(req)| ==> ValidField(AutomaticField(req)[i])
  {
    PlainOn();
  }

  lemma TwoMeanings(f1: Field, f2: Field, rest: seq<Field>)
    ensures Meanings([f1] + ([f2] + rest)) == [Meaning(f1)] + ([Meaning(f2)] + Meanings(rest))
  {
    MeaningsCons(f1, [f2] + rest);
    MeaningsCons(f2, rest);
  }

  lemma TwoValid(f1: Field, f2: Field, rest: seq<Field>)
    requires ValidField(f1) && ValidField(f2) && forall i :: 0 <= i < |rest| ==> ValidField(rest[i])
    ensures ValidWrite([f1] + ([f2] + rest))
  {
  }

  lemma ServerFieldsInOrder(req: Request)
    ensures ServerFields(req) == [Field(ServerName, Percent.Encode(req.server.host))] +
                                 ([Field(ServerPort, Decimal(req.server.port))] + AutomaticField(req))
  {
  }

  lemma ServerMeaning(req: Request)
    ensures ValidWrite(ServerFields(req))
    ensures Meanings(ServerFields(req)) ==
            [Pair(ServerName, req.server.host)] + ([Pair(ServerPort, Decimal(req.server.port))] + AutomaticPair(req))
  {
    var f1, f2 := Field(ServerName, Percent.Encode(req.server.host)), Field(ServerPort, Decimal(req.server.port));
    ServerFieldsInOrder(req);
    PlainText(req.server.host);
    NumberMeaning(ServerPort, req.server.port);
    AutomaticMeaning(req);
    TwoMeanings(f1, f2, AutomaticField(req));
    TwoValid(f1, f2, AutomaticField(req));
  }

  lemma RemoveValid(req: Request)
    ensures ValidWrite(RemoveFields(req))
  {
    PlainText(req.wifi.ssid);
  }

  lemma RemoveWritten(d: Device, req: Request)
    ensures ValidWrite(RemoveFields(req))
    ensures AfterWrite(d, RemoveFields(req)) == d.(cfg := d.cfg.(networks := Without(d.cfg.networks, req.wifi.ssid)))
  {
    PlainText(req.wifi.ssid);
    OneParameter(d, Field(Remove, Percent.Encode(req.wifi.ssid)));
  }

  /** The key the device stores: an empty one counts as none. */
  function StoredKey(req: Request): (k: Option<string>)
  {
    if req.wifi.psk.Some? && req.wifi.psk.value != "" then req.wifi.psk else None
  }

  lemma {:induction false} UpsertNew(ns: seq<Network>, ssid: string, key: Option<string>)
    requires forall i :: 0 <= i < |ns| ==> ns[i].ssid != ssid
    ensures Upserted(ns, ssid, key) == ns + [Network(ssid, key, true)]
  {
    if ns != [] {
      UpsertNew(ns[1..], ssid, key);
    }
  }

  lemma WifiPairs(w: Work, ssid: string, key: Option<string>)
    requires w.key.None?
    ensures ApplyPairs(w, [Pair(WifiSsid, ssid)] + (if key.Some? then [Pair(WifiKey, key.value)] else []))
            == w.(ssid := Some(ssid), key := key)
  {
    var rest: seq<Pair> := if key.Some? then [Pair(WifiKey, key.value)] else [];
    PairsCons(w, Pair(WifiSsid, ssid), rest);
    if key.Some? {
      PairsCons(w.(ssid := Some(ssid)), Pair(WifiKey, key.value), []);
    }
  }

  lemma WifiWritten(d: Device, req: Request)
    requires forall i :: 0 <= i < |d.cfg.networks| ==> d.cfg.networks[i].ssid != req.wifi.ssid
    ensures ValidWrite(WifiFields(req))
    ensures AfterWrite(d, WifiFields(req)) ==
            d.(cfg := d.cfg.(networks := d.cfg.networks + [Network(req.wifi.ssid, StoredKey(req), true)]))
  {
    WifiMeaning(req);
    WifiPairs(Work(d.cfg, d.active, None, None), req.wifi.ssid, StoredKey(req));
    UpsertNew(d.cfg.networks, req.wifi.ssid, StoredKey(req));
  }

  function KeyPair(req: Request): (ps: seq<Pair>)
  {
    if StoredKey(req).Some? then [Pair(WifiKey, StoredKey(req).value)] else []
  }

  lemma WifiMeaning(req: Request)
    ensures ValidWrite(WifiFields(req))
    ensures Meanings(WifiFields(req)) == [Pair(WifiSsid, req.wifi.ssid)] + KeyPair(req)
  {
    PlainText(req.wifi.ssid);
    var f := Field(WifiSsid, Percent.Encode(req.wifi.ssid));
    if StoredKey(req).Some? {
      PlainText(req.wifi.psk.value);
      MeaningsCons(f, [Field(WifiKey, Percent.Encode(req.wifi.psk.value))]);
    } else {
      MeaningsCons(f, []);
    }
  }
}
