/**
 The WiFred theorem: programming any device that speaks structure version 1 with any
 accepted request succeeds, and leaves the device as requested.
 */
module WifredEndToEnd {
  import opened Prelude
  import opened WifredConfig
  import opened WifredDevice
  import opened Requests
  import opened WifredDriver
  import opened WifredEffects
  import ConfigXml

  // ----- the slots ---------------------------------------------------------------------

  function SlotBefore(locos: seq<Loco>, s: nat): (l: Loco)
  {
    if s < |locos| then locos[s] else UnusedLoco(None)
  }

  function Mapped(l: Loco, e: RosterEntry): (r: Loco)
  {
    l.(functions := SetFunctions(l.functions, e.functions))
  }

  /** Slot `s` once the first `k` slots and the first `j` function maps are written. */
  function SlotAt(locos: seq<Loco>, roster: seq<RosterEntry>, k: nat, j: nat, s: nat): (l: Loco)
    requires j <= k <= |roster|
  {
    var l := SlotBefore(locos, s);
    if s < j then Mapped(Basic(l, roster[s]), roster[s])
    else if s < k then Basic(l, roster[s])
    else l
  }

  function LocosAt(locos: seq<Loco>, roster: seq<RosterEntry>, k: nat, j: nat): (r: seq<Loco>)
    requires j <= k <= |roster|
    ensures |r| == if |locos| < k then k else |locos|
    ensures forall s :: 0 <= s < |r| ==> r[s] == SlotAt(locos, roster, k, j, s)
  {
    seq(if |locos| < k then k else |locos|, s requires s >= 0 => SlotAt(locos, roster, k, j, s))
  }

  lemma LocosAtStart(locos: seq<Loco>, roster: seq<RosterEntry>)
    ensures LocosAt(locos, roster, 0, 0) == locos
  {
  }

  lemma LocosGrow(locos: seq<Loco>, roster: seq<RosterEntry>, k: nat)
    requires k < |roster|
    ensures var x := Extended(LocosAt(locos, roster, k, 0), k);
            x[k := Basic(x[k], roster[k])] == LocosAt(locos, roster, k + 1, 0)
  {
  }

  lemma LocosMapped(locos: seq<Loco>, roster: seq<RosterEntry>, j: nat)
    requires j < |roster|
    ensures var x := Extended(LocosAt(locos, roster, |roster|, j), j);
            x[j := Mapped(x[j], roster[j])] == LocosAt(locos, roster, |roster|, j + 1)
  {
  }

  lemma LocosNotMapped(locos: seq<Loco>, roster: seq<RosterEntry>, j: nat)
    requires j < |roster| && roster[j].functions == []
    ensures LocosAt(locos, roster, |roster|, j) == LocosAt(locos, roster, |roster|, j + 1)
  {
  }

  lemma SlotWrittenAt(d: Device, locos: seq<Loco>, roster: seq<RosterEntry>, k: nat)
    requires k < |roster| < 255 && d.cfg.locos == LocosAt(locos, roster, k, 0)
    ensures var r := AfterWrite(d, LocoFields(k, roster[k]));
            r.cfg == d.cfg.(locos := LocosAt(locos, roster, k + 1, 0)) && r.restarted == d.restarted
  {
    LocoWritten(d, k, roster[k]);
    LocosGrow(locos, roster, k);
  }

  lemma {:induction false} LocosWritten(d: Device, locos: seq<Loco>, roster: seq<RosterEntry>, k: nat)
    requires k <= |roster| < 255 && d.cfg.locos == LocosAt(locos, roster, k, 0)
    ensures var r := AfterWrites(d, LocoWrites(roster, k));
            r.cfg == d.cfg.(locos := LocosAt(locos, roster, |roster|, 0)) && r.restarted == d.restarted
    decreases |roster| - k
  {
    if k < |roster| {
      SlotWrittenAt(d, locos, roster, k);
      OneThenMore(d, LocoFields(k, roster[k]), LocoWrites(roster, k + 1));
      LocosWritten(AfterWrite(d, LocoFields(k, roster[k])), locos, roster, k + 1);
    }
  }

  lemma MapWritten(d: Device, locos: seq<Loco>, roster: seq<RosterEntry>, j: nat)
    requires j < |roster| < 255 && d.cfg.locos == LocosAt(locos, roster, |roster|, j)
    ensures var r := AfterWrite(d, FunctionFields(j, roster[j]));
            r.cfg == d.cfg.(locos := LocosAt(locos, roster, |roster|, j + 1)) && r.restarted == d.restarted
  {
    FunctionsWritten(d, j, roster[j]);
    LocosMapped(locos, roster, j);
  }

  lemma {:induction false} MapsWritten(d: Device, locos: seq<Loco>, roster: seq<RosterEntry>, j: nat)
    requires j <= |roster| < 255 && d.cfg.locos == LocosAt(locos, roster, |roster|, j)
    ensures var r := AfterWrites(d, FunctionWrites(roster, j));
            r.cfg == d.cfg.(locos := LocosAt(locos, roster, |roster|, |roster|)) && r.restarted == d.restarted
    decreases |roster| - j
  {
    if j < |roster| {
      if roster[j].functions == [] {
        LocosNotMapped(locos, roster, j);
        MapsWritten(d, locos, roster, j + 1);
      } else {
        MapWritten(d, locos, roster, j);
        MapsWritten(AfterWrite(d, FunctionFields(j, roster[j])), locos, roster, j + 1);
      }
    }
  }

  // ----- all the writes --------------------------------------------------------------------

  /** The configuration a request leaves behind. */
  function FinalConfig(cfg: Config, req: Request): (r: Config)
  {
    cfg.(throttleName := Some(req.identity),
         locos := LocosAt(cfg.locos, req.roster, |req.roster|, |req.roster|),
         server := Some(ServerAfter(cfg.server, req)),
         networks := Without(cfg.networks, req.wifi.ssid) + [Network(req.wifi.ssid, StoredKey(req), true)])
  }

  lemma LastWritten(d: Device, req: Request)
    ensures var r := AfterWrites(d, LastWrites(req));
            && r.cfg == d.cfg.(server := Some(ServerAfter(d.cfg.server, req)),
                               networks := Without(d.cfg.networks, req.wifi.ssid) + [Network(req.wifi.ssid, StoredKey(req), true)])
            && r.restarted == d.restarted
  {
    var s, m, w := ServerFields(req), RemoveFields(req), WifiFields(req);
    ServerWritten(d, req);
    var d1 := AfterWrite(d, s);
    RemoveWritten(d1, req);
    var d2 := AfterWrite(d1, m);
    WifiWritten(d2, req);
    ThreeWrites(d, s, m, w);
  }

  lemma ThreeWrites(d: Device, a: Write, b: Write, c: Write)
    ensures AfterWrites(d, [a, b, c]) == AfterWrite(AfterWrite(AfterWrite(d, a), b), c)
  {
    assert [a, b, c] == [a] + ([b] + ([c] + []));
    OneThenMore(d, a, [b] + ([c] + []));
    OneThenMore(AfterWrite(d, a), b, [c] + []);
    OneThenMore(AfterWrite(AfterWrite(d, a), b), c, []);
  }

  /** The writes together, on any device and for any roster of at most 254 slots. */
  lemma AllWritten(d: Device, req: Request)
    requires |req.roster| < 255
    ensures var r := AfterWrites(d, Writes(req)); r.cfg == FinalConfig(d.cfg, req) && r.restarted == d.restarted
  {
    var locos, maps, last := LocoWrites(req.roster, 0), FunctionWrites(req.roster, 0), LastWrites(req);
    IdentityWritten(d, req);
    OneThenMore(d, IdentityFields(req), locos + (maps + last));
    var d1 := AfterWrite(d, IdentityFields(req));
    LocosAtStart(d.cfg.locos, req.roster);
    LocosWritten(d1, d.cfg.locos, req.roster, 0);
    AfterAppend(d1, locos, maps + last);
    var d2 := AfterWrites(d1, locos);
    MapsWritten(d2, d.cfg.locos, req.roster, 0);
    AfterAppend(d2, maps, last);
    LastWritten(AfterWrites(d2, maps), req);
  }

  lemma OneThenMore(d: Device, w: Write, ws: seq<Write>)
    ensures AfterWrites(d, [w] + ws) == AfterWrites(AfterWrite(d, w), ws)
  {
    assert ([w] + ws)[0] == w && ([w] + ws)[1..] == ws;
  }

  lemma {:induction false} LocoWritesValid(roster: seq<RosterEntry>, k: nat)
    requires k <= |roster|
    ensures AllValid(LocoWrites(roster, k))
    decreases |roster| - k
  {
    if k < |roster| {
      LocoMeaning(k, roster[k]);
      LocoWritesValid(roster, k + 1);
    }
  }

  lemma {:induction false} FunctionWritesValid(roster: seq<RosterEntry>, k: nat)
    requires k <= |roster|
    ensures AllValid(FunctionWrites(roster, k))
    decreases |roster| - k
  {
    if k < |roster| {
      FunctionMeaning(k, roster[k]);
      FunctionWritesValid(roster, k + 1);
    }
  }

  lemma WritesValid(req: Request)
    ensures AllValid(Writes(req))
  {
    IdentityWritten(Device(EmptyConfig, false, None), req);
    LocoWritesValid(req.roster, 0);
    FunctionWritesValid(req.roster, 0);
    LastWritesValid(req);
    ValidAppend(FunctionWrites(req.roster, 0), LastWrites(req));
    ValidAppend(LocoWrites(req.roster, 0), FunctionWrites(req.roster, 0) + LastWrites(req));
    ValidAppend([IdentityFields(req)], LocoWrites(req.roster, 0) + (FunctionWrites(req.roster, 0) + LastWrites(req)));
  }

  lemma LastWritesValid(req: Request)
    ensures AllValid(LastWrites(req))
  {
    ServerMeaning(req);
    RemoveValid(req);
    WifiMeaning(req);
    ThreeValid(ServerFields(req), RemoveFields(req), WifiFields(req));
  }

  lemma ThreeValid(a: Write, b: Write, c: Write)
    requires ValidWrite(a) && ValidWrite(b) && ValidWrite(c)
    ensures AllValid([a, b, c])
  {
  }

  lemma ValidAppend(a: seq<Write>, b: seq<Write>)
    requires AllValid(a) && AllValid(b)
    ensures AllValid(a + b)
  {
  }

  // ----- the run against the device ------------------------------------------------------------

  /** The HTTP client of a device in state `d` that is sent `plan`. */
  function ClientOf(d: Device, plan: seq<string>): (c: Client)
  {
    (i: nat) => if i < |plan| then Handled(HandledAll(d, plan[..i]), plan[i]).1 else Failed
  }

  lemma ReadsXml(d: Device)
    ensures Handled(d, XML_PATH) == (d, Shown(ConfigXml.Printed(d.cfg)))
  {
    assert XML_PATH[..|XML_PATH|] == XML_PATH;
  }

  lemma Restarts(d: Device)
    ensures Handled(d, RESTART_PATH) == (d.(restarted := true), Page)
  {
    assert RESTART_PATH[..|RESTART_PATH|] == RESTART_PATH;
    FixedPaths();
    NotPrefix(RESTART_PATH, XML_PATH);
  }

  lemma FinalAddresses(cfg: Config, req: Request)
    requires Acceptable(WifredCapabilities, req)
    ensures forall s :: 0 <= s < |req.roster| ==> AddressMatches(FinalConfig(cfg, req), req, s)
  {
    var locos := FinalConfig(cfg, req).locos;
    forall s | 0 <= s < |req.roster| ensures AddressMatches(FinalConfig(cfg, req), req, s) {
      assert AcceptableEntry(WifredCapabilities, req.roster[s]);
      assert locos[s] == SlotAt(cfg.locos, req.roster, |req.roster|, |req.roster|, s);
    }
  }

  lemma FinalAgrees(cfg: Config, req: Request)
    requires Acceptable(WifredCapabilities, req)
    ensures Agrees(FinalConfig(cfg, req), req)
  {
    FinalAddresses(cfg, req);
    var ns := FinalConfig(cfg, req).networks;
    assert ns[|ns| - 1].ssid == req.wifi.ssid && ns[|ns| - 1].enabled;
  }

  /** The read-back after the writes shows the device as requested. */
  lemma ReadBackAgrees(cfg: Config, req: Request)
    requires Acceptable(WifredCapabilities, req)
    ensures Agrees(ConfigXml.Parsed(ConfigXml.Printed(FinalConfig(cfg, req))), req)
  {
    ConfigXml.ParsePrinted(FinalConfig(cfg, req));
    FinalAgrees(cfg, req);
    FilledAgrees(FinalConfig(cfg, req), req);
  }

  /** The defaults the printer fills in do not matter to the check. */
  lemma FilledAgrees(cfg: Config, req: Request)
    ensures Agrees(ConfigXml.Filled(cfg), req) <==> Agrees(cfg, req)
  {
    var locos := ConfigXml.FilledLocos(cfg.locos, 0);
    FilledLength(cfg.locos, 0);
    forall s | 0 <= s < |cfg.locos| ensures locos[s].address == cfg.locos[s].address {
      ConfigXml.FilledLocosAt(cfg.locos, 0, s);
    }
    forall s | 0 <= s < |req.roster| ensures AddressMatches(ConfigXml.Filled(cfg), req, s) == AddressMatches(cfg, req, s) {
    }
  }

  lemma {:induction false} FilledLength(locos: seq<Loco>, i: nat)
    ensures |ConfigXml.FilledLocos(locos, i)| == |locos|
    decreases |locos|
  {
    if locos != [] {
      FilledLength(locos[1..], i + 1);
    }
  }

  lemma SnapshotAccepted(d: Device)
    requires d.cfg.structureVersion == Some(STRUCTURE_VERSION)
    ensures SnapshotCheck(Shown(ConfigXml.Printed(d.cfg))).None?
  {
    ConfigXml.ParsePrinted(d.cfg);
  }

  /** The state of the device once the writes of the plan are handled. */
  lemma StateAtReadBack(d: Device, req: Request)
    ensures HandledAll(d, [XML_PATH] + Paths(Writes(req))) == AfterWrites(d, Writes(req))
  {
    ReadsXml(d);
    HandledAppend(d, [XML_PATH], Paths(Writes(req)));
    assert [XML_PATH][1..] == [];
    assert HandledAll(d, [XML_PATH]) == d;
    WritesValid(req);
    WritesHandled(d, Writes(req));
  }

  lemma PlanParts(first: string, writes: seq<string>, x: string, y: string)
    ensures var plan := [first] + (writes + [x, y]);
            && plan[..|plan| - 2] == [first] + writes && plan[..|plan| - 1] == [first] + writes + [x]
            && plan == [first] + writes + [x] + [y]
            && plan[0] == first && plan[|plan| - 2] == x && plan[|plan| - 1] == y
            && forall i :: 0 < i < |plan| - 2 ==> plan[i] == writes[i - 1]
  {
  }

  /** The first reply is accepted. */
  lemma FirstReply(d: Device, req: Request)
    requires d.cfg.structureVersion == Some(STRUCTURE_VERSION)
    ensures SnapshotCheck(ClientOf(d, Canonical(req))(0)).None?
  {
    ReadsXml(d);
    SnapshotAccepted(d);
    var plan := Canonical(req);
    PlanParts(XML_PATH, Paths(Writes(req)), XML_PATH, RESTART_PATH);
    assert plan[..0] == [];
  }

  /** Every write is answered. */
  lemma WriteReply(d: Device, req: Request, i: nat)
    requires 0 < i < |Canonical(req)| - 2
    ensures ClientOf(d, Canonical(req))(i) == Page
  {
    WritesValid(req);
    var plan := Canonical(req);
    PlanParts(XML_PATH, Paths(Writes(req)), XML_PATH, RESTART_PATH);
    assert plan[i] == PathOf(Writes(req)[i - 1]);
    WriteHandled(HandledAll(d, plan[..i]), Writes(req)[i - 1]);
  }

  /** The read-back is accepted. */
  lemma ReadBackReply(d: Device, req: Request)
    requires Acceptable(WifredCapabilities, req)
    ensures ReadBackCheck(req, ClientOf(d, Canonical(req))(|Canonical(req)| - 2)).None?
  {
    var plan := Canonical(req);
    PlanParts(XML_PATH, Paths(Writes(req)), XML_PATH, RESTART_PATH);
    var state := HandledAll(d, plan[..|plan| - 2]);
    StateAtReadBack(d, req);
    AllWritten(d, req);
    ReadsXml(state);
    ReadBackAccepted(d.cfg, req);
  }

  lemma ReadBackAccepted(cfg: Config, req: Request)
    requires Acceptable(WifredCapabilities, req)
    ensures ReadBackCheck(req, Shown(ConfigXml.Printed(FinalConfig(cfg, req)))).None?
  {
    ReadBackAgrees(cfg, req);
    MismatchesEmptyIff(ConfigXml.Parsed(ConfigXml.Printed(FinalConfig(cfg, req))), req);
  }

  /** The restart is answered. */
  lemma RestartReply(d: Device, req: Request)
    ensures ClientOf(d, Canonical(req))(|Canonical(req)| - 1) == Page
  {
    var plan := Canonical(req);
    PlanParts(XML_PATH, Paths(Writes(req)), XML_PATH, RESTART_PATH);
    Restarts(HandledAll(d, plan[..|plan| - 1]));
  }

  ghost predicate FineReads(req: Request, client: Client, n: nat)
  {
    n > 2 && SnapshotCheck(client(0)).None? && ReadBackCheck(req, client(n - 2)).None?
  }

  ghost predicate FinePages(client: Client, n: nat)
  {
    n > 2 && client(n - 1) == Page && forall i :: 0 < i < n - 2 ==> client(i) == Page
  }

  lemma AllFine(req: Request, client: Client, n: nat)
    requires FineReads(req, client, n) && FinePages(client, n)
    ensures NoObjection(ChecksOf(req), n, client, n)
  {
    forall i | 0 <= i < n ensures Objection(ChecksOf(req), n, i, client(i)).None? {
      if i == 0 {
        FineSnapshot(req, n, client(0));
      } else if i == n - 2 {
        FineReadBack(req, n, client(n - 2));
      } else {
        FineWrite(ChecksOf(req), n, i);
      }
    }
  }

  lemma PagesFine(d: Device, req: Request)
    ensures FinePages(ClientOf(d, Canonical(req)), |Canonical(req)|)
  {
    forall i | 0 < i < |Canonical(req)| - 2 ensures ClientOf(d, Canonical(req))(i) == Page {
      WriteReply(d, req, i);
    }
    RestartReply(d, req);
  }

  lemma ReadsFine(d: Device, req: Request)
    requires Acceptable(WifredCapabilities, req) && d.cfg.structureVersion == Some(STRUCTURE_VERSION)
    ensures FineReads(req, ClientOf(d, Canonical(req)), |Canonical(req)|)
  {
    FirstReply(d, req);
    ReadBackReply(d, req);
  }

  /** No reply of the device meets an objection. */
  lemma NothingToObject(d: Device, req: Request)
    requires Acceptable(WifredCapabilities, req) && d.cfg.structureVersion == Some(STRUCTURE_VERSION)
    ensures NoObjection(ChecksOf(req), |Canonical(req)|, ClientOf(d, Canonical(req)), |Canonical(req)|)
  {
    ReadsFine(d, req);
    PagesFine(d, req);
    AllFine(req, ClientOf(d, Canonical(req)), |Canonical(req)|);
  }

  lemma FineSnapshot(req: Request, n: nat, reply: Reply)
    requires SnapshotCheck(reply).None?
    ensures Objection(ChecksOf(req), n, 0, reply).None?
  {
  }

  lemma FineReadBack(req: Request, n: nat, reply: Reply)
    requires n > 2 && ReadBackCheck(req, reply).None?
    ensures Objection(ChecksOf(req), n, n - 2, reply).None?
  {
  }

  lemma FineWrite(c: Checks, n: nat, i: nat)
    requires i > 0 && i + 2 != n
    ensures Objection(c, n, i, Page).None?
  {
  }

  lemma FinalState(d: Device, req: Request)
    requires |req.roster| < 255
    ensures var r := HandledAll(d, Canonical(req)); r.cfg == FinalConfig(d.cfg, req) && r.restarted
  {
    var writes := Paths(Writes(req));
    PlanParts(XML_PATH, writes, XML_PATH, RESTART_PATH);
    StateAtReadBack(d, req);
    AllWritten(d, req);
    var before := AfterWrites(d, Writes(req));
    ReadsXml(before);
    HandledOne(before, XML_PATH);
    HandledAppend(d, [XML_PATH] + writes, [XML_PATH]);
    Restarts(before);
    HandledOne(before, RESTART_PATH);
    HandledAppend(d, [XML_PATH] + writes + [XML_PATH], [RESTART_PATH]);
  }

  lemma HandledOne(d: Device, path: string)
    ensures HandledAll(d, [path]) == Handled(d, path).0
  {
  }

  /**
   End to end. Whatever the device held before, programming it with an accepted request
   issues the whole canonical sequence, fails nowhere, and leaves the final configuration.
   */
  lemma EndToEnd(d: Device, req: Request, plan: seq<string>, issued: seq<string>, r: Option<DriverError>)
    requires Acceptable(WifredCapabilities, req) && d.cfg.structureVersion == Some(STRUCTURE_VERSION)
    requires plan == Canonical(req) && FollowsPlan(ChecksOf(req), ClientOf(d, plan), plan, issued, r)
    ensures r.None? && issued == plan
    ensures HandledAll(d, issued).cfg == FinalConfig(d.cfg, req) && HandledAll(d, issued).restarted
  {
    NothingToObject(d, req);
    NeverStopped(ChecksOf(req), ClientOf(d, plan), plan, issued, r);
    FinalState(d, req);
  }

  lemma NeverStopped(c: Checks, client: Client, plan: seq<string>, issued: seq<string>, r: Option<DriverError>)
    requires FollowsPlan(c, client, plan, issued, r) && NoObjection(c, |plan|, client, |plan|)
    ensures r.None? && issued == plan
  {
  }

  // ----- what the final configuration is ------------------------------------------------------------

  /** Slots beyond the roster are as they were. */
  lemma SlotsBeyondKept(cfg: Config, req: Request, s: nat)
    requires |req.roster| <= s < |cfg.locos|
    ensures var f := FinalConfig(cfg, req); s < |f.locos| && f.locos[s] == cfg.locos[s]
  {
    var f := FinalConfig(cfg, req);
    assert f.locos[s] == SlotAt(cfg.locos, req.roster, |req.roster|, |req.roster|, s);
  }

  /** So is everything else the request does not name, and there are as many slots as before or as requested. */
  lemma OtherSettingsKept(d: Device, req: Request)
    requires |req.roster| < 255
    ensures var f := HandledAll(d, Canonical(req)).cfg;
            && f.structureVersion == d.cfg.structureVersion && f.firmwareRevision == d.cfg.firmwareRevision
            && f.batteryMv == d.cfg.batteryMv
            && |f.locos| == (if |d.cfg.locos| < |req.roster| then |req.roster| else |d.cfg.locos|)
  {
    FinalState(d, req);
  }

  /** The networks with a given name. */
  function Named(ns: seq<Network>, ssid: string): (r: seq<Network>)
  {
    if ns == [] then []
    else (if ns[0].ssid == ssid then [ns[0]] else []) + Named(ns[1..], ssid)
  }

  lemma NamedCons(n: Network, rest: seq<Network>, ssid: string)
    ensures Named([n] + rest, ssid) == (if n.ssid == ssid then [n] else []) + Named(rest, ssid)
  {
    assert ([n] + rest)[0] == n && ([n] + rest)[1..] == rest;
  }

  lemma {:induction false} NamedAppend(a: seq<Network>, b: seq<Network>, ssid: string)
    ensures Named(a + b, ssid) == Named(a, ssid) + Named(b, ssid)
  {
    if a == [] {
      assert a + b == b;
    } else {
      assert a + b == [a[0]] + (a[1..] + b);
      NamedAppend(a[1..], b, ssid);
      NamedCons(a[0], a[1..] + b, ssid);
      Assoc(if a[0].ssid == ssid then [a[0]] else [], Named(a[1..], ssid), Named(b, ssid));
    }
  }

  lemma {:induction false} NamedWithout(ns: seq<Network>, gone: string, ssid: string)
    ensures Named(Without(ns, gone), ssid) == if ssid == gone then [] else Named(ns, ssid)
  {
    if ns != [] {
      NamedWithout(ns[1..], gone, ssid);
      if ns[0].ssid != gone {
        var kept := [ns[0]] + Without(ns[1..], gone);
        assert kept[0] == ns[0] && kept[1..] == Without(ns[1..], gone);
      }
    }
  }

  /** The requested network is there exactly once, enabled; every other network is kept. */
  lemma NetworksAfter(cfg: Config, req: Request, ssid: string)
    ensures Named(FinalConfig(cfg, req).networks, ssid) ==
            if ssid == req.wifi.ssid then [Network(ssid, StoredKey(req), true)] else Named(cfg.networks, ssid)
  {
    var n := Network(req.wifi.ssid, StoredKey(req), true);
    NamedAppend(Without(cfg.networks, req.wifi.ssid), [n], ssid);
    NamedWithout(cfg.networks, req.wifi.ssid, ssid);
    assert [n][1..] == [];
  }

  /** Value a function map gives to an index. */
  function Lookup(fs: seq<FunctionEntry>, index: U8): (v: Option<U8>)
  {
    if fs == [] then None else if fs[0].index == index then Some(fs[0].value) else Lookup(fs[1..], index)
  }

  lemma {:induction false} LookupSet(fs: seq<FunctionEntry>, index: U8, value: U8, other: U8)
    ensures Lookup(SetFunction(fs, index, value), other) == if other == index then Some(value) else Lookup(fs, other)
  {
    var r := SetFunction(fs, index, value);
    if fs == [] {
      assert r[1..] == [];
    } else if fs[0].index == index {
      assert r[1..] == fs[1..];
    } else {
      assert r[0] == fs[0] && r[1..] == SetFunction(fs[1..], index, value);
      LookupSet(fs[1..], index, value, other);
    }
  }

  /** Requested functions take their value, all others keep theirs. */
  lemma {:induction false} FunctionsAfter(had: seq<FunctionEntry>, fs: seq<FunctionEntry>, index: U8)
    requires DistinctIndexes(fs)
    ensures Lookup(SetFunctions(had, fs), index) ==
            if Lookup(fs, index).Some? then Lookup(fs, index) else Lookup(had, index)
    decreases |fs|
  {
    if fs != [] {
      LookupSet(had, fs[0].index, fs[0].value, index);
      FunctionsAfter(SetFunction(had, fs[0].index, fs[0].value), fs[1..], index);
      if index == fs[0].index {
        NotFoundLater(fs[1..], index);
      }
    }
  }

  lemma {:induction false} NotFoundLater(fs: seq<FunctionEntry>, index: U8)
    requires forall i :: 0 <= i < |fs| ==> fs[i].index != index
    ensures Lookup(fs, index).None?
  {
    if fs != [] {
      NotFoundLater(fs[1..], index);
    }
  }

  /** A slot of the roster: what was asked for, field by field. */
  lemma RosterSlot(cfg: Config, req: Request, s: nat, index: U8)
    requires Acceptable(WifredCapabilities, req) && s < |req.roster|
    ensures var before, e := SlotBefore(cfg.locos, s), req.roster[s];
            var locos := FinalConfig(cfg, req).locos;
            && s < |locos| && locos[s].id == before.id
            && locos[s].address == WantedAddress(e)
            && locos[s].mode == Some(if e.mode.Some? then e.mode.value else "")
            && locos[s].direction == Some(if e.direction.Some? then e.direction.value else DONT_CHANGE)
            && Lookup(locos[s].functions, index) ==
               if Lookup(e.functions, index).Some? then Lookup(e.functions, index) else Lookup(before.functions, index)
  {
    assert AcceptableEntry(WifredCapabilities, req.roster[s]);
    FunctionsAfter(SlotBefore(cfg.locos, s).functions, req.roster[s].functions, index);
    assert FinalConfig(cfg, req).locos[s] == SlotAt(cfg.locos, req.roster, |req.roster|, |req.roster|, s);
  }

  /**
   The two flags are different: a request can set them but not clear them, and the
   read-back does not look at them. They end as requested exactly when they were not
   set before or are requested again.
   */
  lemma FlagsAsRequestedIff(cfg: Config, req: Request, s: nat)
    requires s < |req.roster|
    ensures var f, before, e := FinalConfig(cfg, req), SlotBefore(cfg.locos, s), req.roster[s];
            && (f.locos[s].longAddress == Some(true) <==> e.longAddress == Some(true))
               == (before.longAddress != Some(true) || e.longAddress == Some(true))
            && (f.server.value.automatic == req.server.automatic)
               == (cfg.server.None? || !cfg.server.value.automatic || req.server.automatic)
  {
    assert FinalConfig(cfg, req).locos[s] == SlotAt(cfg.locos, req.roster, |req.roster|, |req.roster|, s);
  }

  /**
   A device whose slot 1 has a long address keeps the flag although a short address is
   requested, and the read-back agrees.
   */
  lemma StaleLongAddress(req: Request, cfg: Config)
    requires Matches(Digits(6), req.identity) && req.wifi.ssid != ""
    requires req.roster == [RosterEntry(Some(3), None, None, Some(false), [])]
    requires cfg.locos == [Loco(Some(1), 4711, None, None, Some(true), [])]
    ensures Acceptable(WifredCapabilities, req)
    ensures Agrees(ConfigXml.Parsed(ConfigXml.Printed(FinalConfig(cfg, req))), req)
    ensures |FinalConfig(cfg, req).locos| == 1 && FinalConfig(cfg, req).locos[0].longAddress == Some(true)
  {
    assert AcceptableEntry(WifredCapabilities, req.roster[0]);
    ReadBackAgrees(cfg, req);
    FlagsAsRequestedIff(cfg, req, 0);
  }
}
