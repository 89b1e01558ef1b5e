/** The WiFred driver: the requests it writes, its read-back check, and `program`. */
module WifredDriver {
  import opened Prelude
  import opened Text
  import opened WifredConfig
  import opened WifredQuery
  import opened Requests
  import opened Percent
  import ConfigXml
  import opened WifredDevice

  const STRUCTURE_VERSION := "1"
  const DONT_CHANGE: U8 := 2

  // ----- the writes ------------------------------------------------------------------

  /** The number of a slot in a query, as a byte. */
  function SlotNumber(slot: nat): (n: U8)
  {
    (slot + 1) % 0x100
  }

  /** The address written for an entry: -1 when there is none or it exceeds an i16. */
  function WrittenAddress(e: RosterEntry): (a: I64)
  {
    if e.address.Some? && e.address.value < 0x8000 then e.address.value else -1
  }

  function IdentityFields(req: Request): (fields: seq<Field>)
  {
    [Field(ThrottleName, Encode(req.identity))]
  }

  function LocoFields(slot: nat, e: RosterEntry): (fields: seq<Field>)
  {
    [Field(SelectLoco, Decimal(SlotNumber(slot))),
     Field(Address, SignedDecimal(WrittenAddress(e))),
     Field(Mode, Encode(if e.mode.Some? then e.mode.value else "")),
     Field(Direction, Decimal(if e.direction.Some? then e.direction.value else DONT_CHANGE))] +
    if e.longAddress == Some(true) then [Field(LongAddress, "on")] else []
  }

  function FunctionFieldsOf(fs: seq<FunctionEntry>): (fields: seq<Field>)
    ensures |fields| == |fs|
  {
    if fs == [] then [] else [Field(Function(fs[0].index), Decimal(fs[0].value))] + FunctionFieldsOf(fs[1..])
  }

  function FunctionFields(slot: nat, e: RosterEntry): (fields: seq<Field>)
  {
    [Field(SelectLoco, Decimal(SlotNumber(slot)))] + FunctionFieldsOf(e.functions)
  }

  function ServerFields(req: Request): (fields: seq<Field>)
  {
    [Field(ServerName, Encode(req.server.host)), Field(ServerPort, Decimal(req.server.port))] +
    if req.server.automatic then [Field(Automatic, "on")] else []
  }

  function RemoveFields(req: Request): (fields: seq<Field>)
  {
    [Field(Remove, Encode(req.wifi.ssid))]
  }

  function WifiFields(req: Request): (fields: seq<Field>)
  {
    [Field(WifiSsid, Encode(req.wifi.ssid))] +
    if req.wifi.psk.Some? && req.wifi.psk.value != "" then [Field(WifiKey, Encode(req.wifi.psk.value))] else []
  }

  type Write = seq<Field>

  /** The slots from `slot` on. */
  function LocoWrites(roster: seq<RosterEntry>, slot: nat): (ws: seq<Write>)
    requires slot <= |roster|
    decreases |roster| - slot
  {
    if slot == |roster| then [] else [LocoFields(slot, roster[slot])] + LocoWrites(roster, slot + 1)
  }

  /** The function maps from `slot` on; an empty map is not written. */
  function FunctionWrites(roster: seq<RosterEntry>, slot: nat): (ws: seq<Write>)
    requires slot <= |roster|
    decreases |roster| - slot
  {
    if slot == |roster| then []
    else if roster[slot].functions == [] then FunctionWrites(roster, slot + 1)
    else [FunctionFields(slot, roster[slot])] + FunctionWrites(roster, slot + 1)
  }

  function LastWrites(req: Request): (ws: seq<Write>)
  {
    [ServerFields(req), RemoveFields(req), WifiFields(req)]
  }

  /** Everything written, in order: identity, slots, functions, server, and Wi-Fi last. */
  function Writes(req: Request): (ws: seq<Write>)
  {
    [IdentityFields(req)] + (LocoWrites(req.roster, 0) + (FunctionWrites(req.roster, 0) + LastWrites(req)))
  }

  function PathOf(w: Write): (path: string)
  {
    INDEX_PATH + ['?'] + Query(w)
  }

  function Paths(ws: seq<Write>): (paths: seq<string>)
    ensures |paths| == |ws|
    ensures forall i :: 0 <= i < |ws| ==> paths[i] == PathOf(ws[i])
  {
    if ws == [] then [] else [PathOf(ws[0])] + Paths(ws[1..])
  }

  /** The one sequence of requests that programs a device. */
  function Canonical(req: Request): (paths: seq<string>)
    ensures |paths| == |Writes(req)| + 3
  {
    [XML_PATH] + (Paths(Writes(req)) + [XML_PATH, RESTART_PATH])
  }

  lemma PathStart(w: Write)
    ensures PathOf(w)[1] == 'i'
  {
  }

  lemma FixedPaths()
    ensures XML_PATH[1] == 'a' && RESTART_PATH[1] == 'r' && XML_PATH != RESTART_PATH
  {
  }

  /** The restart is requested at the end and nowhere else. */
  lemma RestartOnlyLast(req: Request, i: nat)
    requires i < |Canonical(req)|
    ensures Canonical(req)[i] == RESTART_PATH <==> i == |Canonical(req)| - 1
  {
    FixedPaths();
    var ws := Writes(req);
    forall k | 0 <= k < |ws| ensures PathOf(ws[k])[1] == 'i' {
      PathStart(ws[k]);
    }
    LastOfPlan(XML_PATH, Paths(ws), RESTART_PATH, i);
  }

  lemma LastOfPlan(first: string, middle: seq<string>, last: string, i: nat)
    requires i < |middle| + 3 && first != last
    requires forall k :: 0 <= k < |middle| ==> middle[k] != last
    ensures ([first] + (middle + [first, last]))[i] == last <==> i == |middle| + 2
  {
  }

  // ----- the read-back check -------------------------------------------------------------

  datatype Mismatch = NameMismatch | ServerMismatch | WifiMismatch | AddressMismatch(slot: nat)

  predicate ServerMatches(cfg: Config, req: Request)
  {
    cfg.server.Some? && cfg.server.value.name == req.server.host && cfg.server.value.port == req.server.port
  }

  predicate HasNetwork(ns: seq<Network>, ssid: string)
  {
    exists i :: 0 <= i < |ns| && ns[i].ssid == ssid && ns[i].enabled
  }

  function WantedAddress(e: RosterEntry): (a: I64)
  {
    if e.address.Some? then e.address.value else -1
  }

  predicate AddressMatches(cfg: Config, req: Request, slot: nat)
    requires slot < |req.roster|
  {
    slot < |cfg.locos| && cfg.locos[slot].address == WantedAddress(req.roster[slot])
  }

  /** The device shows what was requested, as far as the driver reads it back. */
  ghost predicate Agrees(cfg: Config, req: Request)
  {
    && cfg.throttleName == Some(req.identity)
    && ServerMatches(cfg, req)
    && HasNetwork(cfg.networks, req.wifi.ssid)
    && forall s :: 0 <= s < |req.roster| ==> AddressMatches(cfg, req, s)
  }

  function AddressMismatches(cfg: Config, req: Request, slot: nat): (ms: seq<Mismatch>)
    requires slot <= |req.roster|
    decreases |req.roster| - slot
  {
    if slot == |req.roster| then []
    else (if AddressMatches(cfg, req, slot) then [] else [AddressMismatch(slot)]) + AddressMismatches(cfg, req, slot + 1)
  }

  function Mismatches(cfg: Config, req: Request): (ms: seq<Mismatch>)
  {
    (if cfg.throttleName == Some(req.identity) then [] else [NameMismatch]) +
    (if ServerMatches(cfg, req) then [] else [ServerMismatch]) +
    (if HasNetwork(cfg.networks, req.wifi.ssid) then [] else [WifiMismatch]) +
    AddressMismatches(cfg, req, 0)
  }

  lemma {:induction false} NoAddressMismatch(cfg: Config, req: Request, slot: nat)
    requires slot <= |req.roster|
    ensures AddressMismatches(cfg, req, slot) == [] <==>
            forall s :: slot <= s < |req.roster| ==> AddressMatches(cfg, req, s)
    decreases |req.roster| - slot
  {
    if slot < |req.roster| {
      NoAddressMismatch(cfg, req, slot + 1);
    }
  }

  /** The check passes exactly when identity, server, network and every address agree. */
  lemma MismatchesEmptyIff(cfg: Config, req: Request)
    ensures Mismatches(cfg, req) == [] <==> Agrees(cfg, req)
  {
    NoAddressMismatch(cfg, req, 0);
  }

  lemma MismatchTurn(cfg: Config, req: Request, slot: nat, ms: seq<Mismatch>)
    requires slot < |req.roster|
    ensures ms + AddressMismatches(cfg, req, slot) ==
            (if AddressMatches(cfg, req, slot) then ms else ms + [AddressMismatch(slot)]) + AddressMismatches(cfg, req, slot + 1)
  {
    if !AddressMatches(cfg, req, slot) {
      assert ms + ([AddressMismatch(slot)] + AddressMismatches(cfg, req, slot + 1))
          == (ms + [AddressMismatch(slot)]) + AddressMismatches(cfg, req, slot + 1);
    }
  }

  /** `verify`. */
  method Verify(cfg: Config, req: Request) returns (ms: seq<Mismatch>)
    ensures ms == Mismatches(cfg, req)
    ensures ms == [] <==> Agrees(cfg, req)
  {
    MismatchesEmptyIff(cfg, req);
    ms := if cfg.throttleName != Some(req.identity) then [NameMismatch] else [];
    if !ServerMatches(cfg, req) {
      ms := ms + [ServerMismatch];
    }
    if !HasNetwork(cfg.networks, req.wifi.ssid) {
      ms := ms + [WifiMismatch];
    }
    var slot := 0;
    assert ms + AddressMismatches(cfg, req, 0) == Mismatches(cfg, req);
    while slot < |req.roster|
      invariant 0 <= slot <= |req.roster|
      invariant ms + AddressMismatches(cfg, req, slot) == Mismatches(cfg, req)
    {
      MismatchTurn(cfg, req, slot, ms);
      if !AddressMatches(cfg, req, slot) {
        ms := ms + [AddressMismatch(slot)];
      }
      slot := slot + 1;
    }
    assert ms + [] == ms;
  }

  // ----- program ------------------------------------------------------------------------------

  datatype DriverError =
    | HttpError
    | ParseError(reason: ConfigXml.ParseError)
    | UnsupportedVersion(version: string)
    | MissingVersion
    | VerificationFailed(mismatches: seq<Mismatch>)

  /** `check_structure_version`. */
  function CheckVersion(cfg: Config): (r: Option<DriverError>)
    ensures r.None? <==> cfg.structureVersion == Some(STRUCTURE_VERSION)
  {
    match cfg.structureVersion
    case Some(v) => if v == STRUCTURE_VERSION then None else Some(UnsupportedVersion(v))
    case None => Some(MissingVersion)
  }

  function SnapshotCheck(reply: Reply): (r: Option<DriverError>)
  {
    match reply
    case Failed => Some(HttpError)
    case Answer(body) =>
      match ConfigXml.ParsedBody(body)
      case Err(e) => Some(ParseError(e))
      case Ok(cfg) => CheckVersion(cfg)
  }

  function WriteCheck(reply: Reply): (r: Option<DriverError>)
  {
    if reply.Failed? then Some(HttpError) else None
  }

  function ReadBackCheck(req: Request, reply: Reply): (r: Option<DriverError>)
  {
    match reply
    case Failed => Some(HttpError)
    case Answer(body) =>
      match ConfigXml.ParsedBody(body)
      case Err(e) => Some(ParseError(e))
      case Ok(cfg) =>
        var ms := Mismatches(cfg, req);
        if ms == [] then None else Some(VerificationFailed(ms))
  }

  /** The checks of the two configuration reads. */
  datatype Checks = Checks(snapshot: Reply -> Option<DriverError>, readBack: Reply -> Option<DriverError>)

  function ChecksOf(req: Request): (c: Checks)
  {
    Checks(SnapshotCheck, reply => ReadBackCheck(req, reply))
  }

  /** What the driver objects to in the reply to request `i` of `n`. */
  function Objection(c: Checks, n: nat, i: nat, reply: Reply): (r: Option<DriverError>)
  {
    if i == 0 then c.snapshot(reply)
    else if i + 2 == n then c.readBack(reply)
    else WriteCheck(reply)
  }

  /** Reply to the i-th request: any behaviour of the HTTP client and the device behind it. */
  type Client = nat -> Reply

  ghost predicate NoObjection(c: Checks, n: nat, client: Client, k: nat)
  {
    forall i :: 0 <= i < k ==> Objection(c, n, i, client(i)).None?
  }

  /** The requests issued are the plan up to the first objection, or all of it. */
  ghost predicate FollowsPlan(c: Checks, client: Client, plan: seq<string>, issued: seq<string>, r: Option<DriverError>)
  {
    var n := |issued|;
    && n > 0 && issued <= plan
    && (r.None? ==> issued == plan && NoObjection(c, |plan|, client, n))
    && (r.Some? ==> NoObjection(c, |plan|, client, n - 1) && Objection(c, |plan|, n - 1, client(n - 1)) == r)
  }

  /** The requests issued so far, the writes still to come and two more requests make up the plan. */
  ghost predicate OnTrack(c: Checks, client: Client, plan: seq<string>, issued: seq<string>, todo: seq<string>)
  {
    && |issued| > 0 && |plan| == |issued| + |todo| + 2
    && issued + todo == plan[..|plan| - 2]
    && NoObjection(c, |plan|, client, |issued|)
  }

  lemma NextWrite(c: Checks, client: Client, plan: seq<string>, issued: seq<string>, path: string, todo: seq<string>)
    requires OnTrack(c, client, plan, issued, [path] + todo)
    ensures WriteCheck(client(|issued|)).None? ==> OnTrack(c, client, plan, issued + [path], todo)
    ensures WriteCheck(client(|issued|)).Some? ==>
              FollowsPlan(c, client, plan, issued + [path], WriteCheck(client(|issued|)))
  {
    assert issued + ([path] + todo) == (issued + [path]) + todo;
    assert plan[..|issued| + 1] == plan[..|plan| - 2][..|issued| + 1] == issued + [path];
    assert Objection(c, |plan|, |issued|, client(|issued|)) == WriteCheck(client(|issued|));
  }

  /** One write: issue it and keep going unless the reply is a failure. */
  method Get(c: Checks, client: Client, ghost plan: seq<string>, issued: seq<string>, path: string, ghost todo: seq<string>)
    returns (after: seq<string>, r: Option<DriverError>)
    requires OnTrack(c, client, plan, issued, [path] + todo)
    ensures after == issued + [path]
    ensures r.None? ==> OnTrack(c, client, plan, after, todo)
    ensures r.Some? ==> FollowsPlan(c, client, plan, after, r)
  {
    NextWrite(c, client, plan, issued, path, todo);
    after := issued + [path];
    r := WriteCheck(client(|issued|));
  }

  lemma LocoTurn(roster: seq<RosterEntry>, slot: nat, last: seq<string>)
    requires slot < |roster|
    ensures Paths(LocoWrites(roster, slot)) + last ==
            [PathOf(LocoFields(slot, roster[slot]))] + (Paths(LocoWrites(roster, slot + 1)) + last)
  {
    PathsCons(LocoFields(slot, roster[slot]), LocoWrites(roster, slot + 1), last);
  }

  lemma FunctionTurn(roster: seq<RosterEntry>, slot: nat, last: seq<string>)
    requires slot < |roster| && roster[slot].functions != []
    ensures Paths(FunctionWrites(roster, slot)) + last ==
            [PathOf(FunctionFields(slot, roster[slot]))] + (Paths(FunctionWrites(roster, slot + 1)) + last)
  {
    PathsCons(FunctionFields(slot, roster[slot]), FunctionWrites(roster, slot + 1), last);
  }

  lemma PathsCons(w: Write, ws: seq<Write>, last: seq<string>)
    ensures Paths([w] + ws) + last == [PathOf(w)] + (Paths(ws) + last)
  {
    assert ([w] + ws)[0] == w && ([w] + ws)[1..] == ws;
  }

  lemma {:induction false} PathsAppend(a: seq<Write>, b: seq<Write>)
    ensures Paths(a + b) == Paths(a) + Paths(b)
  {
    if a == [] {
      assert a + b == b;
    } else {
      assert (a + b)[0] == a[0] && (a + b)[1..] == a[1..] + b;
      PathsAppend(a[1..], b);
    }
  }

  method WriteLocos(c: Checks, client: Client, ghost plan: seq<string>, issued: seq<string>, roster: seq<RosterEntry>, ghost last: seq<string>)
    returns (after: seq<string>, r: Option<DriverError>)
    requires OnTrack(c, client, plan, issued, Paths(LocoWrites(roster, 0)) + last)
    ensures r.None? ==> OnTrack(c, client, plan, after, last)
    ensures r.Some? ==> FollowsPlan(c, client, plan, after, r)
  {
    after := issued;
    var slot := 0;
    while slot < |roster|
      invariant 0 <= slot <= |roster|
      invariant OnTrack(c, client, plan, after, Paths(LocoWrites(roster, slot)) + last)
    {
      LocoTurn(roster, slot, last);
      after, r := Get(c, client, plan, after, PathOf(LocoFields(slot, roster[slot])), Paths(LocoWrites(roster, slot + 1)) + last);
      if r.Some? {
        return;
      }
      slot := slot + 1;
    }
    assert [] + last == last;
    r := None;
  }

  method WriteFunctions(c: Checks, client: Client, ghost plan: seq<string>, issued: seq<string>, roster: seq<RosterEntry>, ghost last: seq<string>)
    returns (after: seq<string>, r: Option<DriverError>)
    requires OnTrack(c, client, plan, issued, Paths(FunctionWrites(roster, 0)) + last)
    ensures r.None? ==> OnTrack(c, client, plan, after, last)
    ensures r.Some? ==> FollowsPlan(c, client, plan, after, r)
  {
    after := issued;
    var slot := 0;
    while slot < |roster|
      invariant 0 <= slot <= |roster|
      invariant OnTrack(c, client, plan, after, Paths(FunctionWrites(roster, slot)) + last)
    {
      if roster[slot].functions != [] {
        FunctionTurn(roster, slot, last);
        after, r := Get(c, client, plan, after, PathOf(FunctionFields(slot, roster[slot])), Paths(FunctionWrites(roster, slot + 1)) + last);
        if r.Some? {
          return;
        }
      }
      slot := slot + 1;
    }
    assert [] + last == last;
    r := None;
  }

  /** Steps 3 and 4: the slots, then their function maps. */
  method WriteSlots(c: Checks, client: Client, ghost plan: seq<string>, issued: seq<string>, roster: seq<RosterEntry>, ghost last: seq<string>)
    returns (after: seq<string>, r: Option<DriverError>)
    requires OnTrack(c, client, plan, issued, Paths(LocoWrites(roster, 0)) + (Paths(FunctionWrites(roster, 0)) + last))
    ensures r.None? ==> OnTrack(c, client, plan, after, last)
    ensures r.Some? ==> FollowsPlan(c, client, plan, after, r)
  {
    after, r := WriteLocos(c, client, plan, issued, roster, Paths(FunctionWrites(roster, 0)) + last);
    if r.None? {
      after, r := WriteFunctions(c, client, plan, after, roster, last);
    }
  }

  method WriteThree(c: Checks, client: Client, ghost plan: seq<string>, issued: seq<string>, p: string, q: string, s: string)
    returns (after: seq<string>, r: Option<DriverError>)
    requires OnTrack(c, client, plan, issued, [p, q, s])
    ensures r.None? ==> OnTrack(c, client, plan, after, [])
    ensures r.Some? ==> FollowsPlan(c, client, plan, after, r)
  {
    assert [p, q, s] == [p] + [q, s] && [q, s] == [q] + [s] && [s] == [s] + [];
    after, r := Get(c, client, plan, issued, p, [q, s]);
    if r.Some? {
      return;
    }
    after, r := Get(c, client, plan, after, q, [s]);
    if r.Some? {
      return;
    }
    after, r := Get(c, client, plan, after, s, []);
  }

  /** Steps 7 and 8: read back, then restart. */
  method VerifyAndRestart(c: Checks, client: Client, ghost plan: seq<string>, issued: seq<string>, xml: string, restart: string)
    returns (after: seq<string>, r: Option<DriverError>)
    requires OnTrack(c, client, plan, issued, []) && plan[|plan| - 2..] == [xml, restart]
    ensures FollowsPlan(c, client, plan, after, r)
  {
    ghost var n := |plan|;
    assert plan[n - 2] == plan[n - 2..][0] == xml && plan[n - 1] == plan[n - 2..][1] == restart;
    assert issued + [] == issued;
    after := issued + [xml];
    assert after == plan[..n - 1];
    r := c.readBack(client(|issued|));
    if r.Some? {
      return;
    }
    after := after + [restart];
    assert after == plan;
    r := WriteCheck(client(|issued| + 1));
  }

  lemma Started(c: Checks, client: Client, first: string, writes: seq<string>, last: seq<string>)
    requires c.snapshot(client(0)).None? && |last| == 2
    ensures OnTrack(c, client, [first] + (writes + last), [first], writes)
  {
    var plan := [first] + (writes + last);
    assert plan[..|plan| - 2] == [first] + writes;
  }

  lemma WritesInStages(req: Request)
    ensures Paths(Writes(req)) == [PathOf(IdentityFields(req))] + (Paths(LocoWrites(req.roster, 0)) +
                                  (Paths(FunctionWrites(req.roster, 0)) + Paths(LastWrites(req))))
  {
    var locos, functions, last := LocoWrites(req.roster, 0), FunctionWrites(req.roster, 0), LastWrites(req);
    PathsAppend([IdentityFields(req)], locos + (functions + last));
    PathsAppend(locos, functions + last);
    PathsAppend(functions, last);
  }

  lemma LastInOrder(req: Request)
    ensures Paths(LastWrites(req)) == [PathOf(ServerFields(req)), PathOf(RemoveFields(req)), PathOf(WifiFields(req))]
  {
  }

  /**
   `program`, against any client: the requests issued are a prefix of the canonical
   sequence, which ends where the first objection arises.
   */
  method Program(req: Request, client: Client) returns (issued: seq<string>, r: Option<DriverError>)
    ensures FollowsPlan(ChecksOf(req), client, Canonical(req), issued, r)
  {
    ghost var plan := Canonical(req);
    WritesInStages(req);
    LastInOrder(req);
    issued, r := ProgramWith(ChecksOf(req), client, plan, req);
  }

  method ProgramWith(c: Checks, client: Client, ghost plan: seq<string>, req: Request) returns (issued: seq<string>, r: Option<DriverError>)
    requires plan == [XML_PATH] + (([PathOf(IdentityFields(req))] + (Paths(LocoWrites(req.roster, 0)) +
                     (Paths(FunctionWrites(req.roster, 0)) +
                      [PathOf(ServerFields(req)), PathOf(RemoveFields(req)), PathOf(WifiFields(req))]))) + [XML_PATH, RESTART_PATH])
    ensures FollowsPlan(c, client, plan, issued, r)
  {
    issued := [XML_PATH];
    r := c.snapshot(client(0));
    if r.Some? {
      return;
    }
    ghost var three := [PathOf(ServerFields(req)), PathOf(RemoveFields(req)), PathOf(WifiFields(req))];
    ghost var functions := Paths(FunctionWrites(req.roster, 0)) + three;
    ghost var locos := Paths(LocoWrites(req.roster, 0)) + functions;
    Started(c, client, XML_PATH, [PathOf(IdentityFields(req))] + locos, [XML_PATH, RESTART_PATH]);
    issued, r := Get(c, client, plan, issued, PathOf(IdentityFields(req)), locos);
    if r.Some? {
      return;
    }
    issued, r := WriteSlots(c, client, plan, issued, req.roster, three);
    if r.Some? {
      return;
    }
    issued, r := WriteThree(c, client, plan, issued, PathOf(ServerFields(req)), PathOf(RemoveFields(req)), PathOf(WifiFields(req)));
    if r.Some? {
      return;
    }
    issued, r := VerifyAndRestart(c, client, plan, issued, XML_PATH, RESTART_PATH);
  }

  lemma LastIssued(c: Checks, client: Client, plan: seq<string>, last: string, issued: seq<string>, r: Option<DriverError>)
    requires FollowsPlan(c, client, plan, issued, r) && last in issued
    requires forall i :: 0 <= i < |plan| && plan[i] == last ==> i == |plan| - 1
    ensures issued == plan && NoObjection(c, |plan|, client, |plan| - 1)
  {
    var i :| 0 <= i < |issued| && issued[i] == last;
    assert plan[i] == plan[..|issued|][i] == last;
  }

  lemma RestartIsLast(req: Request)
    ensures forall i :: 0 <= i < |Canonical(req)| && Canonical(req)[i] == RESTART_PATH ==> i == |Canonical(req)| - 1
  {
    forall i | 0 <= i < |Canonical(req)| && Canonical(req)[i] == RESTART_PATH ensures i == |Canonical(req)| - 1 {
      RestartOnlyLast(req, i);
    }
  }

  lemma AllPassed(req: Request, client: Client, n: nat)
    requires n >= 3 && NoObjection(ChecksOf(req), n, client, n - 1)
    ensures forall i :: 0 <= i < n - 1 ==> !client(i).Failed?
  {
    forall i | 0 <= i < n - 1 ensures !client(i).Failed? {
      PassedReply(req, client, n, i);
    }
  }

  /** A read-back that shows the device as requested. */
  ghost predicate ShowsRequest(req: Request, reply: Reply)
  {
    reply.Answer? && reply.body.Whole? && Agrees(ConfigXml.Parsed(reply.body.events), req)
  }

  /**
   The restart is issued only after every earlier request succeeded and the device
   read back as requested.
   */
  lemma RestartOnlyAfterVerify(req: Request, client: Client, plan: seq<string>, issued: seq<string>, r: Option<DriverError>)
    requires plan == Canonical(req) && FollowsPlan(ChecksOf(req), client, plan, issued, r)
    requires RESTART_PATH in issued
    ensures issued == plan
    ensures forall i :: 0 <= i < |plan| - 1 ==> !client(i).Failed?
    ensures ShowsRequest(req, client(|plan| - 2))
  {
    RestartIsLast(req);
    PassedPlan(req, client, plan, RESTART_PATH, issued, r);
  }

  lemma PassedPlan(req: Request, client: Client, plan: seq<string>, last: string, issued: seq<string>, r: Option<DriverError>)
    requires FollowsPlan(ChecksOf(req), client, plan, issued, r) && last in issued && |plan| >= 3
    requires forall i :: 0 <= i < |plan| && plan[i] == last ==> i == |plan| - 1
    ensures issued == plan
    ensures forall i :: 0 <= i < |plan| - 1 ==> !client(i).Failed?
    ensures ShowsRequest(req, client(|plan| - 2))
  {
    LastIssued(ChecksOf(req), client, plan, last, issued, r);
    AllPassed(req, client, |plan|);
    PassedReadBack(req, client, |plan|);
  }

  lemma PassedReply(req: Request, client: Client, n: nat, j: nat)
    requires n >= 3 && j < n - 1 && NoObjection(ChecksOf(req), n, client, n - 1)
    ensures !client(j).Failed?
  {
    assert Objection(ChecksOf(req), n, j, client(j)).None?;
  }

  lemma PassedReadBack(req: Request, client: Client, n: nat)
    requires n >= 3 && NoObjection(ChecksOf(req), n, client, n - 1)
    ensures ShowsRequest(req, client(n - 2))
  {
    var back := client(n - 2);
    assert Objection(ChecksOf(req), n, n - 2, back).None?;
    assert ReadBackCheck(req, back).None?;
    MismatchesEmptyIff(ConfigXml.Parsed(back.body.events), req);
  }

  predicate ForWifi(key: Key)
  {
    key.Remove? || key.WifiSsid? || key.WifiKey?
  }

  /** No field of these writes concerns the network. */
  ghost predicate NoWifi(ws: seq<Write>)
  {
    forall i, k :: 0 <= i < |ws| && 0 <= k < |ws[i]| ==> !ForWifi(ws[i][k].key)
  }

  lemma LocosNoWifi(roster: seq<RosterEntry>)
    ensures NoWifi(LocoWrites(roster, 0))
  {
    var ws: seq<Write> := LocoWrites(roster, 0);
    forall i, k | 0 <= i < |ws| && 0 <= k < |ws[i]| ensures !ForWifi(ws[i][k].key) {
      LocoKeys(roster, 0, i, k);
    }
  }

  lemma FunctionsNoWifi(roster: seq<RosterEntry>)
    ensures NoWifi(FunctionWrites(roster, 0))
  {
    var ws: seq<Write> := FunctionWrites(roster, 0);
    forall i, k | 0 <= i < |ws| && 0 <= k < |ws[i]| ensures !ForWifi(ws[i][k].key) {
      FunctionKeys(roster, 0, i, k);
    }
  }

  /** In such a list of writes no network field is in front of the last two. */
  lemma OnlyInLastTwo(a: Write, b: seq<Write>, c: seq<Write>, s: Write, m: Write, w: Write, i: nat, k: nat)
    requires NoWifi([a]) && NoWifi(b) && NoWifi(c) && NoWifi([s])
    requires i < |b| + |c| + 2 && k < |([a] + (b + (c + [s, m, w])))[i]|
    ensures !ForWifi(([a] + (b + (c + [s, m, w])))[i][k].key)
  {
    var ws := [a] + (b + (c + [s, m, w]));
    if i == 0 {
      assert [a][0] == ws[i];
    } else if i < 1 + |b| {
      assert ws[i] == b[i - 1];
    } else if i < 1 + |b| + |c| {
      assert ws[i] == c[i - 1 - |b|];
    } else {
      assert [s][0] == ws[i];
    }
  }

  lemma OneNoWifi(req: Request)
    ensures NoWifi([IdentityFields(req)]) && NoWifi([ServerFields(req)])
  {
  }

  /** Wi-Fi parameters appear in no write before the last two. */
  lemma WifiWritesLast(req: Request, i: nat, k: nat)
    requires i < |Writes(req)| - 2 && k < |Writes(req)[i]|
    ensures !ForWifi(Writes(req)[i][k].key)
  {
    LocosNoWifi(req.roster);
    FunctionsNoWifi(req.roster);
    OneNoWifi(req);
    OnlyInLastTwo(IdentityFields(req), LocoWrites(req.roster, 0), FunctionWrites(req.roster, 0),
                  ServerFields(req), RemoveFields(req), WifiFields(req), i, k);
  }

  predicate ForSlot(key: Key)
  {
    key.SelectLoco? || key.Address? || key.Mode? || key.Direction? || key.LongAddress? || key.Function?
  }

  lemma {:induction false} LocoKeys(roster: seq<RosterEntry>, slot: nat, i: nat, k: nat)
    requires slot <= |roster| && i < |LocoWrites(roster, slot)| && k < |LocoWrites(roster, slot)[i]|
    ensures ForSlot(LocoWrites(roster, slot)[i][k].key)
    decreases |roster| - slot
  {
    if i > 0 {
      LocoKeys(roster, slot + 1, i - 1, k);
    }
  }

  lemma {:induction false} FunctionKeys(roster: seq<RosterEntry>, slot: nat, i: nat, k: nat)
    requires slot <= |roster| && i < |FunctionWrites(roster, slot)| && k < |FunctionWrites(roster, slot)[i]|
    ensures ForSlot(FunctionWrites(roster, slot)[i][k].key)
    decreases |roster| - slot
  {
    if roster[slot].functions == [] {
      FunctionKeys(roster, slot + 1, i, k);
    } else if i > 0 {
      FunctionKeys(roster, slot + 1, i - 1, k);
    } else if k > 0 {
      FunctionFieldKeys(roster[slot].functions, k - 1);
    }
  }

  lemma {:induction false} FunctionFieldKeys(fs: seq<FunctionEntry>, k: nat)
    requires k < |fs|
    ensures FunctionFieldsOf(fs)[k] == Field(Function(fs[k].index), Decimal(fs[k].value))
  {
    if k > 0 {
      FunctionFieldKeys(fs[1..], k - 1);
    }
  }
}
