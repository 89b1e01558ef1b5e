/** Programming requests and the validation every driver shares (`validate_common`). */
module Requests {
  import opened Prelude
  import opened Text
  import opened WifredConfig
  import opened Percent

  datatype RosterEntry = RosterEntry(
    address: Option<U16>,
    mode: Option<Octets>,
    direction: Option<U8>,
    longAddress: Option<bool>,
    functions: seq<FunctionEntry>)

  datatype Wifi = Wifi(ssid: Octets, psk: Option<Octets>)

  datatype ThrottleServer = ThrottleServer(host: Octets, port: U16, automatic: bool)

  datatype Request = Request(identity: Octets, wifi: Wifi, server: ThrottleServer, roster: seq<RosterEntry>)

  datatype IdentityFormat = Digits(len: U8) | Alphanumeric(maxLen: U8) | AnyIdentity

  datatype Capabilities = Capabilities(
    maxRosterSlots: U8,
    maxFunctionIndex: U8,
    identityFormat: IdentityFormat,
    supportsThrottleServer: bool)

  const WifredCapabilities := Capabilities(4, 16, Digits(6), true)

  datatype ValidationError =
    | BadIdentity
    | EmptySsid
    | ServerUnsupported
    | CapacityExceeded(capacity: nat, requested: nat)
    | AddressOutOfRange(addr: U16)
    | FunctionIndexOutOfRange(index: U8, max: U8)
    | DuplicateFunction(slot: nat)

  predicate Matches(format: IdentityFormat, value: string)
  {
    match format
    case Digits(len) => |value| == len && DigitsValue(value).Some?
    case Alphanumeric(maxLen) =>
      value != "" && |value| <= maxLen &&
      forall i :: 0 <= i < |value| ==>
        IsDigit(value[i]) || 'a' <= value[i] <= 'z' || 'A' <= value[i] <= 'Z'
    case AnyIdentity => true
  }

  // ----- what a request must satisfy --------------------------------------------------

  ghost predicate DistinctIndexes(fs: seq<FunctionEntry>)
  {
    forall i, j :: 0 <= i < j < |fs| ==> fs[i].index != fs[j].index
  }

  ghost predicate AcceptableEntry(caps: Capabilities, e: RosterEntry)
  {
    && (e.address.Some? ==> 1 <= e.address.value <= 10239)
    && (forall i :: 0 <= i < |e.functions| ==> e.functions[i].index <= caps.maxFunctionIndex)
    && DistinctIndexes(e.functions)
  }

  ghost predicate Acceptable(caps: Capabilities, req: Request)
  {
    && Matches(caps.identityFormat, req.identity)
    && req.wifi.ssid != ""
    && caps.supportsThrottleServer
    && |req.roster| <= caps.maxRosterSlots
    && forall s :: 0 <= s < |req.roster| ==> AcceptableEntry(caps, req.roster[s])
  }

  // ----- the first complaint ------------------------------------------------------------

  /** Some entry before `k` has the index of entry `k`. */
  ghost predicate Repeats(fs: seq<FunctionEntry>, k: nat)
    requires k < |fs|
  {
    exists j :: 0 <= j < k && fs[j].index == fs[k].index
  }

  ghost function FunctionsVerdict(caps: Capabilities, slot: nat, fs: seq<FunctionEntry>, k: nat): (r: Option<ValidationError>)
    requires k <= |fs|
    decreases |fs| - k
  {
    if k == |fs| then None
    else if fs[k].index > caps.maxFunctionIndex then Some(FunctionIndexOutOfRange(fs[k].index, caps.maxFunctionIndex))
    else if Repeats(fs, k) then Some(DuplicateFunction(slot))
    else FunctionsVerdict(caps, slot, fs, k + 1)
  }

  ghost function EntryVerdict(caps: Capabilities, slot: nat, e: RosterEntry): (r: Option<ValidationError>)
  {
    if e.address.Some? && !(1 <= e.address.value <= 10239) then Some(AddressOutOfRange(e.address.value))
    else FunctionsVerdict(caps, slot, e.functions, 0)
  }

  ghost function RosterVerdict(caps: Capabilities, roster: seq<RosterEntry>, slot: nat): (r: Option<ValidationError>)
    requires slot <= |roster|
    decreases |roster| - slot
  {
    if slot == |roster| then None
    else if EntryVerdict(caps, slot, roster[slot]).Some? then EntryVerdict(caps, slot, roster[slot])
    else RosterVerdict(caps, roster, slot + 1)
  }

  ghost function Verdict(caps: Capabilities, req: Request): (r: Option<ValidationError>)
  {
    if !Matches(caps.identityFormat, req.identity) then Some(BadIdentity)
    else if req.wifi.ssid == "" then Some(EmptySsid)
    else if !caps.supportsThrottleServer then Some(ServerUnsupported)
    else if |req.roster| > caps.maxRosterSlots then Some(CapacityExceeded(caps.maxRosterSlots, |req.roster|))
    else RosterVerdict(caps, req.roster, 0)
  }

  lemma {:induction false} FunctionsAccepted(caps: Capabilities, slot: nat, fs: seq<FunctionEntry>, k: nat)
    requires k <= |fs|
    ensures FunctionsVerdict(caps, slot, fs, k).None? <==>
            forall i :: k <= i < |fs| ==> fs[i].index <= caps.maxFunctionIndex && !Repeats(fs, i)
    decreases |fs| - k
  {
    if k < |fs| {
      FunctionsAccepted(caps, slot, fs, k + 1);
    }
  }

  lemma NoRepeatIsDistinct(fs: seq<FunctionEntry>)
    ensures DistinctIndexes(fs) <==> forall i :: 0 <= i < |fs| ==> !Repeats(fs, i)
  {
    if forall i :: 0 <= i < |fs| ==> !Repeats(fs, i) {
      forall i, j | 0 <= i < j < |fs| ensures fs[i].index != fs[j].index {
        assert !Repeats(fs, j);
      }
    }
  }

  lemma EntryAccepted(caps: Capabilities, slot: nat, e: RosterEntry)
    ensures EntryVerdict(caps, slot, e).None? <==> AcceptableEntry(caps, e)
  {
    FunctionsAccepted(caps, slot, e.functions, 0);
    NoRepeatIsDistinct(e.functions);
  }

  lemma {:induction false} RosterAccepted(caps: Capabilities, roster: seq<RosterEntry>, slot: nat)
    requires slot <= |roster|
    ensures RosterVerdict(caps, roster, slot).None? <==>
            forall s :: slot <= s < |roster| ==> AcceptableEntry(caps, roster[s])
    decreases |roster| - slot
  {
    if slot < |roster| {
      EntryAccepted(caps, slot, roster[slot]);
      RosterAccepted(caps, roster, slot + 1);
    }
  }

  // ----- the nested loops -----------------------------------------------------------------

  /** `validate_common`: no complaint exactly for acceptable requests, else the first complaint. */
  method ValidateCommon(caps: Capabilities, req: Request) returns (r: Option<ValidationError>)
    ensures r == Verdict(caps, req)
    ensures r.None? <==> Acceptable(caps, req)
  {
    RosterAccepted(caps, req.roster, 0);
    if !Matches(caps.identityFormat, req.identity) {
      return Some(BadIdentity);
    }
    if req.wifi.ssid == "" {
      return Some(EmptySsid);
    }
    if !caps.supportsThrottleServer {
      return Some(ServerUnsupported);
    }
    if |req.roster| > caps.maxRosterSlots {
      return Some(CapacityExceeded(caps.maxRosterSlots, |req.roster|));
    }
    var seen: set<(nat, U8)> := {};
    for slot := 0 to |req.roster|
      invariant RosterVerdict(caps, req.roster, 0) == RosterVerdict(caps, req.roster, slot)
      invariant forall p :: p in seen ==> p.0 < slot
    {
      var entry := req.roster[slot];
      if entry.address.Some? && !(1 <= entry.address.value <= 10239) {
        return Some(AddressOutOfRange(entry.address.value));
      }
      var fs := entry.functions;
      for k := 0 to |fs|
        invariant EntryVerdict(caps, slot, entry) == FunctionsVerdict(caps, slot, fs, k)
        invariant forall p :: p in seen ==> p.0 <= slot
        invariant forall x :: (slot, x) in seen <==> exists j :: 0 <= j < k && fs[j].index == x
      {
        if fs[k].index > caps.maxFunctionIndex {
          return Some(FunctionIndexOutOfRange(fs[k].index, caps.maxFunctionIndex));
        }
        if (slot, fs[k].index) in seen {
          return Some(DuplicateFunction(slot));
        }
        seen := seen + {(slot, fs[k].index)};
      }
    }
    return None;
  }
}
