/**
 The radio object between `set_address` and `release`, and its use by the worker:
 what the radio calls of any run do to the host.
 */
module Nl80211 {
  import opened Prelude
  import opened Netcfg
  import opened PolicyRouting
  import opened SoftAp
  import Daemon
  import Sessions

  datatype Address = Address(addr: Addr, prefix: nat)

  /** The host as the radio object acts on it, and the session state it keeps. */
  datatype Wireless = Wireless(
    net: Net,
    sysctls: Sysctls,
    addresses: set<Address>,
    assignment: Option<Address>,
    policy: Option<PolicyRoute>,
    saved: seq<Saved>)

  // ----- the calls ---------------------------------------------------------------

  /** Failures of `set_address`: no netlink connection, a leftover that stays, a refused addition. */
  datatype AddressFaults = AddressFaults(connection: bool, leftover: bool, add: bool)

  /** Failures of `prepare_softap`. */
  datatype PrepareFaults = PrepareFaults(route: InstallFaults, writes: WriteFaults)

  /** Failures of `release`: positions that cannot be written back, rule commands, the address. */
  datatype ReleaseFaults = ReleaseFaults(writes: set<nat>, route: RemoveFaults, address: bool)

  /** A leftover assignment of the same address is dropped first; the address is remembered in any case. */
  function AddressSet(w: Wireless, a: Address, f: AddressFaults): (w': Wireless)
  {
    var base := if f.leftover then w.addresses else w.addresses - {a};
    w.(assignment := Some(a),
       addresses := if f.connection then w.addresses else if f.add then base else base + {a})
  }

  function SoftapPrepared(w: Wireless, device: string, source: Addr, peer: Addr, isLocal: bool,
                          from: Selector -> string, f: PrepareFaults): (w': Wireless)
  {
    var conf := Prepared(device, w.sysctls, f.writes);
    var (net, p) := Installed(w.net, source, peer, device, isLocal, from, f.route);
    w.(sysctls := conf.sys, saved := conf.saved, net := net, policy := Some(p))
  }

  function Released(w: Wireless, f: ReleaseFaults): (w': Wireless)
  {
    Wireless(
      if w.policy.None? then w.net else Removed(w.net, w.policy.value, f.route),
      UndoSome(w.sysctls, w.saved, f.writes),
      if w.assignment.None? || f.address then w.addresses else w.addresses - {w.assignment.value},
      None, None, [])
  }

  class Radio {
    const host: Host
    var sysctls: Sysctls
    var addresses: set<Address>

    // session state
    var assignment: Option<Address>
    var policy: Option<PolicyRoute>
    var saved: seq<Saved>

    ghost function State(): (w: Wireless)
      reads this, host
    {
      Wireless(host.Now(), sysctls, addresses, assignment, policy, saved)
    }

    constructor (net: Host, sys: Sysctls, addrs: set<Address>)
      ensures host == net && State() == Wireless(net.Now(), sys, addrs, None, None, [])
    {
      host, sysctls, addresses := net, sys, addrs;
      assignment, policy, saved := None, None, [];
    }

    /** `set_address`. */
    method SetAddress(a: Address, f: AddressFaults)
      modifies this
      ensures State() == AddressSet(old(State()), a, f)
    {
      assignment := Some(a);
      if f.connection {
        return;
      }
      if !f.leftover {
        addresses := addresses - {a};
      }
      if !f.add {
        addresses := addresses + {a};
      }
    }

    /** `prepare_softap`. */
    method PrepareSession(device: string, source: Addr, peer: Addr, isLocal: bool, from: Selector -> string, f: PrepareFaults)
      modifies this, host
      ensures State() == SoftapPrepared(old(State()), device, source, peer, isLocal, from, f)
    {
      sysctls, saved := SoftAp.PrepareSoftap(device, sysctls, f.writes);
      var p := host.InstallPolicyRoute(source, peer, device, isLocal, from, f.route);
      policy := Some(p);
    }

    /** `release`. */
    method Release(f: ReleaseFaults)
      modifies this, host
      ensures State() == Released(old(State()), f)
    {
      sysctls := Restore(sysctls, saved, f.writes);
      saved := [];
      if policy.Some? {
        host.RemovePolicyRoute(policy.value, f.route);
        policy := None;
      }
      if assignment.Some? {
        if !f.address {
          addresses := addresses - {assignment.value};
        }
        assignment := None;
      }
    }
  }

  // ----- one session ----------------------------------------------------------------

  /** No session. */
  predicate Idle(w: Wireless)
  {
    w.assignment.None? && w.policy.None? && w.saved == []
  }

  /**
   Addresses: whatever fails, only the session's own address can differ afterwards. When
   `release` can remove it, it is gone, so the addresses are as before exactly when it was
   not assigned before.
   */
  lemma AddressAfter(w: Wireless, a: Address, f: AddressFaults, r: ReleaseFaults)
    requires Idle(w)
    ensures var end := Released(AddressSet(w, a, f), r);
            && end.addresses - {a} == w.addresses - {a}
            && (!r.address ==> end.addresses == w.addresses - {a})
            && (!r.address ==> (end.addresses == w.addresses <==> a !in w.addresses))
            && end.net == w.net && end.sysctls == w.sysctls && Idle(end)
  {
    var end := Released(AddressSet(w, a, f), r);
    assert a in w.addresses ==> a in w.addresses && a !in w.addresses - {a};
  }

  /** The state a complete set-up leaves. */
  function SetUp(w: Wireless, a: Address, f: AddressFaults, device: string, source: Addr, peer: Addr, isLocal: bool,
                 from: Selector -> string, p: PrepareFaults): (w': Wireless)
  {
    SoftapPrepared(AddressSet(w, a, f), device, source, peer, isLocal, from, p)
  }

  /**
   A complete session and its release, under any failures: the rule list is back iff the
   failing commands are of the stated kind, the sysctls iff every recorded value can be
   written back, and the rest as above.
   */
  lemma SessionUndone(w: Wireless, a: Address, f: AddressFaults, device: string, source: Addr, peer: Addr, isLocal: bool,
                      from: Selector -> string, p: PrepareFaults, r: ReleaseFaults)
    requires Idle(w) && Plain(w.net.kernel.rules)
    ensures var up := SetUp(w, a, f, device, source, peer, isLocal, from, p);
            var end := Released(up, r);
            && Idle(end)
            && (end.net.kernel.rules == w.net.kernel.rules <==> Restores(isLocal, p.route, r.route))
            && (end.sysctls == w.sysctls <==> forall i :: 0 <= i < |up.saved| ==> i !in r.writes)
            && (!r.route.flush ==> end.net.kernel.softap == map[])
            && end.addresses - {a} == w.addresses - {a}
            && (!r.address ==> end.addresses == w.addresses - {a})
  {
    var rest := w.net.kernel.rules[1..];
    assert w.net.kernel.rules == [LOCAL_RULE] + rest;
    InstallOnPlain(w.net, source, peer, device, isLocal, from, p.route);
    var (net, route) := Installed(w.net, source, peer, device, isLocal, from, p.route);
    RemoveOnPlain(net, route, r.route, Planned(isLocal, p.route), rest);
    RestoredIff(isLocal, p.route, r.route, ExceptionRule(source, peer), rest);
    PrepareThenRestore(device, w.sysctls, p.writes, r.writes);
  }

  // ----- the worker's calls ------------------------------------------------------------

  /** What decides the effect of one radio call. */
  datatype Choice = Choice(device: string, source: Addr, peer: Addr, prefix: nat, isLocal: bool,
                           address: AddressFaults, prepare: PrepareFaults, release: ReleaseFaults)

  /** `Connect` and `LinkUp` do not touch the routing state. */
  function Called(w: Wireless, op: Daemon.RadioOp, c: Choice, from: Selector -> string): (w': Wireless)
  {
    match op
    case SetAddress => AddressSet(w, Address(c.source, c.prefix), c.address)
    case PrepareSoftap => SoftapPrepared(w, c.device, c.source, c.peer, c.isLocal, from, c.prepare)
    case Release => Released(w, c.release)
    case Connect => w
    case LinkUp => w
  }

  function Replayed(w: Wireless, log: seq<Daemon.RadioCall>, choices: seq<Choice>, from: Selector -> string): (w': Wireless)
    requires |choices| == |log|
  {
    if log == [] then w
    else
      var n := |log| - 1;
      Called(Replayed(w, log[..n], choices[..n], from), log[n].op, choices[n], from)
  }

  /** The addresses assigned along a log. */
  function Used(log: seq<Daemon.RadioCall>, choices: seq<Choice>): (all: set<Address>)
    requires |choices| == |log|
  {
    if log == [] then {}
    else
      var n := |log| - 1;
      Used(log[..n], choices[..n]) +
      if log[n].op.SetAddress? then {Address(choices[n].source, choices[n].prefix)} else {}
  }

  /** Replay a log on the radio object. */
  method Replay(r: Radio, log: seq<Daemon.RadioCall>, choices: seq<Choice>, from: Selector -> string)
    requires |choices| == |log|
    modifies r, r.host
    ensures r.State() == Replayed(old(r.State()), log, choices, from)
  {
    var i := 0;
    while i < |log|
      invariant 0 <= i <= |log| && r.State() == Replayed(old(r.State()), log[..i], choices[..i], from)
    {
      assert log[..i + 1][..i] == log[..i] && choices[..i + 1][..i] == choices[..i];
      var c := choices[i];
      match log[i].op {
        case SetAddress => r.SetAddress(Address(c.source, c.prefix), c.address);
        case PrepareSoftap => r.PrepareSession(c.device, c.source, c.peer, c.isLocal, from, c.prepare);
        case Release => r.Release(c.release);
        case Connect =>
        case LinkUp =>
      }
      i := i + 1;
    }
    assert log[..|log|] == log && choices[..|choices|] == choices;
  }

  /** The undo works: nothing recorded fails to be written back, no rule or address command of it fails. */
  predicate Undoes(f: ReleaseFaults)
  {
    f.writes == {} && !f.route.rule && !f.route.reseat && !f.route.unpark && !f.address
  }

  /** The failed removal of a parked copy is the one failure of a set-up that its undo does not repair. */
  predicate Tidy(f: InstallFaults) { f.unseat ==> f.park || !f.unpark }

  ghost predicate Undoable(choices: seq<Choice>)
  {
    forall i :: 0 <= i < |choices| ==> Tidy(choices[i].prepare.route) && Undoes(choices[i].release)
  }

  /** Outside a session the host is as it was, but for the addresses in `used`. */
  ghost predicate Back(w0: Wireless, w: Wireless, used: set<Address>)
  {
    Idle(w) && w.net.kernel.rules == w0.net.kernel.rules && w.sysctls == w0.sysctls && w.addresses == w0.addresses - used
  }

  /** Where the host is, given how far the session is. */
  ghost predicate Follows(w0: Wireless, w: Wireless, used: set<Address>, l: Sessions.Link)
  {
    match l
    case Free(_) => Back(w0, w, used)
    case Held(_, n) =>
      && (w.assignment.Some? <==> n >= 2) && (w.policy.Some? <==> n >= 4)
      && Undo(w.sysctls, w.saved) == w0.sysctls
      && AddressesPending(w0, w, used)
      && RulesPending(w0, w)
    case Broken => false
  }

  ghost predicate AddressesPending(w0: Wireless, w: Wireless, used: set<Address>)
  {
    match w.assignment
    case None => w.addresses == w0.addresses - used
    case Some(a) => a in used && w.addresses - {a} == w0.addresses - used
  }

  /** The rules are those from before, or an installation that removal undoes stands in front of them. */
  ghost predicate RulesPending(w0: Wireless, w: Wireless)
  {
    match w.policy
    case None => w.net.kernel.rules == w0.net.kernel.rules && w.saved == []
    case Some(p) =>
      w0.net.kernel.rules != [] &&
      exists o :: o != Unmoved(true) && p.relocatedLocal == o.Parked?
                  && w.net.kernel.rules == Front(o, ExceptionRule(p.source, p.host)) + w0.net.kernel.rules[1..]
  }

  lemma ReleaseFollows(w0: Wireless, w: Wireless, used: set<Address>, f: ReleaseFaults)
    requires Plain(w0.net.kernel.rules) && Undoes(f) && Undo(w.sysctls, w.saved) == w0.sysctls
    requires AddressesPending(w0, w, used) && RulesPending(w0, w)
    ensures Back(w0, Released(w, f), used)
  {
    UndoAll(w.sysctls, w.saved, f.writes);
    if w.policy.Some? {
      var p := w.policy.value;
      var o :| o != Unmoved(true) && p.relocatedLocal == o.Parked?
               && w.net.kernel.rules == Front(o, ExceptionRule(p.source, p.host)) + w0.net.kernel.rules[1..];
      RemovedFully(w0, w, p, o, f);
    }
  }

  lemma RemovedFully(w0: Wireless, w: Wireless, p: PolicyRoute, o: Installation, f: ReleaseFaults)
    requires Plain(w0.net.kernel.rules) && Undoes(f) && o != Unmoved(true) && p.relocatedLocal == o.Parked?
    requires w.net.kernel.rules == Front(o, ExceptionRule(p.source, p.host)) + w0.net.kernel.rules[1..]
    ensures Removed(w.net, p, f.route).kernel.rules == w0.net.kernel.rules
  {
    var exc, rest := ExceptionRule(p.source, p.host), w0.net.kernel.rules[1..];
    RemoveOnPlain(w.net, p, f.route, o, rest);
    assert FrontAfter(o, exc, f.route) == [LOCAL_RULE];
    assert w0.net.kernel.rules == [LOCAL_RULE] + rest;
  }

  lemma PrepareFollows(w0: Wireless, w: Wireless, used: set<Address>, c: Choice, from: Selector -> string)
    requires Plain(w0.net.kernel.rules) && w.policy.None? && Tidy(c.prepare.route)
    requires Undo(w.sysctls, w.saved) == w0.sysctls && AddressesPending(w0, w, used) && RulesPending(w0, w)
    ensures var w' := Called(w, Daemon.PrepareSoftap, c, from);
            && Undo(w'.sysctls, w'.saved) == w0.sysctls && AddressesPending(w0, w', used) && RulesPending(w0, w')
            && w'.policy.Some? && w'.assignment == w.assignment
  {
    PreparedTracked(c.device, w.sysctls, c.prepare.writes);
    InstallOnPlain(w.net, c.source, c.peer, c.device, c.isLocal, from, c.prepare.route);
    var o := Planned(c.isLocal, c.prepare.route);
    assert o != Unmoved(true);
  }

  lemma AddressFollows(w0: Wireless, w: Wireless, used: set<Address>, c: Choice)
    requires w.assignment.None? && AddressesPending(w0, w, used)
    ensures var a := Address(c.source, c.prefix);
            AddressesPending(w0, AddressSet(w, a, c.address), used + {a})
  {
    var a := Address(c.source, c.prefix);
    assert (w0.addresses - used) - {a} == w0.addresses - (used + {a});
  }

  lemma CallFollows(w0: Wireless, w: Wireless, used: set<Address>, l: Sessions.Link, call: Daemon.RadioCall, c: Choice, from: Selector -> string)
    requires Plain(w0.net.kernel.rules) && Follows(w0, w, used, l) && !Sessions.After(l, call).Broken?
    requires Tidy(c.prepare.route) && Undoes(c.release)
    ensures Follows(w0, Called(w, call.op, c, from),
                    used + (if call.op.SetAddress? then {Address(c.source, c.prefix)} else {}), Sessions.After(l, call))
  {
    assert used + {} == used;
    match call.op
    case SetAddress => AddressFollows(w0, w, used, c);
    case PrepareSoftap => PrepareFollows(w0, w, used, c, from);
    case Release => ReleaseFollows(w0, w, used, c.release);
    case _ =>
  }

  lemma {:induction false} LogFollows(w0: Wireless, log: seq<Daemon.RadioCall>, choices: seq<Choice>, from: Selector -> string)
    requires Idle(w0) && Plain(w0.net.kernel.rules) && |choices| == |log| && Undoable(choices) && !Sessions.Scan(log).Broken?
    ensures Follows(w0, Replayed(w0, log, choices, from), Used(log, choices), Sessions.Scan(log))
    decreases |log|
  {
    if log == [] {
      assert w0.addresses - {} == w0.addresses;
    } else {
      var n := |log| - 1;
      LogFollows(w0, log[..n], choices[..n], from);
      CallFollows(w0, Replayed(w0, log[..n], choices[..n], from), Used(log[..n], choices[..n]),
                  Sessions.Scan(log[..n]), log[n], choices[n], from);
    }
  }

  /**
   The radio calls of any run, with set-up failures anywhere and an undo that works: when
   the worker is idle, rules and sysctls are those from before, and the addresses too
   exactly when none of the session addresses was assigned before.
   */
  lemma RunUndone(ss: seq<Daemon.System>, i: nat, w0: Wireless, choices: seq<Choice>, from: Selector -> string)
    requires Daemon.Run(ss) && i < |ss| && ss[i].pc.Idle? && |choices| == |ss[i].radio|
    requires Idle(w0) && Plain(w0.net.kernel.rules) && Undoable(choices)
    ensures var w, used := Replayed(w0, ss[i].radio, choices, from), Used(ss[i].radio, choices);
            && Back(w0, w, used)
            && (w.addresses == w0.addresses <==> used !! w0.addresses)
  {
    WorkerLogReplays(ss, i);
    LogFollows(w0, ss[i].radio, choices, from);
    var used := Used(ss[i].radio, choices);
    if w0.addresses - used == w0.addresses {
      forall a | a in used ensures a !in w0.addresses {
        assert a !in w0.addresses - used;
      }
    }
  }

  /** The radio log of every run can be replayed, and the radio is free whenever the worker is idle. */
  lemma WorkerLogReplays(ss: seq<Daemon.System>, i: nat)
    requires Daemon.Run(ss) && i < |ss|
    ensures !Sessions.Scan(ss[i].radio).Broken?
    ensures ss[i].pc.Idle? ==> Sessions.Scan(ss[i].radio).Free?
  {
    Sessions.RunTracks(ss, i);
  }

  // ----- when an undo fails --------------------------------------------------------------

  /** A rule that some session of the log adds or deletes. */
  predicate RuleOf(log: seq<Daemon.RadioCall>, choices: seq<Choice>, r: Rule)
    requires |choices| == |log|
  {
    exists i :: 0 <= i < |log| && log[i].op.PrepareSoftap? && Own(ExceptionRule(choices[i].source, choices[i].peer), r)
  }

  /** A sysctl that some session of the log sets. */
  predicate KnobOf(log: seq<Daemon.RadioCall>, choices: seq<Choice>, k: Knob)
    requires |choices| == |log|
  {
    exists i :: 0 <= i < |log| && log[i].op.PrepareSoftap?
                && (k.0 == choices[i].device || k.0 == "all") && (k.1 == "accept_local" || k.1 == "rp_filter")
  }

  /** What no call changes: the rules that are not `own`, the sysctls that are not `touched`, the addresses not `used`. */
  ghost predicate Kept(w0: Wireless, w: Wireless, own: Rule -> bool, touched: Knob -> bool, used: set<Address>)
  {
    && Others(own, w.net.kernel.rules) == Others(own, w0.net.kernel.rules)
    && (w.policy.Some? ==> Covers(own, ExceptionRule(w.policy.value.source, w.policy.value.host)))
    && SysctlsKept(w0.sysctls, Conf(w.sysctls, w.saved), touched)
    && w.addresses - used == w0.addresses - used
    && (w.assignment.Some? ==> w.assignment.value in used)
  }

  lemma AddressKeeps(w0: Wireless, w: Wireless, own: Rule -> bool, touched: Knob -> bool, used: set<Address>, a: Address, f: AddressFaults)
    requires Kept(w0, w, own, touched, used) && a in used
    ensures Kept(w0, AddressSet(w, a, f), own, touched, used)
  {
  }

  lemma PrepareKeeps(w0: Wireless, w: Wireless, own: Rule -> bool, touched: Knob -> bool, used: set<Address>, c: Choice, from: Selector -> string)
    requires Kept(w0, w, own, touched, used) && Covers(own, ExceptionRule(c.source, c.peer))
    requires touched((c.device, "accept_local")) && touched(("all", "accept_local"))
    requires touched((c.device, "rp_filter")) && touched(("all", "rp_filter"))
    ensures Kept(w0, Called(w, Daemon.PrepareSoftap, c, from), own, touched, used)
  {
    var exc := ExceptionRule(c.source, c.peer);
    var w' := Called(w, Daemon.PrepareSoftap, c, from);
    InstallKeepsForeign(w.net, c.source, c.peer, c.device, c.isLocal, from, c.prepare.route);
    OthersOfForeign(own, exc, w.net.kernel.rules);
    OthersOfForeign(own, exc, w'.net.kernel.rules);
    PreparedKept(w0.sysctls, c.device, w.sysctls, c.prepare.writes, touched);
    InstalledNames(w.net, c.source, c.peer, c.device, c.isLocal, from, c.prepare.route);
  }

  lemma ReleaseKeeps(w0: Wireless, w: Wireless, own: Rule -> bool, touched: Knob -> bool, used: set<Address>, f: ReleaseFaults)
    requires Kept(w0, w, own, touched, used)
    ensures Kept(w0, Released(w, f), own, touched, used)
  {
    UndoneKept(w0.sysctls, w.sysctls, w.saved, f.writes, touched);
    if w.policy.Some? {
      var exc := ExceptionRule(w.policy.value.source, w.policy.value.host);
      RemoveKeepsForeign(w.net, w.policy.value, f.route);
      OthersOfForeign(own, exc, w.net.kernel.rules);
      OthersOfForeign(own, exc, Released(w, f).net.kernel.rules);
    }
  }

  ghost predicate AllCovered(log: seq<Daemon.RadioCall>, choices: seq<Choice>, own: Rule -> bool, touched: Knob -> bool, used: set<Address>)
    requires |choices| == |log|
  {
    forall i :: 0 <= i < |log| ==> CallCovered(log[i].op, choices[i], own, touched, used)
  }

  ghost predicate CallCovered(op: Daemon.RadioOp, c: Choice, own: Rule -> bool, touched: Knob -> bool, used: set<Address>)
  {
    && (op.SetAddress? ==> Address(c.source, c.prefix) in used)
    && (op.PrepareSoftap? ==>
          && Covers(own, ExceptionRule(c.source, c.peer))
          && touched((c.device, "accept_local")) && touched(("all", "accept_local"))
          && touched((c.device, "rp_filter")) && touched(("all", "rp_filter")))
  }

  lemma {:induction false} LogKeeps(w0: Wireless, log: seq<Daemon.RadioCall>, choices: seq<Choice>, from: Selector -> string,
                                    own: Rule -> bool, touched: Knob -> bool, used: set<Address>)
    requires Idle(w0) && |choices| == |log| && AllCovered(log, choices, own, touched, used)
    ensures Kept(w0, Replayed(w0, log, choices, from), own, touched, used)
    decreases |log|
  {
    if log != [] {
      var n := |log| - 1;
      LogKeeps(w0, log[..n], choices[..n], from, own, touched, used);
      var w, c := Replayed(w0, log[..n], choices[..n], from), choices[n];
      assert CallCovered(log[n].op, c, own, touched, used);
      match log[n].op
      case SetAddress => AddressKeeps(w0, w, own, touched, used, Address(c.source, c.prefix), c.address);
      case PrepareSoftap => PrepareKeeps(w0, w, own, touched, used, c, from);
      case Release => ReleaseKeeps(w0, w, own, touched, used, c.release);
      case _ =>
    }
  }

  lemma {:induction false} UsedHolds(log: seq<Daemon.RadioCall>, choices: seq<Choice>, i: nat)
    requires |choices| == |log| && i < |log| && log[i].op.SetAddress?
    ensures Address(choices[i].source, choices[i].prefix) in Used(log, choices)
    decreases |log|
  {
    var n := |log| - 1;
    if i < n {
      UsedHolds(log[..n], choices[..n], i);
    }
  }

  lemma LogCovered(log: seq<Daemon.RadioCall>, choices: seq<Choice>)
    requires |choices| == |log|
    ensures AllCovered(log, choices, r => RuleOf(log, choices, r), k => KnobOf(log, choices, k), Used(log, choices))
  {
    var own: Rule -> bool := r => RuleOf(log, choices, r);
    var touched: Knob -> bool := k => KnobOf(log, choices, k);
    forall i | 0 <= i < |log| ensures CallCovered(log[i].op, choices[i], own, touched, Used(log, choices)) {
      if log[i].op.SetAddress? {
        UsedHolds(log, choices, i);
      }
    }
  }

  /**
   At every moment of every run, whatever fails, undo commands included: the rules that are
   none of the sessions' own are all there in their order, a sysctl is at its first value
   unless a session sets it and it is at the session's value, and the addresses no session
   uses are as before.
   */
  lemma RunKeepsOthers(ss: seq<Daemon.System>, i: nat, w0: Wireless, choices: seq<Choice>, from: Selector -> string)
    requires Daemon.Run(ss) && i < |ss| && |choices| == |ss[i].radio| && Idle(w0)
    ensures var log := ss[i].radio;
            var w, used := Replayed(w0, log, choices, from), Used(log, choices);
            && Others(r => RuleOf(log, choices, r), w.net.kernel.rules) == Others(r => RuleOf(log, choices, r), w0.net.kernel.rules)
            && w.sysctls.Keys == w0.sysctls.Keys
            && (forall k :: k in w0.sysctls ==>
                  w.sysctls[k] == w0.sysctls[k] || (KnobOf(log, choices, k) && w.sysctls[k] == Wanted(k)))
            && w.addresses - used == w0.addresses - used
            && (ss[i].pc.Idle? ==> Idle(w))
  {
    var log := ss[i].radio;
    LogCovered(log, choices);
    LogKeeps(w0, log, choices, from, r => RuleOf(log, choices, r), k => KnobOf(log, choices, k), Used(log, choices));
    WorkerLogReplays(ss, i);
    FreeIsIdle(w0, log, choices, from);
  }

  /** No session state is left when the radio is free, whatever failed. */
  lemma FreeIsIdle(w0: Wireless, log: seq<Daemon.RadioCall>, choices: seq<Choice>, from: Selector -> string)
    requires Idle(w0) && |choices| == |log|
    ensures Sessions.Scan(log).Free? ==> Idle(Replayed(w0, log, choices, from))
  {
    assert log != [] && Sessions.Scan(log).Free? ==> log[|log| - 1].op.Release?;
  }
}
