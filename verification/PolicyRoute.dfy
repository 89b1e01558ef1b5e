/** Installing and removing the Soft-AP exception, and what a failing command leaves behind. */
module PolicyRouting {
  import opened Prelude
  import opened Netcfg

  /** Which commands of `install_policy_route` fail. */
  datatype InstallFaults = InstallFaults(route: bool, rule: bool, flush: bool, list: bool, park: bool, unseat: bool, unpark: bool)

  /** Which commands of `remove_policy_route` fail. */
  datatype RemoveFaults = RemoveFaults(rule: bool, reseat: bool, unpark: bool, flush: bool)

  datatype PolicyRoute = PolicyRoute(source: Addr, host: Addr, relocatedLocal: bool)

  // ----- where an installation can end up ------------------------------------------

  datatype Installation =
    | NotRouted             // the /32 could not be added
    | NotRuled              // the exception rule could not be added
    | Beside                // exception behind `lookup local`, which stayed at 0
    | Parked(copy: bool)    // `lookup local` left 0; `copy`: it is now at 1
    | Unmoved(copy: bool)   // `lookup local` could not leave 0; `copy`: a second one stayed at 1

  function Planned(isLocal: bool, f: InstallFaults): (o: Installation)
  {
    if f.route then NotRouted
    else if f.rule then NotRuled
    else if !isLocal || f.list then Beside
    else if !f.unseat then Parked(!f.park)
    else Unmoved(!f.park && f.unpark)
  }

  function Copy(c: bool): (rules: seq<Rule>) { if c then [PARKED_RULE] else [] }

  /** The rules in front of the untouched ones. */
  function Front(o: Installation, exc: Rule): (rules: seq<Rule>)
  {
    match o
    case NotRouted => [LOCAL_RULE]
    case NotRuled => [LOCAL_RULE]
    case Beside => [LOCAL_RULE, exc]
    case Parked(c) => [exc] + Copy(c)
    case Unmoved(c) => [LOCAL_RULE, exc] + Copy(c)
  }

  predicate HasException(o: Installation) { !o.NotRouted? && !o.NotRuled? }

  /** The front of the list after removal. */
  function FrontAfter(o: Installation, exc: Rule, r: RemoveFaults): (rules: seq<Rule>)
  {
    var left := Left(HasException(o) && r.rule, exc);
    match o
    case Parked(c) => left + Seat(r.reseat) + Copy(c && r.unpark)
    case Unmoved(c) => [LOCAL_RULE] + left + Copy(c)
    case _ => [LOCAL_RULE] + left
  }

  /** `lookup local` at 0 comes first and nothing else sits at preference 0 or 1. */
  ghost predicate Plain(rules: seq<Rule>)
  {
    rules != [] && rules[0] == LOCAL_RULE && Behind(rules[1..])
  }

  /** The rule this program writes for a flow. */
  predicate IsException(exc: Rule)
  {
    exc.sel.Pair? && exc.pref == 0 && exc.table == SOFTAP_TABLE
  }

  // ----- the calls on any rule list ---------------------------------------------------

  /** The kernel, and whether `lookup local` has been present after every command so far. */
  datatype Net = Net(kernel: Kernel, delivers: bool)

  /** One `ip` command that works as it should or fails. */
  function Ran(n: Net, c: Command, fail: bool): (out: (Net, Reply))
  {
    var (k, reply) := if fail then (n.kernel, Failed) else Exec(n.kernel, c);
    (Net(k, n.delivers && HasLocal(k.rules)), reply)
  }

  /** Moving `lookup local` behind the exception rule, as far as the commands allow. */
  function Parking(n: Net, f: InstallFaults, from: Selector -> string): (out: (Net, bool))
  {
    if ParseLocalPref(if f.list then "" else RuleList(n.kernel.rules, from)) != Some(0) then (n, false)
    else
      var parked := Ran(n, RuleAdd(PARKED_RULE), f.park).0;
      var (moved, reply) := Ran(parked, RuleDel(0, None, LOCAL_TABLE), f.unseat);
      if reply.Done? then (moved, true) else (Ran(moved, RuleDel(1, None, LOCAL_TABLE), f.unpark).0, false)
  }

  function Installed(n: Net, source: Addr, host: Addr, device: string, isLocal: bool,
                     from: Selector -> string, f: InstallFaults): (out: (Net, PolicyRoute))
  {
    var (routed, r) := Ran(n, RouteReplace(host, device, source), f.route);
    if !r.Done? then (routed, PolicyRoute(source, host, false))
    else
      var (ruled, reply) := Ran(routed, RuleAdd(ExceptionRule(source, host)), f.rule);
      if reply.Failed? then (Ran(ruled, FlushTable, f.flush).0, PolicyRoute(source, host, false))
      else if !isLocal then (ruled, PolicyRoute(source, host, false))
      else
        var (parked, moved) := Parking(ruled, f, from);
        (parked, PolicyRoute(source, host, moved))
  }

  function Removed(n: Net, p: PolicyRoute, r: RemoveFaults): (out: Net)
  {
    var dropped := Ran(n, RuleDel(0, Some(Pair(p.source, p.host)), SOFTAP_TABLE), r.rule).0;
    var unparked := if !p.relocatedLocal then dropped
                    else Ran(Ran(dropped, RuleAdd(LOCAL_RULE), r.reseat).0, RuleDel(1, None, LOCAL_TABLE), r.unpark).0;
    Ran(unparked, FlushTable, r.flush).0
  }

  class Host {
    var kernel: Kernel
    ghost var delivers: bool

    ghost function Now(): (n: Net)
      reads this
    {
      Net(kernel, delivers)
    }

    constructor (k: Kernel)
      ensures Now() == Net(k, true)
    {
      kernel, delivers := k, true;
    }

    /** Run one `ip` command. */
    method Ip(c: Command, fail: bool) returns (reply: Reply)
      modifies this
      ensures (Now(), reply) == Ran(old(Now()), c, fail)
    {
      if fail {
        reply := Failed;
      } else {
        var (k, r) := Exec(kernel, c);
        kernel, reply := k, r;
      }
      delivers := delivers && HasLocal(kernel.rules);
    }

    /** The parking part of `install_policy_route`, on any rule list. */
    method ParkLocal(f: InstallFaults, from: Selector -> string) returns (relocated: bool)
      modifies this
      ensures (Now(), relocated) == Parking(old(Now()), f, from)
    {
      relocated := false;
      var listing := if f.list then "" else RuleList(kernel.rules, from);
      if ParseLocalPref(listing) == Some(0) {
        var r := Ip(RuleAdd(PARKED_RULE), f.park);
        r := Ip(RuleDel(0, None, LOCAL_TABLE), f.unseat);
        if r.Done? {
          relocated := true;
        } else {
          r := Ip(RuleDel(1, None, LOCAL_TABLE), f.unpark);
        }
      }
    }

    /**
     `install_policy_route`, on any rule list. `isLocal` says whether `host` is also an
     address of this machine.
     */
    method InstallPolicyRoute(source: Addr, host: Addr, device: string, isLocal: bool,
                              from: Selector -> string, f: InstallFaults)
      returns (p: PolicyRoute)
      modifies this
      ensures (Now(), p) == Installed(old(Now()), source, host, device, isLocal, from, f)
    {
      p := PolicyRoute(source, host, false);
      var r := Ip(RouteReplace(host, device, source), f.route);
      if !r.Done? {
        return;
      }
      r := Ip(RuleAdd(ExceptionRule(source, host)), f.rule);
      if r.Failed? {
        r := Ip(FlushTable, f.flush);
        return;
      }
      if isLocal {
        var relocated := ParkLocal(f, from);
        p := p.(relocatedLocal := relocated);
      }
    }

    /** `remove_policy_route`, on any rule list. */
    method RemovePolicyRoute(p: PolicyRoute, r: RemoveFaults)
      modifies this
      ensures Now() == Removed(old(Now()), p, r)
    {
      var reply := Ip(RuleDel(0, Some(Pair(p.source, p.host)), SOFTAP_TABLE), r.rule);
      if p.relocatedLocal {
        reply := Ip(RuleAdd(LOCAL_RULE), r.reseat);
        reply := Ip(RuleDel(1, None, LOCAL_TABLE), r.unpark);
      }
      reply := Ip(FlushTable, r.flush);
    }
  }

  // ----- rules of others ---------------------------------------------------------------

  /** Rules the two calls may add or delete: `lookup local` at 0 or 1, and the exception. */
  predicate Own(exc: Rule, r: Rule)
  {
    r == exc || (r.pref <= 1 && r.table == LOCAL_TABLE)
  }

  /** The rules of others, in order. */
  function Foreign(exc: Rule, rules: seq<Rule>): (r: seq<Rule>)
  {
    if rules == [] then [] else (if Own(exc, rules[0]) then [] else [rules[0]]) + Foreign(exc, rules[1..])
  }

  lemma {:induction false} InsertOwn(exc: Rule, rules: seq<Rule>, r: Rule)
    requires Own(exc, r)
    ensures Foreign(exc, Insert(rules, r)) == Foreign(exc, rules)
  {
    if rules == [] || rules[0].pref > r.pref {
      assert ([r] + rules)[1..] == rules;
    } else {
      var all := [rules[0]] + Insert(rules[1..], r);
      assert all[0] == rules[0] && all[1..] == Insert(rules[1..], r);
      InsertOwn(exc, rules[1..], r);
    }
  }

  lemma {:induction false} DeleteOwn(exc: Rule, rules: seq<Rule>, pref: nat, sel: Option<Selector>, table: nat)
    requires forall r :: Selects(pref, sel, table, r) ==> Own(exc, r)
    ensures Foreign(exc, Delete(rules, pref, sel, table)) == Foreign(exc, rules)
  {
    if rules != [] && !Selects(pref, sel, table, rules[0]) {
      var all := [rules[0]] + Delete(rules[1..], pref, sel, table);
      assert all[0] == rules[0] && all[1..] == Delete(rules[1..], pref, sel, table);
      DeleteOwn(exc, rules[1..], pref, sel, table);
    }
  }

  /** A command of one of the two calls leaves the rules of others alone. */
  predicate Ours(exc: Rule, c: Command)
  {
    match c
    case RouteReplace(_, _, _) => true
    case FlushTable => true
    case RuleAdd(r) => Own(exc, r)
    case RuleDel(pref, sel, table) => (pref <= 1 && table == LOCAL_TABLE) || (pref == exc.pref && sel == Some(exc.sel) && table == exc.table)
  }

  lemma CommandKeepsForeign(exc: Rule, n: Net, c: Command, fail: bool)
    requires Ours(exc, c)
    ensures Foreign(exc, Ran(n, c, fail).0.kernel.rules) == Foreign(exc, n.kernel.rules)
  {
    match c
    case RuleAdd(r) => InsertOwn(exc, n.kernel.rules, r);
    case RuleDel(pref, sel, table) => DeleteOwn(exc, n.kernel.rules, pref, sel, table);
    case _ =>
  }

  lemma ParkingKeepsForeign(exc: Rule, n: Net, f: InstallFaults, from: Selector -> string)
    ensures Foreign(exc, Parking(n, f, from).0.kernel.rules) == Foreign(exc, n.kernel.rules)
  {
    var parked := Ran(n, RuleAdd(PARKED_RULE), f.park).0;
    var moved := Ran(parked, RuleDel(0, None, LOCAL_TABLE), f.unseat).0;
    CommandKeepsForeign(exc, n, RuleAdd(PARKED_RULE), f.park);
    CommandKeepsForeign(exc, parked, RuleDel(0, None, LOCAL_TABLE), f.unseat);
    CommandKeepsForeign(exc, moved, RuleDel(1, None, LOCAL_TABLE), f.unpark);
  }

  /** On any rule list and under any failures, installing keeps the rules of others, in order. */
  lemma InstallKeepsForeign(n: Net, source: Addr, host: Addr, device: string, isLocal: bool, from: Selector -> string, f: InstallFaults)
    ensures var exc := ExceptionRule(source, host);
            Foreign(exc, Installed(n, source, host, device, isLocal, from, f).0.kernel.rules) == Foreign(exc, n.kernel.rules)
  {
    var exc := ExceptionRule(source, host);
    var routed := Ran(n, RouteReplace(host, device, source), f.route).0;
    var ruled := Ran(routed, RuleAdd(exc), f.rule).0;
    CommandKeepsForeign(exc, n, RouteReplace(host, device, source), f.route);
    CommandKeepsForeign(exc, routed, RuleAdd(exc), f.rule);
    CommandKeepsForeign(exc, ruled, FlushTable, f.flush);
    ParkingKeepsForeign(exc, ruled, f, from);
  }

  /** And so does removing. */
  lemma RemoveKeepsForeign(n: Net, p: PolicyRoute, r: RemoveFaults)
    ensures var exc := ExceptionRule(p.source, p.host);
            Foreign(exc, Removed(n, p, r).kernel.rules) == Foreign(exc, n.kernel.rules)
  {
    var exc := ExceptionRule(p.source, p.host);
    var drop := RuleDel(0, Some(Pair(p.source, p.host)), SOFTAP_TABLE);
    var dropped := Ran(n, drop, r.rule).0;
    var seated := Ran(dropped, RuleAdd(LOCAL_RULE), r.reseat).0;
    var unparked := Ran(seated, RuleDel(1, None, LOCAL_TABLE), r.unpark).0;
    CommandKeepsForeign(exc, n, drop, r.rule);
    CommandKeepsForeign(exc, dropped, RuleAdd(LOCAL_RULE), r.reseat);
    CommandKeepsForeign(exc, seated, RuleDel(1, None, LOCAL_TABLE), r.unpark);
    CommandKeepsForeign(exc, unparked, FlushTable, r.flush);
    CommandKeepsForeign(exc, dropped, FlushTable, r.flush);
  }

  /** The rules that are not `own`, in order. */
  function Others(own: Rule -> bool, rules: seq<Rule>): (r: seq<Rule>)
  {
    if rules == [] then [] else (if own(rules[0]) then [] else [rules[0]]) + Others(own, rules[1..])
  }

  ghost predicate Covers(own: Rule -> bool, exc: Rule)
  {
    forall r :: Own(exc, r) ==> own(r)
  }

  lemma {:induction false} OthersOfForeign(own: Rule -> bool, exc: Rule, rules: seq<Rule>)
    requires Covers(own, exc)
    ensures Others(own, Foreign(exc, rules)) == Others(own, rules)
  {
    if rules != [] {
      OthersOfForeign(own, exc, rules[1..]);
      if !Own(exc, rules[0]) {
        assert ([rules[0]] + Foreign(exc, rules[1..]))[1..] == Foreign(exc, rules[1..]);
      } else {
        assert [] + Foreign(exc, rules[1..]) == Foreign(exc, rules[1..]);
      }
    }
  }

  // ----- the calls on a plain rule list ----------------------------------------------------

  /** What parking leaves behind, once the exception rule stands behind `lookup local`. */
  lemma ParkingOnPlain(n: Net, f: InstallFaults, from: Selector -> string, exc: Rule, rest: seq<Rule>)
    requires Behind(rest) && IsException(exc) && n.kernel.rules == Front(Beside, exc) + rest
    ensures var o := Planned(true, f.(route := false, rule := false));
            Parking(n, f, from) == (Net(n.kernel.(rules := Front(o, exc) + rest), n.delivers && o != Parked(false)), o.Parked?)
  {
    if f.list {
      NothingListed();
    } else {
      ListingStartsLocal(n.kernel.rules, from);
      ParkingMoves(n, f, exc, rest);
    }
  }

  /** The three commands of parking, one after the other. */
  lemma ParkingMoves(n: Net, f: InstallFaults, exc: Rule, rest: seq<Rule>)
    requires Behind(rest) && IsException(exc) && n.kernel.rules == Front(Beside, exc) + rest
    ensures var c := !f.park;
            var parked := Ran(n, RuleAdd(PARKED_RULE), f.park).0;
            var (moved, reply) := Ran(parked, RuleDel(0, None, LOCAL_TABLE), f.unseat);
            && parked == Net(n.kernel.(rules := Front(Unmoved(c), exc) + rest), n.delivers)
            && (reply.Done? <==> !f.unseat)
            && moved == (if f.unseat then parked else Net(n.kernel.(rules := Front(Parked(c), exc) + rest), n.delivers && c))
            && (f.unseat ==> Ran(moved, RuleDel(1, None, LOCAL_TABLE), f.unpark).0
                             == Net(n.kernel.(rules := Front(Unmoved(c && f.unpark), exc) + rest), n.delivers))
  {
    var c := !f.park;
    ParkedFronts(exc, rest, c);
    LocalInFront(Unmoved(c), exc, rest);
    LocalInFront(Unmoved(c && f.unpark), exc, rest);
    LocalInFront(Parked(c), exc, rest);
  }

  /** The table after an installation. */
  function TableAfter(o: Installation, softap: map<Addr, Route>, host: Addr, route: Route, flushFails: bool): (t: map<Addr, Route>)
  {
    match o
    case NotRouted => softap
    case NotRuled => if flushFails then softap[host := route] else map[]
    case _ => softap[host := route]
  }

  /** The outcome in the terms of `Planned`. */
  function Outcome(n: Net, source: Addr, host: Addr, device: string, o: Installation, flushFails: bool): (out: (Net, PolicyRoute))
    requires n.kernel.rules != []
  {
    (Net(Kernel(Front(o, ExceptionRule(source, host)) + n.kernel.rules[1..],
                TableAfter(o, n.kernel.softap, host, Route(device, source), flushFails)),
         n.delivers && o != Parked(false)),
     PolicyRoute(source, host, o.Parked?))
  }

  /** The state once the /32 and the exception rule are in. */
  function Ruled(n: Net, source: Addr, host: Addr, device: string): (ruled: Net)
    requires n.kernel.rules != []
  {
    Net(Kernel(Front(Beside, ExceptionRule(source, host)) + n.kernel.rules[1..],
               n.kernel.softap[host := Route(device, source)]), n.delivers)
  }

  lemma RouteAndRule(n: Net, source: Addr, host: Addr, device: string)
    requires Plain(n.kernel.rules)
    ensures var (routed, r) := Ran(n, RouteReplace(host, device, source), false);
            && r.Done? && routed == Net(n.kernel.(softap := n.kernel.softap[host := Route(device, source)]), n.delivers)
            && Ran(routed, RuleAdd(ExceptionRule(source, host)), false) == (Ruled(n, source, host, device), Done)
  {
    var exc, rest := ExceptionRule(source, host), n.kernel.rules[1..];
    InstallFronts(n.kernel.rules, exc);
    LocalInFront(NotRouted, exc, rest);
    LocalInFront(Beside, exc, rest);
  }

  lemma InstallStopsEarly(n: Net, source: Addr, host: Addr, device: string, isLocal: bool, from: Selector -> string, f: InstallFaults)
    requires Plain(n.kernel.rules) && (f.route || f.rule)
    ensures Installed(n, source, host, device, isLocal, from, f) ==
            Outcome(n, source, host, device, Planned(isLocal, f), f.flush)
  {
    var exc, rest := ExceptionRule(source, host), n.kernel.rules[1..];
    InstallFronts(n.kernel.rules, exc);
    LocalInFront(NotRouted, exc, rest);
  }

  /** On a plain rule list: the exact rules, table and record for every combination of failing commands. */
  lemma InstallOnPlain(n: Net, source: Addr, host: Addr, device: string, isLocal: bool, from: Selector -> string, f: InstallFaults)
    requires Plain(n.kernel.rules)
    ensures Installed(n, source, host, device, isLocal, from, f) ==
            Outcome(n, source, host, device, Planned(isLocal, f), f.flush)
  {
    if f.route || f.rule {
      InstallStopsEarly(n, source, host, device, isLocal, from, f);
    } else {
      RouteAndRule(n, source, host, device);
      if isLocal {
        ParkingOnPlain(Ruled(n, source, host, device), f, from, ExceptionRule(source, host), n.kernel.rules[1..]);
      }
    }
  }

  lemma UnparkSteps(n: Net, r: RemoveFaults, c: bool, exc: Rule, rest: seq<Rule>)
    requires Behind(rest) && IsException(exc) && n.kernel.rules == Left(r.rule, exc) + Copy(c) + rest
    ensures Ran(Ran(n, RuleAdd(LOCAL_RULE), r.reseat).0, RuleDel(1, None, LOCAL_TABLE), r.unpark).0
            == Net(n.kernel.(rules := FrontAfter(Parked(c), exc, r) + rest), n.delivers && (!r.reseat || (c && r.unpark)))
  {
    UnparkFacts(r, c, exc, rest);
  }

  /** Removing what installation `o` left on a plain rule list. */
  lemma RemoveOnPlain(n: Net, p: PolicyRoute, r: RemoveFaults, o: Installation, rest: seq<Rule>)
    requires Behind(rest) && p.relocatedLocal == o.Parked?
    requires n.kernel.rules == Front(o, ExceptionRule(p.source, p.host)) + rest
    ensures Removed(n, p, r) ==
            Net(Kernel(FrontAfter(o, ExceptionRule(p.source, p.host), r) + rest, if r.flush then n.kernel.softap else map[]),
                n.delivers && (o.Parked? ==> o.copy && (!r.reseat || r.unpark)))
  {
    var exc := ExceptionRule(p.source, p.host);
    DropFacts(o, exc, rest, r);
    LocalAfter(o, exc, rest, r);
    if o.Parked? {
      var dropped := Ran(n, RuleDel(0, Some(exc.sel), SOFTAP_TABLE), r.rule).0;
      UnparkSteps(dropped, r, o.copy, exc, rest);
    }
  }

  lemma LocalAfter(o: Installation, exc: Rule, rest: seq<Rule>, r: RemoveFaults)
    requires Behind(rest) && IsException(exc)
    ensures HasLocal(FrontAfter(o, exc, r) + rest) <==> o.Parked? ==> !r.reseat || (o.copy && r.unpark)
  {
    LocalAmong(FrontAfter(o, exc, r), rest);
    var front := FrontAfter(o, exc, r);
    match o
    case Parked(c) =>
      assert front == Left(r.rule, exc) + Seat(r.reseat) + Copy(c && r.unpark);
    case _ =>
      assert front[0] == LOCAL_RULE;
  }

  lemma LocalInFront(o: Installation, exc: Rule, rest: seq<Rule>)
    requires IsException(exc) && Behind(rest)
    ensures HasLocal(Front(o, exc) + rest) <==> o != Parked(false)
  {
    var rules := Front(o, exc) + rest;
    match o
    case Parked(c) =>
      if c {
        assert rules[1] == PARKED_RULE;
      } else {
        assert forall i :: 0 <= i < |rules| ==> rules[i] == if i == 0 then exc else rest[i - 1];
      }
    case _ => assert rules[0] == LOCAL_RULE;
  }

  lemma NotParked(exc: Rule, rest: seq<Rule>)
    requires Behind(rest) && IsException(exc)
    ensures PARKED_RULE !in Front(Beside, exc) + rest
  {
    var rules := Front(Beside, exc) + rest;
    forall i | 0 <= i < |rules| ensures rules[i] != PARKED_RULE {
      assert i >= 2 ==> rules[i] == rest[i - 2];
    }
  }

  lemma ParkedInserted(exc: Rule, rest: seq<Rule>)
    requires Behind(rest) && IsException(exc)
    ensures Insert(Front(Beside, exc) + rest, PARKED_RULE) == Front(Unmoved(true), exc) + rest
  {
    InsertInFront([LOCAL_RULE, exc], rest, PARKED_RULE);
  }

  lemma LocalUnseated(exc: Rule, rest: seq<Rule>, c: bool)
    ensures Delete(Front(Unmoved(c), exc) + rest, 0, None, LOCAL_TABLE) == Front(Parked(c), exc) + rest
    ensures |Front(Parked(c), exc) + rest| < |Front(Unmoved(c), exc) + rest|
  {
    FrontShape(exc, c, rest);
    var rules := [LOCAL_RULE] + ([exc] + (Copy(c) + rest));
    assert rules[0] == LOCAL_RULE && rules[1..] == [exc] + (Copy(c) + rest);
  }

  lemma CopyDropped(exc: Rule, rest: seq<Rule>, c: bool)
    requires Behind(rest) && IsException(exc)
    ensures Delete(Front(Unmoved(c), exc) + rest, 1, None, LOCAL_TABLE) == Front(Unmoved(false), exc) + rest
  {
    if c {
      DeleteInFront([LOCAL_RULE, exc], PARKED_RULE, rest, 1, None, LOCAL_TABLE);
    } else {
      DeleteNothing([LOCAL_RULE, exc] + rest, 1, None, LOCAL_TABLE);
    }
  }

  /** The command results on the rule lists met while parking. */
  lemma ParkedFronts(exc: Rule, rest: seq<Rule>, c: bool)
    requires Behind(rest) && IsException(exc)
    ensures Front(Beside, exc) == Front(Unmoved(false), exc)
    ensures PARKED_RULE !in Front(Beside, exc) + rest
    ensures Insert(Front(Beside, exc) + rest, PARKED_RULE) == Front(Unmoved(true), exc) + rest
    ensures Delete(Front(Unmoved(c), exc) + rest, 0, None, LOCAL_TABLE) == Front(Parked(c), exc) + rest
    ensures |Front(Parked(c), exc) + rest| < |Front(Unmoved(c), exc) + rest|
    ensures Delete(Front(Unmoved(c), exc) + rest, 1, None, LOCAL_TABLE) == Front(Unmoved(false), exc) + rest
  {
    NotParked(exc, rest);
    ParkedInserted(exc, rest);
    LocalUnseated(exc, rest, c);
    CopyDropped(exc, rest, c);
  }

  lemma InstallFronts(rules: seq<Rule>, exc: Rule)
    requires Plain(rules) && IsException(exc)
    ensures var rest := rules[1..];
            && Front(NotRouted, exc) + rest == rules && exc !in rules
            && Insert(rules, exc) == Front(Beside, exc) + rest
  {
    var rest := rules[1..];
    assert rules == [LOCAL_RULE] + rest;
    InsertInFront([LOCAL_RULE], rest, exc);
  }

  /** The front once the exception rule is gone. */
  function Dropped(o: Installation, exc: Rule): (rules: seq<Rule>)
  {
    match o
    case Parked(c) => Copy(c)
    case Unmoved(c) => [LOCAL_RULE] + Copy(c)
    case _ => [LOCAL_RULE]
  }

  /** A front made of the rules this program handles delivers locally iff one of them is `lookup local`. */
  lemma LocalAmong(front: seq<Rule>, rest: seq<Rule>)
    requires Behind(rest) && forall i :: 0 <= i < |front| ==> front[i] == LOCAL_RULE || front[i] == PARKED_RULE || IsException(front[i])
    ensures HasLocal(front + rest) <==> LOCAL_RULE in front || PARKED_RULE in front
  {
    var rules := front + rest;
    if LOCAL_RULE in front || PARKED_RULE in front {
      var i :| 0 <= i < |front| && (front[i] == LOCAL_RULE || front[i] == PARKED_RULE);
      assert rules[i] == front[i];
    } else {
      assert forall i :: 0 <= i < |rules| ==> rules[i] == if i < |front| then front[i] else rest[i - |front|];
    }
  }

  lemma DropFirst(exc: Rule, tail: seq<Rule>)
    requires IsException(exc)
    ensures Delete([exc] + tail, 0, Some(exc.sel), SOFTAP_TABLE) == tail
  {
    assert ([exc] + tail)[0] == exc && ([exc] + tail)[1..] == tail;
  }

  lemma DropSecond(exc: Rule, tail: seq<Rule>)
    requires IsException(exc)
    ensures Delete([LOCAL_RULE] + ([exc] + tail), 0, Some(exc.sel), SOFTAP_TABLE) == [LOCAL_RULE] + tail
  {
    var rules := [LOCAL_RULE] + ([exc] + tail);
    assert rules[0] == LOCAL_RULE && rules[1..] == [exc] + tail;
    DropFirst(exc, tail);
  }

  lemma DropNone(exc: Rule, rest: seq<Rule>)
    requires IsException(exc) && Behind(rest)
    ensures Delete([LOCAL_RULE] + rest, 0, Some(exc.sel), SOFTAP_TABLE) == [LOCAL_RULE] + rest
  {
    DeleteNothing([LOCAL_RULE] + rest, 0, Some(exc.sel), SOFTAP_TABLE);
  }

  lemma FrontShape(exc: Rule, c: bool, rest: seq<Rule>)
    ensures Front(Parked(c), exc) + rest == [exc] + (Copy(c) + rest)
    ensures Front(Unmoved(c), exc) + rest == [LOCAL_RULE] + ([exc] + (Copy(c) + rest))
    ensures Front(Beside, exc) + rest == [LOCAL_RULE] + ([exc] + rest)
    ensures Dropped(Unmoved(c), exc) + rest == [LOCAL_RULE] + (Copy(c) + rest)
  {
    assert [LOCAL_RULE, exc] == [LOCAL_RULE] + [exc];
    Assoc([exc], Copy(c), rest);
    Assoc([LOCAL_RULE, exc], Copy(c), rest);
    Assoc([LOCAL_RULE], [exc], Copy(c) + rest);
    Assoc([LOCAL_RULE], [exc], rest);
    Assoc([LOCAL_RULE], Copy(c), rest);
  }

  lemma DropException(o: Installation, exc: Rule, rest: seq<Rule>)
    requires Behind(rest) && IsException(exc)
    ensures Delete(Front(o, exc) + rest, 0, Some(exc.sel), SOFTAP_TABLE) == Dropped(o, exc) + rest
  {
    match o
    case Parked(c) =>
      FrontShape(exc, c, rest);
      DropFirst(exc, Copy(c) + rest);
    case Unmoved(c) =>
      FrontShape(exc, c, rest);
      DropSecond(exc, Copy(c) + rest);
    case Beside =>
      FrontShape(exc, false, rest);
      DropSecond(exc, rest);
    case _ =>
      DropNone(exc, rest);
  }

  lemma LocalDropped(o: Installation, exc: Rule, rest: seq<Rule>)
    requires Behind(rest)
    ensures HasLocal(Dropped(o, exc) + rest) <==> o != Parked(false)
  {
    LocalAmong(Dropped(o, exc), rest);
  }

  function Left(kept: bool, exc: Rule): (rules: seq<Rule>) { if kept then [exc] else [] }

  function Seat(failed: bool): (rules: seq<Rule>) { if failed then [] else [LOCAL_RULE] }

  lemma ReseatInsert(left: seq<Rule>, exc: Rule, c: bool, rest: seq<Rule>)
    requires Behind(rest) && IsException(exc) && (left == [] || left == [exc])
    ensures LOCAL_RULE !in left + Copy(c) + rest
    ensures Insert(left + Copy(c) + rest, LOCAL_RULE) == left + [LOCAL_RULE] + Copy(c) + rest
  {
    NotListed(left, exc, c, rest);
    if c {
      InsertBeforeParked(left, rest);
    } else {
      InsertWithoutCopy(left, rest);
    }
  }

  /** The rule lists met while `lookup local` goes back to 0. */
  lemma UnparkFacts(r: RemoveFaults, c: bool, exc: Rule, rest: seq<Rule>)
    requires Behind(rest) && IsException(exc)
    ensures var left := Left(r.rule, exc);
            var before, between, after := left + Copy(c) + rest, left + Seat(r.reseat) + Copy(c) + rest, FrontAfter(Parked(c), exc, r) + rest;
            && LOCAL_RULE !in before && (if r.reseat then between == before else Insert(before, LOCAL_RULE) == between)
            && (if r.unpark then after == between else Delete(between, 1, None, LOCAL_TABLE) == after)
            && (HasLocal(between) <==> !r.reseat || c)
            && (HasLocal(after) <==> !r.reseat || (c && r.unpark))
  {
    var left, seat := Left(r.rule, exc), Seat(r.reseat);
    ReseatInsert(left, exc, c, rest);
    ReseatDelete(left, exc, seat, c, rest);
    ReseatDelete(left, exc, seat, c && r.unpark, rest);
    NoCopy(left + seat, rest);
    if r.reseat { assert left + seat == left; }
  }

  lemma NoCopy(front: seq<Rule>, rest: seq<Rule>)
    ensures front + Copy(false) + rest == front + rest
  {
  }

  /** The rule lists met while the exception rule is dropped. */
  lemma DropFacts(o: Installation, exc: Rule, rest: seq<Rule>, r: RemoveFaults)
    requires Behind(rest) && IsException(exc)
    ensures var before, between := Front(o, exc) + rest, (if r.rule then Front(o, exc) else Dropped(o, exc)) + rest;
            && (if r.rule then between == before else Delete(before, 0, Some(exc.sel), SOFTAP_TABLE) == between)
            && (HasLocal(between) <==> o != Parked(false))
            && (if o.Parked? then between == Left(r.rule, exc) + Copy(o.copy) + rest else between == FrontAfter(o, exc, r) + rest)
  {
    DropException(o, exc, rest);
    LocalDropped(o, exc, rest);
    LocalInFront(o, exc, rest);
  }

  lemma NotListed(left: seq<Rule>, exc: Rule, c: bool, rest: seq<Rule>)
    requires Behind(rest) && IsException(exc) && (left == [] || left == [exc])
    ensures LOCAL_RULE !in left + Copy(c) + rest
  {
    var front := left + Copy(c);
    forall i | 0 <= i < |front + rest| ensures (front + rest)[i] != LOCAL_RULE {
      if i < |front| {
        assert (front + rest)[i] == front[i];
      } else {
        assert (front + rest)[i] == rest[i - |front|];
      }
    }
  }

  lemma InsertWithoutCopy(left: seq<Rule>, rest: seq<Rule>)
    requires Behind(rest) && |left| <= 1 && (left != [] ==> left[0].pref == 0)
    ensures Insert(left + Copy(false) + rest, LOCAL_RULE) == left + [LOCAL_RULE] + Copy(false) + rest
  {
    assert left + Copy(false) + rest == left + rest;
    InsertInFront(left, rest, LOCAL_RULE);
    assert left + [LOCAL_RULE] + Copy(false) + rest == left + [LOCAL_RULE] + rest;
  }

  lemma ReseatDelete(left: seq<Rule>, exc: Rule, seat: seq<Rule>, c: bool, rest: seq<Rule>)
    requires Behind(rest) && IsException(exc) && (left == [] || left == [exc]) && (seat == [] || seat == [LOCAL_RULE])
    ensures Delete(left + seat + Copy(c) + rest, 1, None, LOCAL_TABLE) == left + seat + rest
    ensures HasLocal(left + seat + Copy(c) + rest) <==> seat != [] || c
  {
    LocalAmong(left + seat + Copy(c), rest);
    if c {
      DeleteInFront(left + seat, PARKED_RULE, rest, 1, None, LOCAL_TABLE);
    } else {
      assert left + seat + Copy(c) + rest == left + seat + rest;
      DeleteNothing(left + seat + rest, 1, None, LOCAL_TABLE);
    }
  }

  lemma InsertBeforeParked(left: seq<Rule>, rest: seq<Rule>)
    requires |left| <= 1 && (left != [] ==> left[0].pref == 0)
    ensures Insert(left + [PARKED_RULE] + rest, LOCAL_RULE) == left + [LOCAL_RULE] + [PARKED_RULE] + rest
  {
    var tail := [PARKED_RULE] + rest;
    assert Insert(tail, LOCAL_RULE) == [LOCAL_RULE] + tail;
    if left != [] {
      assert left + [PARKED_RULE] + rest == [left[0]] + tail;
      assert ([left[0]] + tail)[1..] == tail;
    } else {
      assert left + [PARKED_RULE] + rest == tail;
    }
  }
}
