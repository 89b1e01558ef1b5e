/**
 What a Soft-AP session does to the host and how it is undone: flows, the rule list
 and the sysctls.
 */
module SoftAp {
  import opened Prelude
  import opened Netcfg
  import opened PolicyRouting

  // ----- flows ------------------------------------------------------------------

  lemma {:induction false} RestIgnoresTable(w: World, t1: map<Addr, Route>, t2: map<Addr, Route>, rest: seq<Rule>, src: Addr, dst: Addr)
    requires Unshared(rest)
    ensures Resolve(w, t1, rest, src, dst) == Resolve(w, t2, rest, src, dst)
  {
    if rest != [] {
      RestIgnoresTable(w, t1, t2, rest[1..], src, dst);
    }
  }

  /** Resolution through the rules in front, one at a time. */
  lemma ResolveFront(w: World, softap: map<Addr, Route>, r: Rule, tail: seq<Rule>, src: Addr, dst: Addr)
    ensures Resolve(w, softap, [r] + tail, src, dst) ==
            if Applies(w, r.sel, src, dst) && Lookup(w, softap, r.table, dst).Some?
            then Lookup(w, softap, r.table, dst) else Resolve(w, softap, tail, src, dst)
  {
    assert ([r] + tail)[1..] == tail;
  }

  /** The front the installation leaves, followed by the untouched rules, as seen by one flow. */
  ghost function ThroughFront(o: Installation, local: Option<Route>, exception: Option<Route>, behind: Option<Route>): (r: Option<Route>)
  {
    match o
    case NotRouted => if local.Some? then local else behind
    case NotRuled => if local.Some? then local else behind
    case Beside => if local.Some? then local else if exception.Some? then exception else behind
    case Unmoved(_) => if local.Some? then local else if exception.Some? then exception else behind
    case Parked(c) => if exception.Some? then exception else if c && local.Some? then local else behind
  }

  lemma FrontResolves(w: World, softap: map<Addr, Route>, o: Installation, source: Addr, host: Addr, rest: seq<Rule>, src: Addr, dst: Addr)
    ensures var hit := src == source && dst == host && dst in softap;
            Resolve(w, softap, Front(o, ExceptionRule(source, host)) + rest, src, dst)
            == ThroughFront(o, w.routes(LOCAL_TABLE, dst), if hit then Some(softap[dst]) else None, Resolve(w, softap, rest, src, dst))
  {
    var exc := ExceptionRule(source, host);
    match o
    case Beside =>
      assert Front(o, exc) + rest == [LOCAL_RULE] + ([exc] + rest);
      ResolveFront(w, softap, exc, rest, src, dst);
      ResolveFront(w, softap, LOCAL_RULE, [exc] + rest, src, dst);
    case Parked(c) =>
      assert Front(o, exc) + rest == [exc] + (Copy(c) + rest);
      if c {
        ResolveFront(w, softap, PARKED_RULE, rest, src, dst);
      } else {
        assert Copy(c) + rest == rest;
      }
      ResolveFront(w, softap, exc, Copy(c) + rest, src, dst);
    case Unmoved(c) =>
      assert Front(o, exc) + rest == [LOCAL_RULE] + ([exc] + (Copy(c) + rest));
      if c {
        ResolveFront(w, softap, PARKED_RULE, rest, src, dst);
      } else {
        assert Copy(c) + rest == rest;
      }
      ResolveFront(w, softap, exc, Copy(c) + rest, src, dst);
      ResolveFront(w, softap, LOCAL_RULE, [exc] + (Copy(c) + rest), src, dst);
    case _ =>
      ResolveFront(w, softap, LOCAL_RULE, rest, src, dst);
  }

  /**
   After a successful installation the flow (source, host) leaves by the wireless
   device, whether or not `host` is an address of this machine.
   */
  lemma FlowIsSteered(w: World, n: Net, source: Addr, host: Addr, device: string, isLocal: bool, from: Selector -> string, f: InstallFaults)
    requires Plain(n.kernel.rules) && (isLocal <==> w.routes(LOCAL_TABLE, host).Some?)
    requires Planned(isLocal, f) == if isLocal then Parked(true) else Beside
    ensures var k := Installed(n, source, host, device, isLocal, from, f).0.kernel;
            Resolve(w, k.softap, k.rules, source, host) == Some(Route(device, source))
  {
    InstallOnPlain(n, source, host, device, isLocal, from, f);
    FrontResolves(w, n.kernel.softap[host := Route(device, source)], Planned(isLocal, f), source, host, n.kernel.rules[1..], source, host);
  }

  /**
   Every other flow resolves exactly as before, however the installation went, unless
   `lookup local` was taken from preference 0 without having been parked.
   */
  lemma OtherFlowsUnchanged(w: World, rules: seq<Rule>, before: map<Addr, Route>, after: map<Addr, Route>,
                            source: Addr, host: Addr, o: Installation, src: Addr, dst: Addr)
    requires Plain(rules) && Unshared(rules[1..]) && o != Parked(false) && !(src == source && dst == host)
    ensures Resolve(w, after, Front(o, ExceptionRule(source, host)) + rules[1..], src, dst) == Resolve(w, before, rules, src, dst)
  {
    FrontResolves(w, after, o, source, host, rules[1..], src, dst);
    assert rules == [LOCAL_RULE] + rules[1..];
    ResolveFront(w, before, LOCAL_RULE, rules[1..], src, dst);
    RestIgnoresTable(w, before, after, rules[1..], src, dst);
  }

  /** Every flow but (source, host) resolves the same in both kernels. */
  ghost predicate SameFlows(w: World, a: Kernel, b: Kernel, source: Addr, host: Addr)
  {
    forall src: Addr, dst: Addr :: !(src == source && dst == host) ==>
      Resolve(w, a.softap, a.rules, src, dst) == Resolve(w, b.softap, b.rules, src, dst)
  }

  /** The commands that fail and succeed so that `lookup local` is lost. */
  predicate LosesLocal(isLocal: bool, f: InstallFaults)
  {
    isLocal && !f.route && !f.rule && !f.list && f.park && !f.unseat
  }

  /** A plain rule list, and nobody else looks up the exception table. */
  ghost predicate Usual(n: Net)
  {
    Plain(n.kernel.rules) && Unshared(n.kernel.rules[1..])
  }

  /**
   Installing leaves every other flow alone on all hosts exactly when it is not the case
   that `lookup local` cannot be parked and can be deleted.
   */
  lemma LocalDeliveryKeptIff(source: Addr, host: Addr, device: string, isLocal: bool, from: Selector -> string, f: InstallFaults)
    ensures !LosesLocal(isLocal, f) <==>
            forall w: World, n: Net :: Usual(n) ==>
              SameFlows(w, Installed(n, source, host, device, isLocal, from, f).0.kernel, n.kernel, source, host)
  {
    if LosesLocal(isLocal, f) {
      LocalCutOff(source, host, device, isLocal, from, f);
    } else {
      forall w: World, n: Net | Usual(n)
        ensures SameFlows(w, Installed(n, source, host, device, isLocal, from, f).0.kernel, n.kernel, source, host)
      {
        FlowsKept(w, n, source, host, device, isLocal, from, f);
      }
    }
  }

  lemma FlowsKept(w: World, n: Net, source: Addr, host: Addr, device: string, isLocal: bool, from: Selector -> string, f: InstallFaults)
    requires !LosesLocal(isLocal, f) && Usual(n)
    ensures SameFlows(w, Installed(n, source, host, device, isLocal, from, f).0.kernel, n.kernel, source, host)
  {
    var k := Installed(n, source, host, device, isLocal, from, f).0.kernel;
    InstallOnPlain(n, source, host, device, isLocal, from, f);
    forall src: Addr, dst: Addr | !(src == source && dst == host)
      ensures Resolve(w, k.softap, k.rules, src, dst) == Resolve(w, n.kernel.softap, n.kernel.rules, src, dst)
    {
      OtherFlowsUnchanged(w, n.kernel.rules, n.kernel.softap, k.softap, source, host, Planned(isLocal, f), src, dst);
    }
  }

  /** A machine whose every address is local. */
  function AllLocal(): World
  {
    World((t, s, d) => false, (t, d) => if t == LOCAL_TABLE then Some(Route("lo", 0)) else None)
  }

  lemma AllLocalResolves(softap: map<Addr, Route>, source: Addr, host: Addr)
    ensures Resolve(AllLocal(), map[], [LOCAL_RULE], source, host + 1).Some?
    ensures Resolve(AllLocal(), softap, [ExceptionRule(source, host)], source, host + 1).None?
  {
    ResolveFront(AllLocal(), map[], LOCAL_RULE, [], source, host + 1);
    ResolveFront(AllLocal(), softap, ExceptionRule(source, host), [], source, host + 1);
    assert [LOCAL_RULE] + [] == [LOCAL_RULE] && [ExceptionRule(source, host)] + [] == [ExceptionRule(source, host)];
  }

  /** On it, another of its addresses is cut off. */
  lemma LocalCutOff(source: Addr, host: Addr, device: string, isLocal: bool, from: Selector -> string, f: InstallFaults)
    requires LosesLocal(isLocal, f)
    ensures exists w: World, n: Net :: Usual(n) &&
              !SameFlows(w, Installed(n, source, host, device, isLocal, from, f).0.kernel, n.kernel, source, host)
  {
    var n := Net(Kernel([LOCAL_RULE], map[]), true);
    var k := Installed(n, source, host, device, isLocal, from, f).0.kernel;
    InstallOnPlain(n, source, host, device, isLocal, from, f);
    assert k.rules == [ExceptionRule(source, host)];
    CutOffThere(k, source, host);
    assert Usual(n) && !SameFlows(AllLocal(), k, n.kernel, source, host);
  }

  lemma CutOffThere(k: Kernel, source: Addr, host: Addr)
    requires k.rules == [ExceptionRule(source, host)]
    ensures !SameFlows(AllLocal(), k, Kernel([LOCAL_RULE], map[]), source, host)
  {
    AllLocalResolves(k.softap, source, host);
  }

  // ----- install, then remove -----------------------------------------------------

  /** The failures after which the rule list is nevertheless put back. */
  predicate Restores(isLocal: bool, f: InstallFaults, r: RemoveFaults)
  {
    || f.route || f.rule
    || (!r.rule && (isLocal && !f.list ==>
                      if f.unseat then f.park || !f.unpark
                      else !r.reseat && (f.park || !r.unpark)))
  }

  /** Install then remove gives back the exact rule list iff the failures are of that kind. */
  lemma RestoredIff(isLocal: bool, f: InstallFaults, r: RemoveFaults, exc: Rule, rest: seq<Rule>)
    requires IsException(exc)
    ensures FrontAfter(Planned(isLocal, f), exc, r) + rest == [LOCAL_RULE] + rest <==> Restores(isLocal, f, r)
  {
    var front := FrontAfter(Planned(isLocal, f), exc, r);
    assert |front + rest| == |front| + |rest|;
    if front + rest == [LOCAL_RULE] + rest {
      assert |front| == 1 && (front + rest)[0] == front[0];
      assert front == [LOCAL_RULE];
    }
    FrontIsLocalIff(isLocal, f, r, exc);
  }

  lemma FrontIsLocalIff(isLocal: bool, f: InstallFaults, r: RemoveFaults, exc: Rule)
    requires IsException(exc)
    ensures FrontAfter(Planned(isLocal, f), exc, r) == [LOCAL_RULE] <==> Restores(isLocal, f, r)
  {
    var o := Planned(isLocal, f);
    var front := FrontAfter(o, exc, r);
    match o
    case Parked(c) =>
      assert |front| == (if r.rule then 1 else 0) + (if r.reseat then 0 else 1) + (if c && r.unpark then 1 else 0);
      if front == [LOCAL_RULE] {
        assert front[0] == LOCAL_RULE;
      }
    case Unmoved(c) =>
      assert |front| == 1 + (if r.rule then 1 else 0) + (if c then 1 else 0);
    case _ =>
      assert |front| == 1 + if HasException(o) && r.rule then 1 else 0;
  }

  /** `lookup local` was present after every command of the whole session iff … */
  predicate NeverAbsent(isLocal: bool, f: InstallFaults, r: RemoveFaults)
  {
    Planned(isLocal, f).Parked? ==> !f.park && (!r.reseat || r.unpark)
  }

  /**
   On any rule list the rules of others survive a session; on a plain one the list is back,
   and local delivery was never interrupted, exactly under the stated failures.
   */
  method InstallThenRemove(net: Host, source: Addr, host: Addr, device: string, isLocal: bool,
                           from: Selector -> string, f: InstallFaults, r: RemoveFaults)
    modifies net
    ensures Foreign(ExceptionRule(source, host), net.kernel.rules) == old(Foreign(ExceptionRule(source, host), net.kernel.rules))
    ensures old(Plain(net.kernel.rules)) ==> (net.kernel.rules == old(net.kernel.rules) <==> Restores(isLocal, f, r))
    ensures old(Plain(net.kernel.rules) && net.delivers) ==> (net.delivers <==> NeverAbsent(isLocal, f, r))
    ensures !r.flush ==> net.kernel.softap == map[]
  {
    ghost var before := net.Now();
    InstallKeepsForeign(before, source, host, device, isLocal, from, f);
    InstalledNames(before, source, host, device, isLocal, from, f);
    var p := net.InstallPolicyRoute(source, host, device, isLocal, from, f);
    ghost var between := net.Now();
    RemoveKeepsForeign(between, p, r);
    RemovedFlushes(between, p, r);
    if Plain(before.kernel.rules) {
      ThereAndBack(before, source, host, device, isLocal, from, f, r);
    }
    net.RemovePolicyRoute(p, r);
  }

  lemma InstalledNames(n: Net, source: Addr, host: Addr, device: string, isLocal: bool, from: Selector -> string, f: InstallFaults)
    ensures var p := Installed(n, source, host, device, isLocal, from, f).1; p.source == source && p.host == host
  {
  }

  lemma RemovedFlushes(n: Net, p: PolicyRoute, r: RemoveFaults)
    ensures !r.flush ==> Removed(n, p, r).kernel.softap == map[]
  {
  }

  lemma ThereAndBack(n: Net, source: Addr, host: Addr, device: string, isLocal: bool, from: Selector -> string, f: InstallFaults, r: RemoveFaults)
    requires Plain(n.kernel.rules)
    ensures var (up, p) := Installed(n, source, host, device, isLocal, from, f);
            var end := Removed(up, p, r);
            && (end.kernel.rules == n.kernel.rules <==> Restores(isLocal, f, r))
            && (n.delivers ==> (end.delivers <==> NeverAbsent(isLocal, f, r)))
  {
    var rest := n.kernel.rules[1..];
    var (up, p) := Installed(n, source, host, device, isLocal, from, f);
    RestoredIff(isLocal, f, r, ExceptionRule(source, host), rest);
    assert n.kernel.rules == [LOCAL_RULE] + rest;
    InstallOnPlain(n, source, host, device, isLocal, from, f);
    RemoveOnPlain(up, p, r, Planned(isLocal, f), rest);
  }

  // ----- sysctls ------------------------------------------------------------------

  type Knob = (string, string)
  type Sysctls = map<Knob, string>
  datatype Saved = Saved(knob: Knob, value: string)

  /** Write back the recorded values, last first. */
  function Undo(sys: Sysctls, saved: seq<Saved>): (sys': Sysctls)
    decreases |saved|
  {
    if saved == [] then sys
    else
      var last := saved[|saved| - 1];
      Undo(sys[last.knob := last.value], saved[..|saved| - 1])
  }

  /** Recording a value before overwriting it keeps what undoing will lead back to. */
  lemma RecordedWrite(sys: Sysctls, saved: seq<Saved>, knob: Knob, want: string)
    requires knob in sys
    ensures Undo(sys[knob := want], saved + [Saved(knob, sys[knob])]) == Undo(sys, saved)
  {
    var saved' := saved + [Saved(knob, sys[knob])];
    assert saved'[..|saved'| - 1] == saved;
    assert sys[knob := want][knob := sys[knob]] == sys;
  }

  /** The sysctls and what is recorded about them. */
  datatype Conf = Conf(sys: Sysctls, saved: seq<Saved>)

  function Applied(c: Conf, knob: Knob, want: string, fail: bool): (c': Conf)
  {
    if knob !in c.sys || c.sys[knob] == want || fail then c
    else Conf(c.sys[knob := want], c.saved + [Saved(knob, c.sys[knob])])
  }

  /** `apply`: one sysctl is set, and its value before is recorded when it did change. */
  method Apply(sys: Sysctls, saved: seq<Saved>, knob: Knob, want: string, fail: bool)
    returns (sys': Sysctls, saved': seq<Saved>)
    ensures Conf(sys', saved') == Applied(Conf(sys, saved), knob, want, fail)
    ensures Undo(sys', saved') == Undo(sys, saved)
    ensures sys'.Keys == sys.Keys
    ensures forall k :: k in sys && k != knob ==> sys'[k] == sys[k]
    ensures knob in sys ==> sys'[knob] == if fail then sys[knob] else want
  {
    sys', saved' := sys, saved;
    if knob !in sys {
      return;
    }
    var current := sys[knob];
    if current == want {
      return;
    }
    if !fail {
      sys' := sys[knob := want];
      saved' := saved + [Saved(knob, current)];
      RecordedWrite(sys, saved, knob, want);
    }
  }

  /** Which of the four writes of `prepare_softap` fail. */
  datatype WriteFaults = WriteFaults(devAccept: bool, allAccept: bool, devFilter: bool, allFilter: bool)

  function Prepared(dev: string, sys: Sysctls, f: WriteFaults): (c: Conf)
  {
    var c1 := Applied(Conf(sys, []), (dev, "accept_local"), "1", f.devAccept);
    var c2 := Applied(c1, ("all", "accept_local"), "1", f.allAccept);
    var c3 := Applied(c2, (dev, "rp_filter"), "0", f.devFilter);
    Applied(c3, ("all", "rp_filter"), "0", f.allFilter)
  }

  /** `prepare_softap`: each of the four writes may fail. */
  method PrepareSoftap(dev: string, sys: Sysctls, f: WriteFaults)
    returns (sys': Sysctls, saved: seq<Saved>)
    ensures Conf(sys', saved) == Prepared(dev, sys, f)
    ensures Undo(sys', saved) == sys
  {
    PreparedTracked(dev, sys, f);
    sys', saved := sys, [];
    sys', saved := Apply(sys', saved, (dev, "accept_local"), "1", f.devAccept);
    sys', saved := Apply(sys', saved, ("all", "accept_local"), "1", f.allAccept);
    sys', saved := Apply(sys', saved, (dev, "rp_filter"), "0", f.devFilter);
    sys', saved := Apply(sys', saved, ("all", "rp_filter"), "0", f.allFilter);
  }

  lemma AppliedAt(c: Conf, knob: Knob, want: string, fail: bool, k: Knob)
    ensures var c' := Applied(c, knob, want, fail);
            && (k in c'.sys <==> k in c.sys)
            && (k in c.sys ==> c'.sys[k] == if k == knob && !fail then want else c.sys[k])
  {
  }

  /** Other devices are untouched, and without failures the four values are set. */
  lemma PreparedValues(dev: string, sys: Sysctls, f: WriteFaults, k: Knob)
    requires k in sys
    ensures var c := Prepared(dev, sys, f);
            && k in c.sys
            && (k.0 != dev && k.0 != "all" ==> c.sys[k] == sys[k])
            && (f == WriteFaults(false, false, false, false) && (k.0 == dev || k.0 == "all") ==>
                  && (k.1 == "accept_local" ==> c.sys[k] == "1") && (k.1 == "rp_filter" ==> c.sys[k] == "0"))
  {
    var c1 := Applied(Conf(sys, []), (dev, "accept_local"), "1", f.devAccept);
    var c2 := Applied(c1, ("all", "accept_local"), "1", f.allAccept);
    var c3 := Applied(c2, (dev, "rp_filter"), "0", f.devFilter);
    AppliedAt(Conf(sys, []), (dev, "accept_local"), "1", f.devAccept, k);
    AppliedAt(c1, ("all", "accept_local"), "1", f.allAccept, k);
    AppliedAt(c2, (dev, "rp_filter"), "0", f.devFilter, k);
    AppliedAt(c3, ("all", "rp_filter"), "0", f.allFilter, k);
  }

  /** Write back the recorded values, last first, except those at the positions `fails`. */
  function UndoSome(sys: Sysctls, saved: seq<Saved>, fails: set<nat>): (sys': Sysctls)
    decreases |saved|
  {
    if saved == [] then sys
    else
      var i, last := |saved| - 1, saved[|saved| - 1];
      UndoSome(if i in fails then sys else sys[last.knob := last.value], saved[..i], fails)
  }

  /** `restore`: writes back in reverse order; the positions `fails` cannot be written. */
  method Restore(sys: Sysctls, saved: seq<Saved>, fails: set<nat>) returns (sys': Sysctls)
    ensures sys' == UndoSome(sys, saved, fails)
  {
    sys' := sys;
    var i: nat := |saved|;
    assert saved[..i] == saved;
    while i > 0
      invariant i <= |saved|
      invariant UndoSome(sys', saved[..i], fails) == UndoSome(sys, saved, fails)
    {
      i := i - 1;
      assert saved[..i + 1][..i] == saved[..i];
      if i !in fails {
        sys' := sys'[saved[i].knob := saved[i].value];
      }
    }
  }

  /** Records of different sysctls, none of them at its recorded value any more. */
  ghost predicate Recorded(sys: Sysctls, saved: seq<Saved>)
  {
    && (forall i :: 0 <= i < |saved| ==> saved[i].knob in sys && sys[saved[i].knob] != saved[i].value)
    && (forall i, j :: 0 <= i < j < |saved| ==> saved[i].knob != saved[j].knob)
  }

  /** The value a sysctl has after an incomplete restore. */
  lemma {:induction false} UndoSomeAt(sys: Sysctls, saved: seq<Saved>, fails: set<nat>, k: Knob)
    requires forall i, j :: 0 <= i < j < |saved| ==> saved[i].knob != saved[j].knob
    ensures (forall i :: 0 <= i < |saved| ==> saved[i].knob != k || i in fails) ==>
              (k in UndoSome(sys, saved, fails) <==> k in sys) && (k in sys ==> UndoSome(sys, saved, fails)[k] == sys[k])
    ensures forall i :: 0 <= i < |saved| && saved[i].knob == k && i !in fails ==>
              k in UndoSome(sys, saved, fails) && UndoSome(sys, saved, fails)[k] == saved[i].value
    decreases |saved|
  {
    if saved != [] {
      var n, last := |saved| - 1, saved[|saved| - 1];
      var next := if n in fails then sys else sys[last.knob := last.value];
      UndoSomeAt(next, saved[..n], fails, k);
      assert forall i :: 0 <= i < n ==> saved[..n][i] == saved[i];
    }
  }

  lemma {:induction false} UndoAll(sys: Sysctls, saved: seq<Saved>, fails: set<nat>)
    requires forall i :: 0 <= i < |saved| ==> i !in fails
    ensures UndoSome(sys, saved, fails) == Undo(sys, saved)
    decreases |saved|
  {
    if saved != [] {
      var last := saved[|saved| - 1];
      UndoAll(sys[last.knob := last.value], saved[..|saved| - 1], fails);
    }
  }

  /** An incomplete restore gives the initial values exactly when every recorded write succeeds. */
  lemma RestoredExactly(sys0: Sysctls, sys: Sysctls, saved: seq<Saved>, fails: set<nat>)
    requires Undo(sys, saved) == sys0 && Recorded(sys, saved)
    ensures UndoSome(sys, saved, fails) == sys0 <==> forall i :: 0 <= i < |saved| ==> i !in fails
  {
    if forall i :: 0 <= i < |saved| ==> i !in fails {
      UndoAll(sys, saved, fails);
    } else {
      var i :| 0 <= i < |saved| && i in fails;
      UndoSomeAt(sys, saved, fails, saved[i].knob);
      UndoSomeAt(sys, saved, {}, saved[i].knob);
      UndoAll(sys, saved, {});
    }
  }

  /** Every knob recorded so far is at the value wanted for its kind, and was not before. */
  ghost predicate Tracked(c: Conf)
  {
    Recorded(c.sys, c.saved) && forall i :: 0 <= i < |c.saved| ==> c.sys[c.saved[i].knob] == Wanted(c.saved[i].knob)
  }

  function Wanted(k: Knob): string
  {
    if k.1 == "accept_local" then "1" else "0"
  }

  lemma AppliedTracked(c: Conf, knob: Knob, fail: bool)
    requires Tracked(c)
    ensures Tracked(Applied(c, knob, Wanted(knob), fail))
    ensures Undo(Applied(c, knob, Wanted(knob), fail).sys, Applied(c, knob, Wanted(knob), fail).saved) == Undo(c.sys, c.saved)
  {
    if knob in c.sys && c.sys[knob] != Wanted(knob) && !fail {
      RecordedWrite(c.sys, c.saved, knob, Wanted(knob));
    }
  }

  /** Whatever fails in `prepare_softap`, its record undoes it, and names each changed sysctl once. */
  lemma PreparedTracked(dev: string, sys: Sysctls, f: WriteFaults)
    ensures var c := Prepared(dev, sys, f); Tracked(c) && Undo(c.sys, c.saved) == sys
  {
    var c1 := Applied(Conf(sys, []), (dev, "accept_local"), "1", f.devAccept);
    var c2 := Applied(c1, ("all", "accept_local"), "1", f.allAccept);
    var c3 := Applied(c2, (dev, "rp_filter"), "0", f.devFilter);
    AppliedTracked(Conf(sys, []), (dev, "accept_local"), f.devAccept);
    AppliedTracked(c1, ("all", "accept_local"), f.allAccept);
    AppliedTracked(c2, (dev, "rp_filter"), f.devFilter);
    AppliedTracked(c3, ("all", "rp_filter"), f.allFilter);
  }

  /** `prepare_softap` then `restore`: the identity exactly when every recorded value can be written back. */
  lemma PrepareThenRestore(dev: string, sys: Sysctls, f: WriteFaults, fails: set<nat>)
    ensures var c := Prepared(dev, sys, f);
            UndoSome(c.sys, c.saved, fails) == sys <==> forall i :: 0 <= i < |c.saved| ==> i !in fails
  {
    var c := Prepared(dev, sys, f);
    PreparedTracked(dev, sys, f);
    RestoredExactly(sys, c.sys, c.saved, fails);
  }

  // ----- after a failed undo ---------------------------------------------------------

  /**
   A sysctl differs from its first value only if it is one of `touched` and has the value
   a session wants; what is recorded about it is its first value.
   */
  ghost predicate SysctlsKept(first: Sysctls, c: Conf, touched: Knob -> bool)
  {
    && c.sys.Keys == first.Keys
    && (forall k :: k in first ==> c.sys[k] == first[k] || (touched(k) && c.sys[k] == Wanted(k)))
    && forall i :: 0 <= i < |c.saved| ==>
         var s := c.saved[i]; s.knob in first && touched(s.knob) && s.value == first[s.knob]
  }

  lemma AppliedKept(first: Sysctls, c: Conf, touched: Knob -> bool, knob: Knob, fail: bool)
    requires SysctlsKept(first, c, touched) && touched(knob)
    ensures SysctlsKept(first, Applied(c, knob, Wanted(knob), fail), touched)
  {
  }

  lemma PreparedKept(first: Sysctls, dev: string, sys: Sysctls, f: WriteFaults, touched: Knob -> bool)
    requires SysctlsKept(first, Conf(sys, []), touched)
    requires touched((dev, "accept_local")) && touched(("all", "accept_local")) && touched((dev, "rp_filter")) && touched(("all", "rp_filter"))
    ensures SysctlsKept(first, Prepared(dev, sys, f), touched)
  {
    var c1 := Applied(Conf(sys, []), (dev, "accept_local"), "1", f.devAccept);
    var c2 := Applied(c1, ("all", "accept_local"), "1", f.allAccept);
    var c3 := Applied(c2, (dev, "rp_filter"), "0", f.devFilter);
    AppliedKept(first, Conf(sys, []), touched, (dev, "accept_local"), f.devAccept);
    AppliedKept(first, c1, touched, ("all", "accept_local"), f.allAccept);
    AppliedKept(first, c2, touched, (dev, "rp_filter"), f.devFilter);
    AppliedKept(first, c3, touched, ("all", "rp_filter"), f.allFilter);
  }

  lemma {:induction false} UndoneKept(first: Sysctls, sys: Sysctls, saved: seq<Saved>, fails: set<nat>, touched: Knob -> bool)
    requires SysctlsKept(first, Conf(sys, saved), touched)
    ensures SysctlsKept(first, Conf(UndoSome(sys, saved, fails), []), touched)
    decreases |saved|
  {
    if saved != [] {
      var n, last := |saved| - 1, saved[|saved| - 1];
      UndoneKept(first, if n in fails then sys else sys[last.knob := last.value], saved[..n], fails, touched);
    }
  }
}
