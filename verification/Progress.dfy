/** The worker never gets stuck, and a job needs a bounded number of its steps beside progress reports. */
module Progress {
  import opened Prelude
  import opened Jobs
  import opened RegistryInvariants
  import opened Daemon
  import opened Runs

  // ----- eviction always has a choice ------------------------------------------------

  lemma {:induction false} EarliestOf(r: Registry, ids: set<JobId>) returns (m: JobId)
    requires ids != {} && ids <= r.jobs.Keys
    ensures m in ids && forall x :: x in ids ==> r.jobs[m].snapshot.createdAt <= r.jobs[x].snapshot.createdAt
    decreases |ids|
  {
    var a :| a in ids;
    if ids == {a} {
      m := a;
    } else {
      var rest := ids - {a};
      assert ids == rest + {a};
      var b := EarliestOf(r, rest);
      m := if r.jobs[a].snapshot.createdAt <= r.jobs[b].snapshot.createdAt then a else b;
    }
  }

  /** The `n` oldest of a set of jobs. */
  ghost predicate OldestOf(r: Registry, all: set<JobId>, victims: set<JobId>, n: nat)
    requires all <= r.jobs.Keys
  {
    && victims <= all && |victims| == n
    && forall a, b :: a in victims && b in all - victims ==> r.jobs[a].snapshot.createdAt <= r.jobs[b].snapshot.createdAt
  }

  lemma {:induction false} OldestExist(r: Registry, all: set<JobId>, n: nat) returns (victims: set<JobId>)
    requires all <= r.jobs.Keys && n <= |all|
    ensures OldestOf(r, all, victims, n)
    decreases n
  {
    if n == 0 {
      victims := {};
    } else {
      var fewer := OldestExist(r, all, n - 1);
      var rest := all - fewer;
      assert |rest| == |all| - |fewer|;
      var m := EarliestOf(r, rest);
      victims := fewer + {m};
    }
  }

  lemma EvictionExists(r: Registry)
    ensures exists r' :: EvictedTo(r, r')
  {
    var all := TerminalIds(r);
    var n := Min(Overflow(r), |all|);
    var victims := OldestExist(r, all, n);
    var r' := r.(jobs := r.jobs - victims);
    assert r.jobs.Keys - r'.jobs.Keys == victims;
    assert EvictedTo(r, r');
  }

  lemma TransitionExists(r: Registry, f: JobFrame)
    ensures exists r' :: TransitionTo(r, f, r')
  {
    if f.id in r.jobs && f.state.IsTerminal() {
      var r1 := Finished(r, f);
      EvictionExists(r1);
      var r' :| EvictedTo(r1, r');
      assert TransitionTo(r, f, r');
    } else if f.id in r.jobs {
      assert TransitionTo(r, f, r.(jobs := r.jobs[f.id := Logged(r.jobs[f.id], f)]));
    } else {
      assert TransitionTo(r, f, r);
    }
  }

  lemma TransitExists(s: System, id: JobId, state: JobState, pc: Pc)
    ensures exists s' :: Transits(s, id, state, pc, s')
  {
    var f := JobFrame(id, state, None, None, None);
    TransitionExists(s.reg, f);
    var reg :| TransitionTo(s.reg, f, reg);
    var s' := s.(reg := reg, pc := pc,
                 finals := if state.IsTerminal() && id in s.reg.jobs
                           then s.finals + [Final(id, state, IsCancelled(s.reg, id))] else s.finals);
    assert Transits(s, id, state, pc, s');
  }

  // ----- never stuck --------------------------------------------------------------------

  lemma AnnouncesOn(s: System)
    requires Announces(s.pc).Some?
    ensures exists s' :: WorkNext(s, s')
  {
    var (state, pc) := Announces(s.pc).value;
    TransitExists(s, s.pc.id, state, pc);
    var s' :| Transits(s, s.pc.id, state, pc, s');
    assert WorkNext(s, s');
  }

  lemma DrivesOn(s: System)
    requires s.pc.Driving? && s.pc.sink.None?
    ensures exists s' :: WorkNext(s, s')
  {
    var Driving(id, k, held, _) := s.pc;
    var s' := s.(pc := if held then ReleaseDriven(id, k, Erred) else FirmwareLive(id, Erred));
    assert DrivingNext(s, s');
    assert WorkNext(s, s');
  }

  lemma RadioOn(s: System)
    requires OnRadio(s.pc) && Still(s.pc)
    ensures exists s' :: WorkNext(s, s')
  {
    var s' :=
      match s.pc
      case Dial(id, k) => s.(radio := s.radio + [RadioCall(id, Connect)], pc := Dialing(id, k, None))
      case Dialing(id, k, _) => s.(pc := FailHeld(id, 1))
      case Addressing(id, k) => s.(radio := s.radio + [RadioCall(id, SetAddress)], pc := FailHeld(id, 2))
      case Linking(id, k) => s.(radio := s.radio + [RadioCall(id, LinkUp)], pc := FailHeld(id, 3))
      case Preparing(id, k) => s.(radio := s.radio + [RadioCall(id, PrepareSoftap)], pc := FailHeld(id, 4))
      case ReleaseFailed(id, _) => s.(radio := s.radio + [RadioCall(id, Release)], pc := Idle)
      case Ready(id) => s.(pc := if IsCancelled(s.reg, id) then ReleaseCancelled(id) else Driving(id, ProgramJob, true, None))
      case ReleaseCancelled(id) => s.(radio := s.radio + [RadioCall(id, Release)], pc := MarkCancelled(id))
      case ReleaseDriven(id, k, o) =>
        s.(radio := s.radio + [RadioCall(id, Release)], pc := if k.ProgramJob? then FinalCheck(id, o) else FirmwareLive(id, o))
      case _ => s;
    assert RadioNext(s, s');
    assert WorkNext(s, s');
  }

  lemma QuietOn(s: System)
    requires Announces(s.pc).None? && !s.pc.Driving? && !OnRadio(s.pc) && !s.pc.Idle?
    ensures exists s' :: WorkNext(s, s')
  {
    var s' :=
      match s.pc
      case Entry(id) => s.(pc := if IsCancelled(s.reg, id) then StillLive(id) else TakePayload(id))
      case StillLive(id) => s.(pc := if NonTerminal(s.reg, id) then MarkCancelled(id) else Idle)
      case TakePayload(id) =>
        s.(reg := PayloadTaken(s.reg, id),
           pc := match PayloadOf(s.reg, id)
                 case None => Fail(id)
                 case Some(Program(_)) => ProgramEntry(id)
                 case Some(Firmware(_)) => FirmwareEntry(id))
      case ProgramEntry(id) => s.(pc := if id in s.reg.jobs then Fail(id) else Idle)
      case FredResolve(id) => s.(pc := Fail(id))
      case FredCheck(id) => s.(pc := if IsCancelled(s.reg, id) then MarkCancelled(id) else FredWrite(id))
      case FredDispatch(id) => s.(pc := Fail(id))
      case FredFinal(id, o) => s.(pc := if IsCancelled(s.reg, id) then MarkCancelled(id) else Finish(id, o))
      case JoinCheck(id) => s.(pc := if IsCancelled(s.reg, id) then MarkCancelled(id) else Dial(id, ProgramJob))
      case FinalCheck(id, o) => s.(pc := if IsCancelled(s.reg, id) then StillLive(id) else Finish(id, o))
      case FirmwareEntry(id) => s.(pc := if id in s.reg.jobs then Fail(id) else Idle)
      case FirmwareMode(id) => s.(pc := Fail(id))
      case FirmwareLive(id, o) =>
        s.(pc := if id in s.reg.jobs && s.reg.jobs[id].snapshot.state.IsTerminal() then Idle else FirmwareCheck(id, o))
      case FirmwareCheck(id, o) => s.(pc := if IsCancelled(s.reg, id) || o.Aborted? then MarkCancelled(id) else Finish(id, o))
      case _ => s;
    assert QuietNext(s, s');
    assert WorkNext(s, s');
  }

  /** Whenever the worker is busy, or a job is queued, it can take a step. */
  lemma NeverStuck(s: System)
    requires !s.pc.Idle? || s.queue != []
    ensures exists s' :: WorkNext(s, s')
  {
    if s.pc.Idle? {
      assert WorkNext(s, s.(queue := s.queue[1..], pc := Entry(s.queue[0])));
    } else if Announces(s.pc).Some? {
      AnnouncesOn(s);
    } else if s.pc.Driving? {
      DrivesOn(s);
    } else if OnRadio(s.pc) {
      RadioOn(s);
    } else {
      QuietOn(s);
    }
  }

  // ----- a bound on the steps of a job ------------------------------------------------------

  /** Steps the job can still need, not counting progress reports. */
  function Rank(pc: Pc): (n: nat)
    ensures n <= 18
  {
    match pc
    case Idle => 0
    case MarkCancelled(_) => 1
    case Fail(_) => 1
    case Finish(_, _) => 1
    case ReleaseFailed(_, _) => 1
    case StillLive(_) => 2
    case FailHeld(_, _) => 2
    case ReleaseCancelled(_) => 2
    case FredFinal(_, _) => 2
    case FredDispatch(_) => 3
    case FinalCheck(_, _) => 3
    case FirmwareCheck(_, _) => 3
    case FredWrite(_) => 4
    case FirmwareLive(_, _) => 4
    case FredCheck(_) => 5
    case ReleaseDriven(_, _, _) => 5
    case FredResolve(_) => 6
    case Driving(_, _, _, _) => 6
    case Ready(_) => 7
    case FirmwareReady(_) => 7
    case Preparing(_, _) => 8
    case Linking(_, _) => 9
    case Addressing(_, _) => 10
    case Dialing(_, _, _) => 11
    case Dial(_, _) => 12
    case JoinCheck(_) => 13
    case FirmwareJoin(_) => 13
    case Join(_) => 14
    case FirmwareMode(_) => 14
    case ProgramEntry(_) => 15
    case FirmwareWrite(_) => 15
    case FirmwareEntry(_) => 16
    case TakePayload(_) => 17
    case Entry(_) => 18
  }

  /** A progress report, or the heartbeat in front of one: the worker stays where it is. */
  predicate Reporting(a: Pc, b: Pc)
  {
    || (a.Driving? && b.Driving? && a.id == b.id && a.kind == b.kind && a.held == b.held)
    || (a.Dialing? && b.Dialing? && a.id == b.id && a.kind == b.kind)
  }

  predicate Advances(a: Pc, b: Pc)
  {
    Rank(b) < Rank(a) && (b.Idle? || b.id == a.id)
  }

  lemma AnnounceAdvances(s: System, s': System)
    requires Announces(s.pc).Some? && AnnounceNext(s, s')
    ensures Reporting(s.pc, s'.pc) || Advances(s.pc, s'.pc)
  {
  }

  lemma DrivingAdvances(s: System, s': System)
    requires s.pc.Driving? && s.pc.sink.None? && DrivingNext(s, s')
    ensures Reporting(s.pc, s'.pc) || Advances(s.pc, s'.pc)
  {
  }

  lemma RadioAdvances(s: System, s': System)
    requires OnRadio(s.pc) && Still(s.pc) && RadioNext(s, s')
    ensures Reporting(s.pc, s'.pc) || Advances(s.pc, s'.pc)
  {
  }

  lemma QuietAdvances(s: System, s': System)
    requires Announces(s.pc).None? && !s.pc.Driving? && !OnRadio(s.pc) && !s.pc.Idle? && QuietNext(s, s')
    ensures Advances(s.pc, s'.pc)
  {
  }

  /** Every step of a busy worker reports progress or comes closer to the end, for the same job. */
  lemma WorkAdvances(s: System, s': System)
    requires WorkNext(s, s') && !s.pc.Idle?
    ensures Reporting(s.pc, s'.pc) || Advances(s.pc, s'.pc)
  {
    WorkCases(s, s');
    if Announces(s.pc).Some? {
      AnnounceAdvances(s, s');
    } else if s.pc.Driving? {
      DrivingAdvances(s, s');
    } else if OnRadio(s.pc) {
      RadioAdvances(s, s');
    } else {
      QuietAdvances(s, s');
    }
  }

  /** The worker's moves from state `i` to state `j`, progress reports left out. */
  ghost function Moves(ss: seq<System>, i: nat, j: nat): (n: nat)
    requires i <= j < |ss|
    decreases j
  {
    if i == j then 0
    else Moves(ss, i, j - 1) +
         if ss[j].pc == ss[j - 1].pc || Reporting(ss[j - 1].pc, ss[j].pc) then 0 else 1
  }

  lemma StepRank(s: System, s': System)
    requires Next(s, s') && !s.pc.Idle?
    ensures s'.pc == s.pc || Reporting(s.pc, s'.pc) || Advances(s.pc, s'.pc)
  {
    if WorkNext(s, s') {
      WorkAdvances(s, s');
    } else {
      ClientKeepsWorker(s, s');
    }
  }

  lemma ReportKeepsRank(a: Pc, b: Pc)
    requires Reporting(a, b)
    ensures Rank(a) == Rank(b)
  {
  }

  /**
   While the worker stays busy its moves are bounded: at most 18 from the moment it takes
   a job, however cancels, submissions and reports interleave.
   */
  lemma {:induction false} BoundedMoves(ss: seq<System>, i: nat, j: nat)
    requires Run(ss) && i <= j < |ss| && forall k :: i <= k < j ==> !ss[k].pc.Idle?
    ensures Moves(ss, i, j) + Rank(ss[j].pc) <= Rank(ss[i].pc) <= 18
    decreases j
  {
    if i < j {
      BoundedMoves(ss, i, j - 1);
      assert StepAt(ss, j - 1);
      StepRank(ss[j - 1], ss[j]);
      if Reporting(ss[j - 1].pc, ss[j].pc) {
        ReportKeepsRank(ss[j - 1].pc, ss[j].pc);
      }
    }
  }
}
