/** What holds in every state of every run of the daemon. */
module Runs {
  import opened Prelude
  import opened Jobs
  import opened RegistryInvariants
  import opened Daemon

  lemma NextKeeps(s: System, s': System)
    requires Inv(s) && Next(s, s')
    ensures Inv(s') && Evolves(s.reg, s'.reg)
  {
    if driver, key, payload, now :| SubmitNext(s, driver, key, payload, now, s') {
      SubmitStep(s, driver, key, payload, now, s');
    } else if SendFailedNext(s, s') {
      SendFailedStep(s, s');
    } else if id :| CancelNext(s, id, s') {
      CancelStep(s, id, s');
    } else if WorkNext(s, s') {
      WorkStep(s, s');
    } else {
      SendStep(s, s');
    }
  }

  lemma SendStep(s: System, s': System)
    requires Inv(s) && SendNext(s, s')
    ensures Inv(s') && Evolves(s.reg, s'.reg)
  {
  }

  /** Every reachable state satisfies the invariant. */
  lemma {:induction false} Reachable(ss: seq<System>, i: nat)
    requires Run(ss) && i < |ss|
    ensures Inv(ss[i])
  {
    if i > 0 {
      Reachable(ss, i - 1);
      assert StepAt(ss, i - 1);
      NextKeeps(ss[i - 1], ss[i]);
    }
  }

  lemma StepEvolves(ss: seq<System>, i: nat)
    requires Run(ss) && i + 1 < |ss|
    ensures Evolves(ss[i].reg, ss[i + 1].reg)
  {
    Reachable(ss, i);
    assert StepAt(ss, i);
    NextKeeps(ss[i], ss[i + 1]);
  }

  lemma NamesAt(ss: seq<System>, i: nat)
    requires Run(ss) && i < |ss|
    ensures Names(ss[i].reg)
  {
    Reachable(ss, i);
  }

  lemma EvolvesReflexive(r: Registry)
    ensures Evolves(r, r)
  {
  }

  /** Between any two moments of a run, logs only grow, finished jobs stay as they are and names are never reused. */
  lemma {:induction false} RunEvolves(ss: seq<System>, i: nat, j: nat)
    requires Run(ss) && i <= j < |ss|
    ensures Evolves(ss[i].reg, ss[j].reg)
    decreases j - i
  {
    if i == j {
      EvolvesReflexive(ss[i].reg);
    } else {
      RunEvolves(ss, i, j - 1);
      NamesAt(ss, i);
      NamesAt(ss, j - 1);
      StepEvolves(ss, j - 1);
      EvolvesTransitive(ss[i].reg, ss[j - 1].reg, ss[j].reg);
    }
  }

  /**
   The registry in any reachable state: the slot names the single unfinished
   record, each snapshot repeats its last frame, nothing follows a terminal frame,
   and at most 33 records are kept (32 when idle).
   */
  lemma RegistryAlwaysConsistent(ss: seq<System>, i: nat)
    requires Run(ss) && i < |ss|
    ensures var r := ss[i].reg;
            && (forall id :: id in r.jobs ==> (r.active == Some(id) <==> !Terminal(r.jobs[id])))
            && (r.active.Some? ==> r.active.value in r.jobs)
            && (forall id :: id in r.jobs ==> WellLogged(id, r.jobs[id]))
            && |r.jobs| <= 33 && (r.active.None? ==> |r.jobs| <= 32)
  {
    Reachable(ss, i);
  }

  /** `run_job` never meets a missing payload, and the job runners never meet a vanished job. */
  lemma WorkerNeverLosesJob(ss: seq<System>, i: nat)
    requires Run(ss) && i < |ss|
    ensures var s := ss[i];
            && (s.pc.TakePayload? ==> PayloadOf(s.reg, s.pc.id).Some?)
            && (s.pc.Live().Some? ==> NonTerminal(s.reg, s.pc.id))
  {
    Reachable(ss, i);
  }

  // ----- exactly one terminal transition per job -----------------------------

  lemma {:induction false} FinalsGrow(ss: seq<System>, i: nat, j: nat)
    requires Run(ss) && i <= j < |ss|
    ensures ss[i].finals <= ss[j].finals
    decreases j - i
  {
    if i < j {
      FinalsGrow(ss, i, j - 1);
      assert StepAt(ss, j - 1);
      FinalsStep(ss[j - 1], ss[j]);
    }
  }

  lemma FinalsStep(s: System, s': System)
    requires Next(s, s')
    ensures s.finals <= s'.finals
  {
    if WorkNext(s, s') {
      FinalsWork(s, s');
    }
  }

  lemma FinalsWork(s: System, s': System)
    requires WorkNext(s, s')
    ensures s.finals <= s'.finals
  {
    WorkTouches(s, s');
    if Reports(s, s') {
      var state :| TransitsTo(s, s.pc.id, state, s');
    }
  }

  /**
   Every job that has left the submitter, the channel and the worker has exactly
   one terminal transition, jobs finish in the order they were submitted, and a
   program job ends Cancelled only if cancellation was requested.
   */
  lemma FinishedExactlyOnce(ss: seq<System>, i: nat, id: JobId)
    requires Run(ss) && i < |ss| && 1 <= id <= ss[i].reg.issued
    requires ss[i].pending != Some(id) && id !in ss[i].queue && ss[i].pc.Live() != Some(id)
    ensures id <= |ss[i].finals| && ss[i].finals[id - 1].id == id && ss[i].finals[id - 1].state.IsTerminal()
    ensures forall k :: 0 <= k < |ss[i].finals| && ss[i].finals[k].id == id ==> k == id - 1
    ensures ss[i].finals[id - 1].state.Cancelled? && KindAt(ss[i], id, ProgramJob) ==> ss[i].finals[id - 1].requested
  {
    Reachable(ss, i);
  }

  // ----- cancellation --------------------------------------------------------

  /** Until the worker ends the job, a requested cancel stays requested and the slot stays taken. */
  lemma CancelHoldsSlot(ss: seq<System>, i: nat, j: nat, id: JobId,
                        driver: string, key: string, payload: Option<JobPayload>, now: nat)
    requires Run(ss) && i <= j < |ss| && IsCancelled(ss[i].reg, id) && NonTerminal(ss[j].reg, id)
    ensures IsCancelled(ss[j].reg, id)
    ensures Submitted(ss[j].reg, driver, key, payload, now) == (ss[j].reg, Err(Busy(id)))
  {
    Reachable(ss, j);
    RunEvolves(ss, i, j);
    assert Grows(ss[i].reg.jobs[id], ss[j].reg.jobs[id]);
  }

  /** Cancellation was requested and the worker has not passed its last check. */
  ghost predicate Doomed(s: System, id: JobId)
  {
    && 1 <= id <= s.reg.issued
    && (id in s.reg.jobs ==> s.reg.jobs[id].cancel)
    && !(s.pc.Finish? && s.pc.id == id)
    && (forall k :: 0 <= k < |s.finals| && s.finals[k].id == id ==> !s.finals[k].state.Done?)
  }

  /** Without the worker's `Finish` coming up, and without a Done announced, the job stays doomed. */
  lemma DoomedKept(s: System, s': System, id: JobId)
    requires Doomed(s, id) && s'.reg.issued == s.reg.issued
    requires forall x :: x in s'.reg.jobs ==> x in s.reg.jobs && (s.reg.jobs[x].cancel ==> s'.reg.jobs[x].cancel)
    requires !(s'.pc.Finish? && s'.pc.id == id)
    requires s'.finals == s.finals || exists f :: s'.finals == s.finals + [f] && !(f.id == id && f.state.Done?)
    ensures Doomed(s', id)
  {
  }

  lemma DoomedWork(s: System, s': System, id: JobId)
    requires Owned(s) && Remembers(s) && HolderLive(s.reg) && Doomed(s, id) && WorkNext(s, s')
    requires s'.reg.issued == s.reg.issued
    requires forall x :: x in s'.reg.jobs ==> x in s.reg.jobs && (s.reg.jobs[x].cancel ==> s'.reg.jobs[x].cancel)
    ensures Doomed(s', id)
  {
    if Announces(s.pc).Some? {
      AnnouncementShape(s);
      HolderNotDone(s);
      DoomedAnnounce(s, s', id);
    } else if s.pc.Driving? {
      DoomedDriving(s, s', id);
    } else if OnRadio(s.pc) {
      RadioTouches(s, s');
      DoomedRadio(s, s', id);
    } else {
      QuietTouches(s, s');
      DoomedQuiet(s, s', id);
    }
  }

  lemma HolderNotDone(s: System)
    requires Owned(s) && HolderLive(s.reg) && s.pc.Live().Some?
    ensures !StateOr(s.reg, s.pc.id, Writing).Done?
  {
  }

  /** Nothing is announced on the way into `Finish`, and Done only by it. */
  lemma AnnouncesDone(pc: Pc)
    requires Announces(pc).Some?
    ensures var (state, next) := Announces(pc).value;
            !next.Finish? && (state.Done? ==> pc.Finish? || pc.Dialing? || pc.Driving?)
  {
  }

  lemma DoomedAnnounce(s: System, s': System, id: JobId)
    requires Doomed(s, id) && Announces(s.pc).Some? && AnnounceNext(s, s')
    requires s.pc.Dialing? || s.pc.Driving? ==> !Announces(s.pc).value.0.Done?
    requires s'.reg.issued == s.reg.issued
    requires forall x :: x in s'.reg.jobs ==> x in s.reg.jobs && (s.reg.jobs[x].cancel ==> s'.reg.jobs[x].cancel)
    ensures Doomed(s', id)
  {
    AnnouncesDone(s.pc);
    DoomedKept(s, s', id);
  }

  lemma DoomedDriving(s: System, s': System, id: JobId)
    requires Doomed(s, id) && s.pc.Driving? && s.pc.sink.None? && DrivingNext(s, s')
    requires s'.reg.issued == s.reg.issued
    requires forall x :: x in s'.reg.jobs ==> x in s.reg.jobs && (s.reg.jobs[x].cancel ==> s'.reg.jobs[x].cancel)
    ensures Doomed(s', id)
  {
    DoomedKept(s, s', id);
  }

  lemma DoomedRadio(s: System, s': System, id: JobId)
    requires Doomed(s, id) && Still(s.pc) && OnRadio(s.pc) && RadioNext(s, s') && Quietly(s, s')
    ensures Doomed(s', id)
  {
    DoomedKept(s, s', id);
  }

  lemma DoomedQuiet(s: System, s': System, id: JobId)
    requires Doomed(s, id) && !OnRadio(s.pc) && QuietNext(s, s') && (Quietly(s, s') || TakesPayload(s, s'))
    requires Owned(s) && HolderLive(s.reg)
    ensures Doomed(s', id)
  {
    DoomedKept(s, s', id);
  }

  /** A report of the slot's holder issues nothing, and frees the slot or keeps it. */
  lemma ReportTouches(s: System, s': System)
    requires Inv(s) && Reports(s, s')
    ensures s'.reg.issued == s.reg.issued && (forall x :: x in s'.reg.jobs ==> x in s.reg.jobs)
    ensures s'.reg.active == s.reg.active || s'.reg.active.None?
  {
    var state :| TransitsTo(s, s.pc.id, state, s');
    var pc :| Transits(s, s.pc.id, state, pc, s');
    TransitRegistry(s, s.pc.id, state, pc, s');
  }

  lemma WorkIssuesNothing(s: System, s': System)
    requires Inv(s) && WorkNext(s, s')
    ensures s'.reg.issued == s.reg.issued && (forall x :: x in s'.reg.jobs ==> x in s.reg.jobs)
    ensures s'.reg.active == s.reg.active || s'.reg.active.None?
  {
    WorkTouches(s, s');
    if Reports(s, s') {
      ReportTouches(s, s');
    }
  }

  lemma DoomedNext(s: System, s': System, id: JobId)
    requires Inv(s) && Next(s, s') && Doomed(s, id)
    ensures Doomed(s', id)
  {
    NextKeeps(s, s');
    assert forall x :: x in s'.reg.jobs && x in s.reg.jobs ==> Grows(s.reg.jobs[x], s'.reg.jobs[x]);
    if WorkNext(s, s') {
      WorkIssuesNothing(s, s');
      DoomedWork(s, s', id);
    } else {
      ClientKeepsWorker(s, s');
    }
  }

  /** Clients never move the worker, and end no job except as Failed. */
  lemma ClientKeepsWorker(s: System, s': System)
    requires Next(s, s') && !WorkNext(s, s')
    ensures s'.pc == s.pc && s'.radio == s.radio && s.finals <= s'.finals
    ensures forall k :: |s.finals| <= k < |s'.finals| ==> s'.finals[k].state.Failed?
  {
  }

  /** No job ends Done if cancellation was requested before the worker's last check. */
  lemma {:induction false} NeverDoneAfterCancel(ss: seq<System>, i: nat, j: nat, id: JobId)
    requires Run(ss) && i <= j < |ss| && IsCancelled(ss[i].reg, id) && NonTerminal(ss[i].reg, id)
    requires !(ss[i].pc.Finish? && ss[i].pc.id == id)
    ensures forall k :: 0 <= k < |ss[j].finals| && ss[j].finals[k].id == id ==> !ss[j].finals[k].state.Done?
    ensures id in ss[j].reg.jobs ==> !ss[j].reg.jobs[id].snapshot.state.Done?
  {
    StaysDoomed(ss, i, j, id);
    if id in ss[j].reg.jobs && Terminal(ss[j].reg.jobs[id]) { RecordedFinal(ss, j, id); }
  }

  lemma RecordedFinal(ss: seq<System>, j: nat, id: JobId)
    requires Run(ss) && j < |ss| && id in ss[j].reg.jobs && Terminal(ss[j].reg.jobs[id])
    ensures 1 <= id <= |ss[j].finals| && ss[j].finals[id - 1].id == id
    ensures ss[j].finals[id - 1].state == ss[j].reg.jobs[id].snapshot.state
  {
    Reachable(ss, j);
  }

  lemma {:induction false} StaysDoomed(ss: seq<System>, i: nat, j: nat, id: JobId)
    requires Run(ss) && i <= j < |ss| && IsCancelled(ss[i].reg, id) && NonTerminal(ss[i].reg, id)
    requires !(ss[i].pc.Finish? && ss[i].pc.id == id)
    ensures Doomed(ss[j], id)
    decreases j - i
  {
    if i == j {
      DoomedStart(ss, i, id);
    } else {
      StaysDoomed(ss, i, j - 1, id);
      DoomedStep(ss, j - 1, id);
    }
  }

  lemma DoomedStart(ss: seq<System>, i: nat, id: JobId)
    requires Run(ss) && i < |ss| && IsCancelled(ss[i].reg, id) && NonTerminal(ss[i].reg, id)
    requires !(ss[i].pc.Finish? && ss[i].pc.id == id)
    ensures Doomed(ss[i], id)
  {
    Reachable(ss, i);
  }

  lemma DoomedStep(ss: seq<System>, i: nat, id: JobId)
    requires Run(ss) && i + 1 < |ss| && Doomed(ss[i], id)
    ensures Doomed(ss[i + 1], id)
  {
    Reachable(ss, i);
    assert StepAt(ss, i);
    DoomedNext(ss[i], ss[i + 1], id);
  }

  // ----- what stays readable -------------------------------------------------

  /** Creation times strictly increase from one submitted job to the next. */
  ghost predicate StrictRun(ss: seq<System>)
  {
    && Run(ss)
    && forall i :: 0 <= i < |ss| - 1 && ss[i + 1].reg.issued > ss[i].reg.issued ==> ss[i].clock < ss[i + 1].clock
  }

  ghost predicate Dated(s: System)
  {
    forall id :: id in s.reg.jobs ==> s.reg.jobs[id].snapshot.createdAt <= s.clock
  }

  ghost predicate Exact(s: System)
  {
    KeepsLatest(s.reg) && Aged(s.reg) && Dated(s)
  }

  lemma ExactFinish(s: System, f: JobFrame, s': System)
    requires RegInv(s.reg) && Exact(s) && s.reg.active == Some(f.id) && f.state.IsTerminal()
    requires EvictedTo(Finished(s.reg, f), s'.reg) && s'.clock == s.clock
    ensures Exact(s')
  {
    FinishedFacts(s.reg, f);
    FinishedAged(s.reg, f, s'.reg);
    FinishKeepsLatest(s.reg, f, s'.reg);
  }

  lemma ExactTransit(s: System, id: JobId, state: JobState, pc: Pc, s': System)
    requires RegInv(s.reg) && Exact(s) && s.reg.active == Some(id) && Transits(s, id, state, pc, s')
    ensures Exact(s')
  {
    var f: JobFrame :| f.id == id && f.state == state && TransitionTo(s.reg, f, s'.reg);
    if state.IsTerminal() {
      ExactFinish(s, f, s');
    } else {
      SameDates(s, s');
    }
  }

  lemma ExactWork(s: System, s': System)
    requires Inv(s) && Exact(s) && WorkNext(s, s')
    ensures Exact(s')
  {
    WorkTouches(s, s');
    if Reports(s, s') {
      ExactReport(s, s');
    } else {
      ExactOtherwise(s, s');
    }
  }

  lemma ExactReport(s: System, s': System)
    requires Inv(s) && Exact(s) && Reports(s, s')
    ensures Exact(s')
  {
    var state :| TransitsTo(s, s.pc.id, state, s');
    var pc :| Transits(s, s.pc.id, state, pc, s');
    ExactTransit(s, s.pc.id, state, pc, s');
  }

  lemma ExactOtherwise(s: System, s': System)
    requires Exact(s) && (Quietly(s, s') || TakesPayload(s, s'))
    ensures Exact(s')
  {
    SameDates(s, s');
  }

  lemma SameDates(s: System, s': System)
    requires Exact(s) && s'.clock == s.clock && s'.reg.active == s.reg.active && s'.reg.issued == s.reg.issued
    requires forall x :: x in s'.reg.jobs <==> x in s.reg.jobs
    requires forall x :: x in s.reg.jobs ==> s'.reg.jobs[x].snapshot.createdAt == s.reg.jobs[x].snapshot.createdAt
    ensures Exact(s')
  {
    StillAged(s.reg, s'.reg);
  }

  lemma ExactNext(s: System, s': System)
    requires Inv(s) && Exact(s) && Next(s, s')
    requires s'.reg.issued > s.reg.issued ==> s.clock < s'.clock
    ensures Exact(s')
  {
    if driver, key, payload, now :| SubmitNext(s, driver, key, payload, now, s') {
      ExactSubmit(s, driver, key, payload, now, s');
    } else if SendFailedNext(s, s') {
      ExactSendFailed(s, s');
    } else if id :| CancelNext(s, id, s') {
      ExactCancel(s, id, s');
    } else if WorkNext(s, s') {
      ExactWork(s, s');
    }
  }

  lemma ExactSendFailed(s: System, s': System)
    requires Inv(s) && Exact(s) && SendFailedNext(s, s')
    ensures Exact(s')
  {
    ExactTransit(s.(pending := None), s.pending.value, Failed, s.pc, s');
  }

  lemma ExactCancel(s: System, id: JobId, s': System)
    requires Exact(s) && CancelNext(s, id, s')
    ensures Exact(s')
  {
    SameDates(s, s');
  }

  lemma ExactSubmit(s: System, driver: string, key: string, payload: JobPayload, now: nat, s': System)
    requires RegInv(s.reg) && Exact(s) && SubmitNext(s, driver, key, payload, now, s')
    requires s'.reg.issued > s.reg.issued ==> s.clock < s'.clock
    ensures Exact(s')
  {
    if s.reg.active.None? {
      SubmitKeepsLatest(s.reg, driver, key, Some(payload), now);
    }
  }

  /**
   With strictly increasing creation times the registry holds exactly the running
   job and the 32 latest finished ones: a finished job stays readable until the
   32nd later job finishes.
   */
  lemma {:induction false} ReadableUntil32Later(ss: seq<System>, i: nat, id: JobId)
    requires StrictRun(ss) && i < |ss|
    ensures id in ss[i].reg.jobs <==> 1 <= id <= ss[i].reg.issued && |ss[i].finals| < id + 32
  {
    StaysExact(ss, i);
    Reachable(ss, i);
  }

  lemma {:induction false} StaysExact(ss: seq<System>, i: nat)
    requires StrictRun(ss) && i < |ss|
    ensures Exact(ss[i])
  {
    if i > 0 {
      StaysExact(ss, i - 1);
      Reachable(ss, i - 1);
      assert StepAt(ss, i - 1);
      ExactNext(ss[i - 1], ss[i]);
    }
  }
}
