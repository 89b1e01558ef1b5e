/**
 The daemon as a step relation: clients submit and cancel, the sequential worker
 runs one job at a time, and every locked registry call, radio call and channel
 operation is one atomic step. Every foreign outcome (radio, driver, DNS, files,
 deadlines) is a free choice of the step.
 */
module Daemon {
  import opened Prelude
  import opened Jobs
  import opened RegistryInvariants

  datatype RadioOp = Connect | SetAddress | LinkUp | PrepareSoftap | Release

  /** A radio call made on behalf of a worker job. */
  datatype RadioCall = RadioCall(id: JobId, op: RadioOp)

  datatype Kind = ProgramJob | FirmwareJob

  /** Result of the device conversation. */
  datatype Outcome = Succeeded | Erred | Aborted

  /** An effective terminal transition, and whether cancellation had been requested by then. */
  datatype Final = Final(id: JobId, state: JobState, requested: bool)

  /** Where the worker is in `worker_loop`, `run_job` and the job runners. */
  datatype Pc =
    | Idle
    | Entry(id: JobId)                        // run_job: cancelled before start?
    | StillLive(id: JobId)                    // cancelled: is the job still non-terminal?
    | MarkCancelled(id: JobId)
    | TakePayload(id: JobId)
    | Fail(id: JobId)
    | ProgramEntry(id: JobId)
    | FredResolve(id: JobId)
    | FredCheck(id: JobId)
    | FredWrite(id: JobId)
    | FredDispatch(id: JobId)
    | FredFinal(id: JobId, outcome: Outcome)
    | Join(id: JobId)
    | JoinCheck(id: JobId)
    | Dial(id: JobId, kind: Kind)             // about to associate
    | Dialing(id: JobId, kind: Kind, sink: Option<JobState>)
    | Addressing(id: JobId, kind: Kind)
    | Linking(id: JobId, kind: Kind)
    | Preparing(id: JobId, kind: Kind)
    | FailHeld(id: JobId, done: nat)          // a radio call failed after `done` calls
    | ReleaseFailed(id: JobId, done: nat)     // the job is already Failed
    | Ready(id: JobId)
    | ReleaseCancelled(id: JobId)
    | Driving(id: JobId, kind: Kind, held: bool, sink: Option<JobState>)
    | ReleaseDriven(id: JobId, kind: Kind, outcome: Outcome)
    | FinalCheck(id: JobId, outcome: Outcome)
    | Finish(id: JobId, outcome: Outcome)
    | FirmwareEntry(id: JobId)
    | FirmwareWrite(id: JobId)
    | FirmwareMode(id: JobId)
    | FirmwareJoin(id: JobId)
    | FirmwareReady(id: JobId)
    | FirmwareLive(id: JobId, outcome: Outcome)
    | FirmwareCheck(id: JobId, outcome: Outcome)
  {
    /** The unfinished job in the worker's hands. */
    function Live(): (id: Option<JobId>)
    {
      if Idle? || ReleaseFailed? then None else Some(this.id)
    }
  }

  datatype System = System(
    reg: Registry,
    pending: Option<JobId>,     // submitted, not yet sent to the worker
    queue: seq<JobId>,          // the worker channel
    pc: Pc,
    radio: seq<RadioCall>,      // every radio call the worker made
    finals: seq<Final>,         // every effective terminal transition
    kinds: seq<Kind>,           // payload kind of job n at index n - 1
    clock: nat)                 // last creation time handed out

  const INITIAL := System(EMPTY, None, [], Idle, [], [], [], 0)

  // ----- steps ---------------------------------------------------------------

  function KindOf(p: JobPayload): (k: Kind)
  {
    if p.Program? then ProgramJob else FirmwareJob
  }

  /** `submit_program` / `submit_firmware` take the slot, or are told who holds it. */
  ghost predicate SubmitNext(s: System, driver: string, key: string, payload: JobPayload, now: nat, s': System)
  {
    var (reg, res) := Submitted(s.reg, driver, key, Some(payload), now);
    now >= s.clock &&
    if res.Ok?
    then s' == s.(reg := reg, pending := Some(res.value), kinds := s.kinds + [KindOf(payload)], clock := now)
    else s' == s
  }

  ghost predicate SendNext(s: System, s': System)
  {
    s.pending.Some? && s' == s.(pending := None, queue := s.queue + [s.pending.value])
  }

  /** The worker channel is closed: the submitter marks its own job failed. */
  ghost predicate SendFailedNext(s: System, s': System)
  {
    s.pending.Some? && Transits(s.(pending := None), s.pending.value, Failed, s.pc, s')
  }

  ghost predicate CancelNext(s: System, id: JobId, s': System)
  {
    s' == s.(reg := CancelRequested(s.reg, id))
  }

  /** One `transition` of job `id` to `state`, with any step label, progress and detail. */
  ghost predicate Transits(s: System, id: JobId, state: JobState, pc: Pc, s': System)
  {
    && s' == s.(reg := s'.reg, pc := pc,
                finals := if state.IsTerminal() && id in s.reg.jobs
                          then s.finals + [Final(id, state, IsCancelled(s.reg, id))] else s.finals)
    && exists f: JobFrame :: f.id == id && f.state == state && TransitionTo(s.reg, f, s'.reg)
  }

  ghost predicate Goes(s: System, pc: Pc, s': System)
  {
    s' == s.(pc := pc)
  }

  ghost predicate Calls(s: System, id: JobId, op: RadioOp, pc: Pc, s': System)
  {
    s' == s.(radio := s.radio + [RadioCall(id, op)], pc := pc)
  }

  predicate NonTerminal(r: Registry, id: JobId)
  {
    id in r.jobs && !r.jobs[id].snapshot.state.IsTerminal()
  }

  function StateOr(r: Registry, id: JobId, otherwise: JobState): (st: JobState)
  {
    if id in r.jobs then r.jobs[id].snapshot.state else otherwise
  }

  /** States that a driver step label stands for. */
  predicate StepState(st: JobState)
  {
    st.Probing? || st.Writing? || st.Verifying? || st.Restarting?
  }

  /** A radio call that may fail. */
  ghost predicate CallsOrFails(s: System, id: JobId, op: RadioOp, done: nat, pc: Pc, s': System)
  {
    Calls(s, id, op, pc, s') || Calls(s, id, op, FailHeld(id, done), s')
  }

  /** The one transition that follows from `pc`, and where the worker goes next. */
  function Announces(pc: Pc): (t: Option<(JobState, Pc)>)
    ensures t.Some? ==> pc.Live().Some?
  {
    match pc
    case MarkCancelled(_) => Some((Cancelled, Idle))
    case Fail(_) => Some((Failed, Idle))
    case FailHeld(id, n) => Some((Failed, ReleaseFailed(id, n)))
    case Finish(_, o) => Some((if o.Succeeded? then Done else Failed, Idle))
    case FredWrite(id) => Some((Writing, FredDispatch(id)))
    case Join(id) => Some((Joining, JoinCheck(id)))
    case FirmwareWrite(id) => Some((Writing, FirmwareMode(id)))
    case FirmwareJoin(id) => Some((Joining, Dial(id, FirmwareJob)))
    case FirmwareReady(id) => Some((Writing, Driving(id, FirmwareJob, true, None)))
    case Dialing(id, k, Some(st)) => Some((st, Dialing(id, k, None)))
    case Driving(id, k, held, Some(st)) => Some((st, Driving(id, k, held, None)))
    case _ => None
  }

  /** Worker positions whose step leaves the registry alone. */
  predicate Still(pc: Pc)
  {
    Announces(pc).None? && !pc.TakePayload? && !pc.Driving?
  }

  predicate OnRadio(pc: Pc)
  {
    || pc.Dial? || pc.Dialing? || pc.Addressing? || pc.Linking? || pc.Preparing? || pc.Ready?
    || pc.ReleaseFailed? || pc.ReleaseCancelled? || pc.ReleaseDriven?
  }

  /** Positions on the way to, in and out of a Soft-AP session. */
  ghost predicate RadioNext(s: System, s': System)
    requires OnRadio(s.pc)
  {
    match s.pc
    case Dial(id, k) => Calls(s, id, Connect, Dialing(id, k, None), s')
    case Dialing(id, k, _) =>
      || Goes(s, FailHeld(id, 1), s')
      || Goes(s, Addressing(id, k), s')
      || (k.FirmwareJob? && Goes(s, Dialing(id, k, Some(StateOr(s.reg, id, Writing))), s'))
    case Addressing(id, k) => CallsOrFails(s, id, SetAddress, 2, Linking(id, k), s')
    case Linking(id, k) => CallsOrFails(s, id, LinkUp, 3, Preparing(id, k), s')
    case Preparing(id, k) =>
      CallsOrFails(s, id, PrepareSoftap, 4, if k.ProgramJob? then Ready(id) else FirmwareReady(id), s')
    case ReleaseFailed(id, _) => Calls(s, id, Release, Idle, s')
    case Ready(id) =>
      Goes(s, if IsCancelled(s.reg, id) then ReleaseCancelled(id) else Driving(id, ProgramJob, true, None), s')
    case ReleaseCancelled(id) => Calls(s, id, Release, MarkCancelled(id), s')
    case ReleaseDriven(id, k, o) =>
      Calls(s, id, Release, if k.ProgramJob? then FinalCheck(id, o) else FirmwareLive(id, o), s')
  }

  /** The driver talks to the device and reports through `JobProgressSink`, or is done. */
  ghost predicate DrivingNext(s: System, s': System)
    requires s.pc.Driving?
  {
    var Driving(id, k, held, _) := s.pc;
    || (exists st :: StepState(st) && Transits(s, id, st, Driving(id, k, held, None), s'))
    || Goes(s, Driving(id, k, held, Some(StateOr(s.reg, id, Writing))), s')
    || (exists o :: Goes(s, if held then ReleaseDriven(id, k, o) else FirmwareLive(id, o), s'))
  }

  ghost predicate TakeNext(s: System, id: JobId, s': System)
  {
    var next := match PayloadOf(s.reg, id)
                case None => Fail(id)
                case Some(Program(_)) => ProgramEntry(id)
                case Some(Firmware(_)) => FirmwareEntry(id);
    s' == s.(reg := PayloadTaken(s.reg, id), pc := next)
  }

  /** The other positions: checks and lookups, each of which may fail where the runner can. */
  ghost predicate QuietNext(s: System, s': System)
  {
    match s.pc
    case Idle => s.queue != [] && s' == s.(queue := s.queue[1..], pc := Entry(s.queue[0]))
    case Entry(id) => Goes(s, if IsCancelled(s.reg, id) then StillLive(id) else TakePayload(id), s')
    case StillLive(id) => Goes(s, if NonTerminal(s.reg, id) then MarkCancelled(id) else Idle, s')
    case TakePayload(id) => TakeNext(s, id, s')
    // run_program_job: driver and candidate lookups may fail
    case ProgramEntry(id) =>
      (match SnapshotOf(s.reg, id)
       case None => Goes(s, Idle, s')
       case Some(snap) =>
         Goes(s, Fail(id), s') || Goes(s, if snap.driver == "fred" then FredResolve(id) else Join(id), s'))
    // run_fred_program_job
    case FredResolve(id) => Goes(s, Fail(id), s') || Goes(s, FredCheck(id), s')
    case FredCheck(id) => Goes(s, if IsCancelled(s.reg, id) then MarkCancelled(id) else FredWrite(id), s')
    case FredDispatch(id) => Goes(s, Fail(id), s') || exists o :: Goes(s, FredFinal(id, o), s')
    case FredFinal(id, o) => Goes(s, if IsCancelled(s.reg, id) then MarkCancelled(id) else Finish(id, o), s')
    case JoinCheck(id) => Goes(s, if IsCancelled(s.reg, id) then MarkCancelled(id) else Dial(id, ProgramJob), s')
    case FinalCheck(id, o) => Goes(s, if IsCancelled(s.reg, id) then StillLive(id) else Finish(id, o), s')
    // run_firmware_job
    case FirmwareEntry(id) =>
      if id !in s.reg.jobs then Goes(s, Idle, s') else Goes(s, Fail(id), s') || Goes(s, FirmwareWrite(id), s')
    case FirmwareMode(id) =>
      || Goes(s, Fail(id), s')
      || Goes(s, Driving(id, FirmwareJob, false, None), s')
      || Goes(s, FirmwareJoin(id), s')
    case FirmwareLive(id, o) =>
      Goes(s, if id in s.reg.jobs && s.reg.jobs[id].snapshot.state.IsTerminal() then Idle else FirmwareCheck(id, o), s')
    case FirmwareCheck(id, o) =>
      Goes(s, if IsCancelled(s.reg, id) || o.Aborted? then MarkCancelled(id) else Finish(id, o), s')
    case _ => false
  }

  ghost predicate AnnounceNext(s: System, s': System)
    requires Announces(s.pc).Some?
  {
    var (state, pc) := Announces(s.pc).value;
    Transits(s, s.pc.id, state, pc, s')
  }

  /** One step of `worker_loop`, `run_job` and the job runners. */
  ghost predicate WorkNext(s: System, s': System)
  {
    if Announces(s.pc).Some? then AnnounceNext(s, s')
    else if s.pc.Driving? then DrivingNext(s, s')
    else if OnRadio(s.pc) then RadioNext(s, s')
    else QuietNext(s, s')
  }

  ghost predicate Next(s: System, s': System)
  {
    || (exists driver, key, payload, now :: SubmitNext(s, driver, key, payload, now, s'))
    || SendNext(s, s')
    || SendFailedNext(s, s')
    || (exists id :: CancelNext(s, id, s'))
    || WorkNext(s, s')
  }

  ghost predicate StepAt(ss: seq<System>, i: nat)
    requires i + 1 < |ss|
  {
    Next(ss[i], ss[i + 1])
  }

  /** A run of the daemon from its start. */
  ghost predicate Run(ss: seq<System>)
  {
    && |ss| > 0 && ss[0] == INITIAL
    && forall i :: 0 <= i < |ss| - 1 ==> StepAt(ss, i)
  }

  // ----- invariant -----------------------------------------------------------

  /** The unfinished job is in exactly one pair of hands. */
  ghost predicate Owned(s: System)
  {
    match s.reg.active
    case None => s.pending.None? && s.queue == [] && s.pc.Live().None?
    case Some(id) =>
      || (s.pending == Some(id) && s.queue == [] && s.pc.Live().None?)
      || (s.pending.None? && s.queue == [id] && s.pc.Live().None?)
      || (s.pending.None? && s.queue == [] && s.pc.Live() == Some(id))
  }

  /** Every job finishes exactly once, in the order of its number. */
  ghost predicate Chronicle(s: System)
  {
    && |s.finals| == FinishedCount(s.reg) && |s.kinds| == s.reg.issued
    && (forall k :: 0 <= k < |s.finals| ==> s.finals[k].id == k + 1 && s.finals[k].state.IsTerminal())
    && (forall k :: 0 <= k < |s.finals| && k + 1 in s.reg.jobs ==>
                      s.reg.jobs[k + 1].snapshot.state == s.finals[k].state)
    && forall k :: 0 <= k < |s.finals| && s.finals[k].state.Cancelled? && s.kinds[k].ProgramJob? ==>
                     s.finals[k].requested
  }

  /** The payload stays in the record until the worker takes it. */
  ghost predicate Loaded(s: System)
  {
    s.reg.active.Some? && (s.pc.Live().None? || s.pc.Entry? || s.pc.TakePayload?) ==>
      var id := s.reg.active.value;
      id in s.reg.jobs && s.reg.jobs[id].payload.Some? && 0 < id <= |s.kinds|
      && KindOf(s.reg.jobs[id].payload.value) == s.kinds[id - 1]
  }

  ghost predicate KindAt(s: System, id: JobId, k: Kind)
  {
    0 < id <= |s.kinds| && s.kinds[id - 1] == k
  }

  /** What the worker remembers agrees with the registry. */
  ghost predicate Remembers(s: System)
  {
    match s.pc
    case Dialing(id, k, sink) => KindAt(s, id, k) && (sink.Some? ==> sink.value == StateOr(s.reg, id, Writing))
    case Driving(id, k, held, sink) =>
      KindAt(s, id, k) && (!held ==> k.FirmwareJob?)
      && (sink.Some? ==> sink.value == StateOr(s.reg, id, Writing))
    case StillLive(id) => IsCancelled(s.reg, id)
    case MarkCancelled(id) => IsCancelled(s.reg, id) || KindAt(s, id, FirmwareJob)
    case ProgramEntry(id) => KindAt(s, id, ProgramJob)
    case Join(id) => KindAt(s, id, ProgramJob)
    case JoinCheck(id) => KindAt(s, id, ProgramJob)
    case Ready(id) => KindAt(s, id, ProgramJob)
    case ReleaseCancelled(id) => IsCancelled(s.reg, id)
    case Dial(id, k) => KindAt(s, id, k)
    case Addressing(id, k) => KindAt(s, id, k)
    case Linking(id, k) => KindAt(s, id, k)
    case Preparing(id, k) => KindAt(s, id, k)
    case ReleaseDriven(id, k, _) => KindAt(s, id, k)
    case FirmwareEntry(id) => KindAt(s, id, FirmwareJob)
    case FirmwareWrite(id) => KindAt(s, id, FirmwareJob)
    case FirmwareMode(id) => KindAt(s, id, FirmwareJob)
    case FirmwareJoin(id) => KindAt(s, id, FirmwareJob)
    case FirmwareReady(id) => KindAt(s, id, FirmwareJob)
    case FirmwareLive(id, _) => KindAt(s, id, FirmwareJob)
    case FirmwareCheck(id, _) => KindAt(s, id, FirmwareJob)
    case _ => true
  }

  ghost predicate Inv(s: System)
  {
    RegInv(s.reg) && Owned(s) && Chronicle(s) && Loaded(s) && Remembers(s)
  }

  // ----- every step keeps it -------------------------------------------------

  lemma SubmitStep(s: System, driver: string, key: string, payload: JobPayload, now: nat, s': System)
    requires Inv(s) && SubmitNext(s, driver, key, payload, now, s')
    ensures Inv(s') && Evolves(s.reg, s'.reg)
  {
    SubmitKeeps(s.reg, driver, key, Some(payload), now);
  }

  lemma CancelLocal(s: System, id: JobId, s': System)
    requires Owned(s) && Loaded(s) && Remembers(s) && CancelNext(s, id, s')
    ensures Owned(s') && Loaded(s') && Remembers(s')
  {
  }

  lemma CancelChronicle(s: System, id: JobId, s': System)
    requires Chronicle(s) && CancelNext(s, id, s')
    ensures Chronicle(s')
  {
  }

  lemma CancelStep(s: System, id: JobId, s': System)
    requires Inv(s) && CancelNext(s, id, s')
    ensures Inv(s') && Evolves(s.reg, s'.reg)
  {
    CancelLocal(s, id, s');
    CancelChronicle(s, id, s');
    CancelKeeps(s.reg, id);
  }

  /** The registry part of a transition of the job that holds the slot. */
  lemma TransitRegistry(s: System, id: JobId, state: JobState, pc: Pc, s': System)
    requires RegInv(s.reg) && s.reg.active == Some(id) && Transits(s, id, state, pc, s')
    ensures RegInv(s'.reg) && Evolves(s.reg, s'.reg) && s'.reg.issued == s.reg.issued
    ensures s'.reg.active == if state.IsTerminal() then None else Some(id)
    ensures forall x :: x in s'.reg.jobs ==> x in s.reg.jobs && (x != id ==> s'.reg.jobs[x] == s.reg.jobs[x])
    ensures id in s'.reg.jobs ==> s'.reg.jobs[id].snapshot.state == state
    ensures !state.IsTerminal() ==> id in s'.reg.jobs
  {
    var f: JobFrame :| f.id == id && f.state == state && TransitionTo(s.reg, f, s'.reg);
    TransitionKeeps(s.reg, f, s'.reg);
  }

  lemma TransitChronicle(s: System, id: JobId, state: JobState, s': System)
    requires Chronicle(s) && s.reg.active == Some(id) && id == s.reg.issued && s'.reg.issued == s.reg.issued
    requires s'.reg.active == if state.IsTerminal() then None else Some(id)
    requires s'.kinds == s.kinds
    requires s'.finals == if state.IsTerminal() then s.finals + [Final(id, state, IsCancelled(s.reg, id))] else s.finals
    requires state.Cancelled? ==> IsCancelled(s.reg, id) || KindAt(s, id, FirmwareJob)
    requires forall x :: x in s'.reg.jobs ==> x in s.reg.jobs && (x != id ==> s'.reg.jobs[x] == s.reg.jobs[x])
    requires id in s'.reg.jobs ==> s'.reg.jobs[id].snapshot.state == state
    ensures Chronicle(s')
  {
    forall k | 0 <= k < |s'.finals|
      ensures s'.finals[k].id == k + 1 && s'.finals[k].state.IsTerminal()
      ensures k + 1 in s'.reg.jobs ==> s'.reg.jobs[k + 1].snapshot.state == s'.finals[k].state
      ensures s'.finals[k].state.Cancelled? && s'.kinds[k].ProgramJob? ==> s'.finals[k].requested
    {
      if k < |s.finals| { assert s'.finals[k] == s.finals[k]; }
    }
  }

  lemma TransitStep(s: System, id: JobId, state: JobState, pc: Pc, s': System)
    requires RegInv(s.reg) && Chronicle(s) && s.reg.active == Some(id)
    requires Transits(s, id, state, pc, s')
    requires state.Cancelled? ==> IsCancelled(s.reg, id) || KindAt(s, id, FirmwareJob)
    ensures RegInv(s'.reg) && Chronicle(s') && Evolves(s.reg, s'.reg)
    ensures s'.reg.active == if state.IsTerminal() then None else Some(id)
  {
    TransitRegistry(s, id, state, pc, s');
    TransitChronicle(s, id, state, s');
  }

  lemma SendFailedStep(s: System, s': System)
    requires Inv(s) && SendFailedNext(s, s')
    ensures Inv(s') && Evolves(s.reg, s'.reg)
  {
    TransitStep(s.(pending := None), s.pending.value, Failed, s.pc, s');
  }

  /** The job in the worker's hands is registered and unfinished. */
  ghost predicate HolderLive(r: Registry)
  {
    r.active.Some? ==> NonTerminal(r, r.active.value)
  }

  /** Steps that only move the worker and perhaps call the radio. */
  ghost predicate Quietly(s: System, s': System)
  {
    s'.reg == s.reg && s'.finals == s.finals && s'.kinds == s.kinds && s'.clock == s.clock
  }

  lemma QuietStep(s: System, s': System)
    requires Owned(s) && Loaded(s) && Remembers(s) && HolderLive(s.reg)
    requires Still(s.pc) && !OnRadio(s.pc) && QuietNext(s, s')
    ensures Quietly(s, s')
    ensures Owned(s') && Loaded(s') && Remembers(s')
  {
  }

  lemma RadioStep(s: System, s': System)
    requires Owned(s) && Loaded(s) && Remembers(s)
    requires Still(s.pc) && OnRadio(s.pc) && RadioNext(s, s')
    ensures Quietly(s, s')
    ensures Owned(s') && Loaded(s') && Remembers(s')
  {
  }

  lemma TakeLocal(s: System, s': System)
    requires Owned(s) && Chronicle(s) && Loaded(s) && s.pc.TakePayload? && TakeNext(s, s.pc.id, s')
    ensures Owned(s') && Chronicle(s') && Loaded(s') && Remembers(s')
  {
  }

  lemma TakeStep(s: System, s': System)
    requires Inv(s) && s.pc.TakePayload? && TakeNext(s, s.pc.id, s')
    ensures Inv(s') && Evolves(s.reg, s'.reg)
  {
    TakeLocal(s, s');
    PayloadKeeps(s.reg, s.pc.id);
  }

  /** A transition by the worker, after which it holds the job on or has let it go. */
  lemma HeldTransit(s: System, id: JobId, state: JobState, pc: Pc, s': System)
    requires Inv(s) && s.pc.Live() == Some(id) && Transits(s, id, state, pc, s')
    requires state.Cancelled? ==> IsCancelled(s.reg, id) || KindAt(s, id, FirmwareJob)
    requires pc.Live() == (if state.IsTerminal() then None else Some(id)) && !pc.Entry? && !pc.TakePayload?
    requires Remembers(s')
    ensures Inv(s') && Evolves(s.reg, s'.reg)
  {
    TransitStep(s, id, state, pc, s');
  }

  /** Where an announcement leads, and what it may announce. */
  lemma AnnouncementShape(s: System)
    requires Remembers(s) && Announces(s.pc).Some?
    ensures var (state, pc) := Announces(s.pc).value; var id := s.pc.id;
            && s.pc.Live() == Some(id)
            && (state.Cancelled? && !s.pc.Dialing? && !s.pc.Driving? ==> IsCancelled(s.reg, id) || KindAt(s, id, FirmwareJob))
            && (s.pc.Dialing? || s.pc.Driving? ==> state == StateOr(s.reg, id, Writing))
  {
  }

  lemma AnnouncementNext(pc: Pc)
    requires Announces(pc).Some? && ((pc.Dialing? || pc.Driving?) ==> !pc.sink.value.IsTerminal())
    ensures var (state, next) := Announces(pc).value;
            && next.Live() == (if state.IsTerminal() then None else Some(pc.id)) && !next.Entry? && !next.TakePayload?
  {
  }

  lemma AnnouncementRemembered(s: System, s': System)
    requires Remembers(s) && Announces(s.pc).Some? && s'.pc == Announces(s.pc).value.1 && s'.kinds == s.kinds
    ensures Remembers(s')
  {
  }

  lemma AnnounceStep(s: System, s': System)
    requires Inv(s) && Announces(s.pc).Some? && AnnounceNext(s, s')
    ensures Inv(s') && Evolves(s.reg, s'.reg)
  {
    AnnouncementShape(s);
    AnnouncementNext(s.pc);
    AnnouncementRemembered(s, s');
    var (state, pc) := Announces(s.pc).value;
    HeldTransit(s, s.pc.id, state, pc, s');
  }

  /** A report of the driver, or a move that leaves the registry alone. */
  ghost predicate DriverReports(s: System, s': System)
    requires s.pc.Driving?
  {
    exists st :: StepState(st) && Transits(s, s.pc.id, st, s.pc, s')
  }

  lemma DrivingReport(s: System, s': System)
    requires Inv(s) && s.pc.Driving? && s.pc.sink.None? && DriverReports(s, s')
    ensures Inv(s') && Evolves(s.reg, s'.reg)
  {
    var st :| StepState(st) && Transits(s, s.pc.id, st, s.pc, s');
    DrivingRemembered(s, s');
    HeldTransit(s, s.pc.id, st, s.pc, s');
  }

  lemma DrivingRemembered(s: System, s': System)
    requires Remembers(s) && s.pc.Driving? && s.pc.sink.None? && s'.pc == s.pc && s'.kinds == s.kinds
    ensures Remembers(s')
  {
  }

  lemma DrivingStep(s: System, s': System)
    requires Inv(s) && s.pc.Driving? && s.pc.sink.None? && DrivingNext(s, s')
    ensures Inv(s') && Evolves(s.reg, s'.reg)
  {
    if DriverReports(s, s') {
      DrivingReport(s, s');
    } else {
      DrivingQuiet(s, s');
    }
  }

  lemma DrivingQuiet(s: System, s': System)
    requires Owned(s) && Loaded(s) && Remembers(s) && s.pc.Driving? && s.pc.sink.None? && DrivingNext(s, s')
    requires !DriverReports(s, s')
    ensures Quietly(s, s')
    ensures Owned(s') && Loaded(s') && Remembers(s')
  {
    assert s.pc == Driving(s.pc.id, s.pc.kind, s.pc.held, None);
  }

  lemma QuietKeeps(s: System, s': System)
    requires Inv(s) && Quietly(s, s') && Owned(s') && Loaded(s') && Remembers(s')
    ensures Inv(s') && Evolves(s.reg, s'.reg)
  {
  }

  lemma RadioKeeps(s: System, s': System)
    requires Inv(s) && Still(s.pc) && OnRadio(s.pc) && RadioNext(s, s')
    ensures Inv(s') && Evolves(s.reg, s'.reg)
  {
    RadioStep(s, s');
    QuietKeeps(s, s');
  }

  lemma OtherKeeps(s: System, s': System)
    requires Inv(s) && Announces(s.pc).None? && !s.pc.Driving? && !OnRadio(s.pc) && QuietNext(s, s')
    ensures Inv(s') && Evolves(s.reg, s'.reg)
  {
    if s.pc.TakePayload? {
      TakeStep(s, s');
    } else {
      QuietStep(s, s');
      QuietKeeps(s, s');
    }
  }

  /** Which part of the step relation applies. */
  lemma WorkCases(s: System, s': System)
    requires WorkNext(s, s')
    ensures if Announces(s.pc).Some? then AnnounceNext(s, s')
            else if s.pc.Driving? then s.pc.sink.None? && DrivingNext(s, s')
            else if OnRadio(s.pc) then Still(s.pc) && RadioNext(s, s')
            else QuietNext(s, s')
  {
  }

  /** Every step of the worker keeps the invariant. */
  lemma WorkStep(s: System, s': System)
    requires Inv(s) && WorkNext(s, s')
    ensures Inv(s') && Evolves(s.reg, s'.reg)
  {
    WorkCases(s, s');
    if Announces(s.pc).Some? {
      AnnounceStep(s, s');
    } else if s.pc.Driving? {
      DrivingStep(s, s');
    } else if OnRadio(s.pc) {
      RadioKeeps(s, s');
    } else {
      OtherKeeps(s, s');
    }
  }

  // ----- what a worker step can do to the registry ----------------------------------

  ghost predicate TakesPayload(s: System, s': System)
  {
    && s.pc.TakePayload? && s'.reg == PayloadTaken(s.reg, s.pc.id)
    && s'.finals == s.finals && s'.kinds == s.kinds && s'.clock == s.clock
  }

  ghost predicate TransitsTo(s: System, id: JobId, state: JobState, s': System)
  {
    exists pc :: Transits(s, id, state, pc, s')
  }

  /** The worker announces a state of the job in its hands. */
  ghost predicate Reports(s: System, s': System)
  {
    s.pc.Live().Some? && exists state :: TransitsTo(s, s.pc.id, state, s')
  }

  lemma DrivingTouches(s: System, s': System)
    requires s.pc.Driving? && s.pc.sink.None? && DrivingNext(s, s')
    ensures Quietly(s, s') || Reports(s, s')
  {
    if DriverReports(s, s') {
      var st :| StepState(st) && Transits(s, s.pc.id, st, s.pc, s');
      assert TransitsTo(s, s.pc.id, st, s');
    } else {
      assert s.pc == Driving(s.pc.id, s.pc.kind, s.pc.held, None);
    }
  }

  lemma RadioTouches(s: System, s': System)
    requires Still(s.pc) && OnRadio(s.pc) && RadioNext(s, s')
    ensures Quietly(s, s')
  {
  }

  lemma QuietTouches(s: System, s': System)
    requires !OnRadio(s.pc) && QuietNext(s, s')
    ensures Quietly(s, s') || TakesPayload(s, s')
  {
  }

  lemma WorkTouches(s: System, s': System)
    requires WorkNext(s, s')
    ensures Quietly(s, s') || TakesPayload(s, s') || Reports(s, s')
  {
    if Announces(s.pc).Some? {
      var (state, pc) := Announces(s.pc).value;
      assert Transits(s, s.pc.id, state, pc, s');
      assert TransitsTo(s, s.pc.id, state, s');
    } else if s.pc.Driving? {
      DrivingTouches(s, s');
    } else if OnRadio(s.pc) {
      RadioTouches(s, s');
    } else {
      QuietTouches(s, s');
    }
  }
}
