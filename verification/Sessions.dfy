/**
 Radio discipline of the worker. The radio calls of a run are accepted by a
 small automaton, and acceptance is unfolded into what it means for the log:
 each job's calls are one session, and sessions of different jobs never overlap.
 */
module Sessions {
  import opened Prelude
  import opened Jobs
  import opened Daemon
  import opened Runs

  /** `Free(last)`: unassociated, `last` being the last job that used the radio. */
  datatype Link = Free(last: nat) | Held(id: JobId, calls: nat) | Broken

  /** The four calls that open a Soft-AP session, in order. */
  const OPENING: seq<RadioOp> := [Connect, SetAddress, LinkUp, PrepareSoftap]

  function After(l: Link, c: RadioCall): (l': Link)
  {
    match l
    case Free(last) => if c.op == Connect && c.id > last then Held(c.id, 1) else Broken
    case Held(id, n) =>
      if c.id != id then Broken
      else if c.op == Release then Free(id)
      else if 0 < n < 4 && c.op == OPENING[n] then Held(id, n + 1)
      else Broken
    case Broken => Broken
  }

  function Scan(log: seq<RadioCall>): (l: Link)
  {
    if log == [] then Free(0) else After(Scan(log[..|log| - 1]), log[|log| - 1])
  }

  lemma ScanAppend(log: seq<RadioCall>, c: RadioCall)
    ensures Scan(log + [c]) == After(Scan(log), c)
  {
    assert (log + [c])[..|log|] == log;
  }

  // ----- the worker drives the automaton --------------------------------------

  /** Calls made so far in the session the worker is in, if it is in one. */
  function InSession(pc: Pc): (n: nat)
  {
    match pc
    case Dialing(_, _, _) => 1
    case Addressing(_, _) => 1
    case Linking(_, _) => 2
    case Preparing(_, _) => 3
    case FailHeld(_, n) => n
    case ReleaseFailed(_, n) => n
    case Ready(_) => 4
    case FirmwareReady(_) => 4
    case ReleaseCancelled(_) => 4
    case Driving(_, _, held, _) => if held then 4 else 0
    case ReleaseDriven(_, _, _) => 4
    case _ => 0
  }

  /** Positions from which the worker may still open a session for its job. */
  predicate BeforeSession(pc: Pc)
  {
    || pc.Live().None? || pc.Entry? || pc.TakePayload? || pc.ProgramEntry? || pc.Join? || pc.JoinCheck?
    || pc.Dial? || pc.FirmwareEntry? || pc.FirmwareWrite? || pc.FirmwareMode? || pc.FirmwareJoin?
  }

  ghost predicate Tracks(s: System)
  {
    match Scan(s.radio)
    case Broken => false
    case Held(id, n) =>
      && !s.pc.Idle? && s.pc.id == id && InSession(s.pc) == n && 1 <= n <= 4 && id <= s.reg.issued
      && (s.pc.Live().None? && s.reg.active.Some? ==> s.reg.active.value > id)
    case Free(last) =>
      && InSession(s.pc) == 0 && !s.pc.FailHeld? && !s.pc.ReleaseFailed? && last <= s.reg.issued
      && (s.reg.active.Some? && BeforeSession(s.pc) ==> last < s.reg.active.value)
  }

  predicate CallsRadio(pc: Pc)
  {
    || pc.Dial? || pc.Addressing? || pc.Linking? || pc.Preparing?
    || pc.ReleaseFailed? || pc.ReleaseCancelled? || pc.ReleaseDriven?
  }

  predicate ReleasesRadio(pc: Pc)
  {
    pc.ReleaseFailed? || pc.ReleaseCancelled? || pc.ReleaseDriven?
  }

  /** What a release does: one more call, the registry as it is, and no session. */
  ghost predicate Releases(s: System, s': System)
    requires ReleasesRadio(s.pc)
  {
    && s'.radio == s.radio + [RadioCall(s.pc.id, Release)] && s'.reg == s.reg
    && InSession(s'.pc) == 0 && !s'.pc.FailHeld? && !s'.pc.ReleaseFailed?
    && (BeforeSession(s'.pc) ==> s.pc.ReleaseFailed?)
  }

  lemma ReleaseShape(s: System, s': System)
    requires ReleasesRadio(s.pc) && RadioNext(s, s')
    ensures Releases(s, s')
  {
  }

  lemma TracksRelease(s: System, s': System)
    requires Tracks(s) && ReleasesRadio(s.pc) && Releases(s, s')
    ensures Tracks(s')
  {
    ScanAppend(s.radio, RadioCall(s.pc.id, Release));
  }

  lemma TracksDial(s: System, s': System)
    requires Tracks(s) && Owned(s) && s.pc.Dial? && RadioNext(s, s')
    requires s.reg.active.Some? ==> s.reg.active.value <= s.reg.issued
    ensures Tracks(s')
  {
    ScanAppend(s.radio, RadioCall(s.pc.id, Connect));
  }

  lemma OpenShape(s: System, s': System)
    requires (s.pc.Addressing? || s.pc.Linking? || s.pc.Preparing?) && RadioNext(s, s')
    ensures s'.radio == s.radio + [RadioCall(s.pc.id, OPENING[InSession(s.pc)])] && s'.reg == s.reg
    ensures InSession(s'.pc) == InSession(s.pc) + 1 && s'.pc.Live() == s.pc.Live() == Some(s.pc.id)
  {
  }

  lemma TracksOpen(s: System, s': System)
    requires Tracks(s) && (s.pc.Addressing? || s.pc.Linking? || s.pc.Preparing?) && RadioNext(s, s')
    ensures Tracks(s')
  {
    OpenShape(s, s');
    ScanAppend(s.radio, RadioCall(s.pc.id, OPENING[InSession(s.pc)]));
  }

  /** The session is as deep as before, for the same job, and the worker may only have lost its chance to open one. */
  predicate SameSession(a: Pc, b: Pc)
  {
    && InSession(b) == InSession(a)
    && (!a.Idle? && !b.Idle? ==> b.id == a.id)
    && (InSession(a) > 0 ==> !b.Idle?)
    && (b.FailHeld? || b.ReleaseFailed? ==> a.FailHeld? || InSession(a) > 0)
    && (BeforeSession(b) ==> BeforeSession(a) || b.Live().None?)
    && !(a.Idle? && b.Idle?)
  }

  ghost predicate Moves(s: System, s': System)
  {
    && s'.radio == s.radio && SameSession(s.pc, s'.pc)
    && s'.pending == s.pending && (s.pc.Idle? || s'.queue == s.queue)
  }

  lemma AnnounceMoves(s: System, s': System)
    requires Announces(s.pc).Some? && AnnounceNext(s, s')
    ensures Moves(s, s')
  {
  }

  lemma DrivingMoves(s: System, s': System)
    requires s.pc.Driving? && s.pc.sink.None? && DrivingNext(s, s')
    ensures Moves(s, s')
  {
  }

  lemma RadioMoves(s: System, s': System)
    requires Still(s.pc) && OnRadio(s.pc) && !CallsRadio(s.pc) && RadioNext(s, s')
    ensures Moves(s, s')
  {
  }

  lemma QuietMoves(s: System, s': System)
    requires Announces(s.pc).None? && !s.pc.Driving? && !OnRadio(s.pc) && QuietNext(s, s')
    ensures Moves(s, s')
  {
  }

  /** A step that does not call the radio. */
  lemma MoveKeepsSession(s: System, s': System)
    requires WorkNext(s, s') && !CallsRadio(s.pc)
    ensures Moves(s, s')
  {
    WorkCases(s, s');
    if Announces(s.pc).Some? {
      AnnounceMoves(s, s');
    } else if s.pc.Driving? {
      DrivingMoves(s, s');
    } else if OnRadio(s.pc) {
      RadioMoves(s, s');
    } else {
      QuietMoves(s, s');
    }
  }

  lemma SlotAfterMove(s: System, s': System)
    requires Owned(s) && Owned(s') && Moves(s, s')
    requires s'.reg.active == s.reg.active || s'.reg.active.None?
    ensures s'.pc.Live().None? ==> s'.reg.active.None? || s.pc.Idle? || s.pc.ReleaseFailed?
  {
  }

  lemma TracksMove(s: System, s': System)
    requires Tracks(s) && Owned(s) && Owned(s') && Moves(s, s') && !s.pc.ReleaseFailed?
    requires s'.reg.issued == s.reg.issued && (s'.reg.active == s.reg.active || s'.reg.active.None?)
    ensures Tracks(s')
  {
    SlotAfterMove(s, s');
  }

  lemma CallsAreRadio(s: System, s': System)
    requires WorkNext(s, s') && CallsRadio(s.pc)
    ensures OnRadio(s.pc) && RadioNext(s, s')
  {
    WorkCases(s, s');
    CallingPositions(s.pc);
  }

  lemma CallingPositions(pc: Pc)
    requires CallsRadio(pc)
    ensures OnRadio(pc) && Announces(pc).None? && !pc.Driving?
  {
  }

  lemma TracksCall(s: System, s': System)
    requires Tracks(s) && Owned(s) && CallsRadio(s.pc) && OnRadio(s.pc) && RadioNext(s, s')
    requires s.reg.active.Some? ==> s.reg.active.value <= s.reg.issued
    ensures Tracks(s')
  {
    if ReleasesRadio(s.pc) {
      ReleaseShape(s, s');
      TracksRelease(s, s');
    } else if s.pc.Dial? {
      TracksDial(s, s');
    } else {
      TracksOpen(s, s');
    }
  }

  lemma TracksWork(s: System, s': System)
    requires Tracks(s) && Owned(s) && Owned(s') && WorkNext(s, s')
    requires s.reg.active.Some? ==> s.reg.active.value <= s.reg.issued
    requires s'.reg.issued == s.reg.issued && (s'.reg.active == s.reg.active || s'.reg.active.None?)
    ensures Tracks(s')
  {
    if CallsRadio(s.pc) {
      CallsAreRadio(s, s');
      TracksCall(s, s');
    } else {
      MoveKeepsSession(s, s');
      TracksMove(s, s');
    }
  }

  lemma TracksClient(s: System, s': System)
    requires Tracks(s) && s'.pc == s.pc && s'.radio == s.radio && s.reg.issued <= s'.reg.issued
    requires s'.reg.active == s.reg.active || s'.reg.active.None?
             || (s'.reg.active.value > s.reg.issued && s.pc.Live().None?)
    ensures Tracks(s')
  {
  }

  lemma ActiveAfterClient(s: System, s': System)
    requires Inv(s) && Next(s, s') && !WorkNext(s, s')
    ensures s.reg.issued <= s'.reg.issued
    ensures s'.reg.active == s.reg.active || s'.reg.active.None?
            || (s'.reg.active.value > s.reg.issued && s.pc.Live().None?)
  {
    if SendFailedNext(s, s') {
      TransitRegistry(s.(pending := None), s.pending.value, Failed, s.pc, s');
    }
  }

  lemma TracksNext(s: System, s': System)
    requires Inv(s) && Tracks(s) && Next(s, s')
    ensures Tracks(s')
  {
    if WorkNext(s, s') {
      WorkStep(s, s');
      WorkIssuesNothing(s, s');
      TracksWork(s, s');
    } else {
      ClientKeepsWorker(s, s');
      ActiveAfterClient(s, s');
      TracksClient(s, s');
    }
  }

  lemma TracksAt(ss: seq<System>, i: nat)
    requires i + 1 < |ss| && StepAt(ss, i) && Inv(ss[i]) && Tracks(ss[i])
    ensures Tracks(ss[i + 1])
  {
    TracksNext(ss[i], ss[i + 1]);
  }

  lemma {:induction false} RunTracks(ss: seq<System>, i: nat)
    requires Run(ss) && i < |ss|
    ensures Tracks(ss[i])
  {
    if i > 0 {
      RunTracks(ss, i - 1);
      Reachable(ss, i - 1);
      TracksAt(ss, i - 1);
    }
  }

  // ----- what acceptance means for the log ------------------------------------

  /** The operations performed for one job, in order. */
  function Ops(log: seq<RadioCall>, id: JobId): (ops: seq<RadioOp>)
  {
    if log == [] then []
    else
      var c := log[|log| - 1];
      Ops(log[..|log| - 1], id) + (if c.id == id then [c.op] else [])
  }

  /** Associate, go some way through the set-up, release. */
  ghost predicate CompleteSession(ops: seq<RadioOp>)
  {
    exists n :: 1 <= n <= 4 && ops == OPENING[..n] + [Release]
  }

  /** What an accepted log means for one job, by the state of the automaton. */
  ghost predicate Meaning(log: seq<RadioCall>, id: JobId, l: Link)
  {
    match l
    case Free(last) => (Ops(log, id) == [] || CompleteSession(Ops(log, id))) && (id > last ==> Ops(log, id) == [])
    case Held(h, n) =>
      && 1 <= n <= 4
      && (id == h ==> Ops(log, id) == OPENING[..n])
      && (id > h ==> Ops(log, id) == [])
      && (id < h ==> Ops(log, id) == [] || CompleteSession(Ops(log, id)))
    case Broken => false
  }

  lemma OpsAppend(log: seq<RadioCall>, c: RadioCall, id: JobId)
    ensures Ops(log + [c], id) == Ops(log, id) + (if c.id == id then [c.op] else [])
  {
    assert (log + [c])[..|log|] == log;
  }

  lemma MeaningConnect(log: seq<RadioCall>, c: RadioCall, id: JobId, last: nat)
    requires Meaning(log, id, Free(last)) && c.op == Connect && c.id > last
    ensures Meaning(log + [c], id, Held(c.id, 1))
  {
    OpsAppend(log, c, id);
    assert OPENING[..1] == [Connect] == [] + [Connect];
    assert Ops(log, id) + [] == Ops(log, id);
  }

  lemma MeaningRelease(log: seq<RadioCall>, c: RadioCall, id: JobId, h: JobId, n: nat)
    requires Meaning(log, id, Held(h, n)) && c == RadioCall(h, Release)
    ensures Meaning(log + [c], id, Free(h))
  {
    OpsAppend(log, c, id);
    assert Ops(log, id) + [] == Ops(log, id);
    if id == h {
      assert CompleteSession(OPENING[..n] + [Release]);
    }
  }

  lemma MeaningOpen(log: seq<RadioCall>, c: RadioCall, id: JobId, h: JobId, n: nat)
    requires Meaning(log, id, Held(h, n)) && n < 4 && c == RadioCall(h, OPENING[n])
    ensures Meaning(log + [c], id, Held(h, n + 1))
  {
    OpsAppend(log, c, id);
    assert Ops(log, id) + [] == Ops(log, id);
    assert OPENING[..n + 1] == OPENING[..n] + [OPENING[n]];
  }

  lemma MeaningNext(log: seq<RadioCall>, c: RadioCall, id: JobId, l: Link)
    requires Meaning(log, id, l) && !After(l, c).Broken?
    ensures Meaning(log + [c], id, After(l, c))
  {
    match l
    case Free(last) => MeaningConnect(log, c, id, last);
    case Held(h, n) =>
      if c.op == Release {
        MeaningRelease(log, c, id, h, n);
      } else {
        MeaningOpen(log, c, id, h, n);
      }
  }

  lemma {:induction false} AcceptedLog(log: seq<RadioCall>, id: JobId)
    requires !Scan(log).Broken?
    ensures Meaning(log, id, Scan(log))
  {
    if log != [] {
      var before, c := log[..|log| - 1], log[|log| - 1];
      AcceptedLog(before, id);
      assert log == before + [c];
      MeaningNext(before, c, id, Scan(before));
    }
  }

  /** The last job that has used the radio. */
  function Latest(l: Link): nat
  {
    match l
    case Free(last) => last
    case Held(h, _) => h
    case Broken => 0
  }

  /** Calls come in the order of the jobs. */
  lemma {:induction false} CallsInOrder(log: seq<RadioCall>)
    requires !Scan(log).Broken?
    ensures forall i :: 0 <= i < |log| ==> log[i].id <= Latest(Scan(log))
    ensures forall i, j :: 0 <= i <= j < |log| ==> log[i].id <= log[j].id
  {
    if log != [] {
      CallsInOrder(log[..|log| - 1]);
    }
  }

  /**
   In every run, the radio calls of a job the worker is not holding the radio for
   are either none or one complete session; the calls of different jobs follow one
   another, so sessions never overlap.
   */
  lemma RadioSessions(ss: seq<System>, i: nat, id: JobId)
    requires Run(ss) && i < |ss|
    ensures !(InSession(ss[i].pc) > 0 && ss[i].pc.id == id) ==>
              Ops(ss[i].radio, id) == [] || CompleteSession(Ops(ss[i].radio, id))
    ensures InSession(ss[i].pc) > 0 && ss[i].pc.id == id ==>
              InSession(ss[i].pc) <= 4 && Ops(ss[i].radio, id) == OPENING[..InSession(ss[i].pc)]
    ensures forall a, b, c :: 0 <= a <= b <= c < |ss[i].radio| && ss[i].radio[a].id == ss[i].radio[c].id ==>
                                ss[i].radio[b].id == ss[i].radio[a].id
  {
    RunTracks(ss, i);
    AcceptedLog(ss[i].radio, id);
    CallsInOrder(ss[i].radio);
  }
}
