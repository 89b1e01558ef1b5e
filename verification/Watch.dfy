/**
 The `job.watch` stream: the server's polling loop (`stream_job_watch`), the
 client that drains it (`drain_with`) and the exit status made of the last frame.

 A watcher runs beside the worker, so each of its locked reads sees the registry
 as it is at that moment. `views` lists those registries in order.
 */
module Watch {
  import opened Prelude
  import opened Jobs
  import opened RegistryInvariants
  import opened Daemon
  import opened Runs

  datatype StreamEnd =
    | Finished      // a terminal frame was sent
    | NotFound      // the job is not, or no longer, in the registry
    | Disconnected  // a reply could not be written
    | Watching      // no more reads: the stream is still open

  function SnapshotFrame(s: JobSnapshot): (f: JobFrame)
  {
    JobFrame(s.id, s.state, None, None, s.detail)
  }

  /** From read `a` to read `b` the job's record only grew. */
  ghost predicate Later(views: seq<Registry>, id: JobId, a: nat, b: nat)
    requires a <= b < |views|
  {
    id in views[b].jobs ==>
      && id in views[a].jobs && WellLogged(id, views[b].jobs[id])
      && Grows(views[a].jobs[id], views[b].jobs[id])
  }

  /** What one watcher may see of one job. */
  ghost predicate History(views: seq<Registry>, id: JobId)
  {
    forall a, b :: 0 <= a <= b < |views| ==> Later(views, id, a, b)
  }

  /** The optional snapshot: the job as some read saw it before any of its frames was sent. */
  ghost predicate Opening(pre: seq<JobFrame>, views: seq<Registry>, id: JobId)
  {
    pre == [] || (|pre| == 1 && exists t :: 0 <= t < |views| && id in views[t].jobs && pre[0] == SnapshotFrame(views[t].jobs[id].snapshot))
  }

  /** The stream ended normally on a registry where the job's record is `rec`. */
  ghost predicate Complete(pre: seq<JobFrame>, sent: seq<JobFrame>, rec: JobRecord)
  {
    && sent != [] && Terminal(rec) && sent[|sent| - 1].state == rec.snapshot.state
    && sent[|sent| - 1].state.IsTerminal() && NoneTerminal(sent[..|sent| - 1])
    && (sent == pre + rec.frames || (sent == pre == [SnapshotFrame(rec.snapshot)]))
  }

  ghost predicate NoneTerminal(frames: seq<JobFrame>)
  {
    forall i :: 0 <= i < |frames| ==> !frames[i].state.IsTerminal()
  }

  /** Reply with each frame in turn; `ok` is false when the connection breaks. */
  method SendFrames(frames: seq<JobFrame>, sent: seq<JobFrame>, budget: nat)
    returns (sent': seq<JobFrame>, ok: bool, terminal: bool)
    requires |sent| <= budget
    ensures |sent'| <= budget
    ensures if ok then sent' == sent + frames else |sent'| == budget && exists n :: 0 <= n <= |frames| && sent' == sent + frames[..n]
    ensures ok ==> (terminal <==> frames != [] && frames[|frames| - 1].state.IsTerminal())
  {
    sent', terminal := sent, false;
    var k := 0;
    while k < |frames|
      invariant 0 <= k <= |frames| && |sent'| <= budget && sent' == sent + frames[..k]
      invariant terminal <==> k > 0 && frames[k - 1].state.IsTerminal()
    {
      if |sent'| == budget {
        return sent', false, terminal;
      }
      assert frames[..k + 1] == frames[..k] + [frames[k]];
      terminal := frames[k].state.IsTerminal();
      sent' := sent' + [frames[k]];
      k := k + 1;
    }
    assert frames[..k] == frames;
    ok := true;
  }

  lemma LogEnds(id: JobId, rec: JobRecord, since: nat, pre: seq<JobFrame>)
    requires WellLogged(id, rec) && since <= |rec.frames| && NoneTerminal(pre + rec.frames[..since])
    ensures var more, all := rec.frames[since..], pre + rec.frames;
            && all == pre + rec.frames[..since] + more
            && (Terminal(rec) <==> more != [] && more[|more| - 1].state.IsTerminal())
            && (Terminal(rec) ==> all[|all| - 1].state == rec.snapshot.state && NoneTerminal(all[..|all| - 1]))
            && (!Terminal(rec) ==> NoneTerminal(all))
  {
    var n, all := |rec.frames|, pre + rec.frames;
    assert forall i :: 0 <= i < |all| ==> all[i] == if i < |pre| then (pre + rec.frames[..since])[i] else rec.frames[i - |pre|];
    if since < n {
      assert rec.frames[since..][n - since - 1] == rec.frames[n - 1];
    } else if n > 0 {
      assert (pre + rec.frames[..since])[|pre| + n - 1] == rec.frames[n - 1];
    }
  }

  ghost predicate LiveAt(views: seq<Registry>, id: JobId, t: nat)
    requires t < |views|
  {
    id in views[t].jobs ==> !Terminal(views[t].jobs[id])
  }

  /** The first `seen` reads have been made and the job had not ended before the last of them. */
  ghost predicate Streaming(views: seq<Registry>, id: JobId, sent: seq<JobFrame>, pre: seq<JobFrame>, since: nat, seen: nat, at: nat)
  {
    && at < seen <= |views| && id in views[at].jobs && since <= |views[at].jobs[id].frames|
    && sent == pre + views[at].jobs[id].frames[..since] && NoneTerminal(sent)
    && Opening(pre, views[..seen], id)
    && forall t :: 0 <= t < seen - 1 ==> LiveAt(views, id, t)
  }

  /** Everything sent is the optional snapshot and a prefix of the log, with no gap or repeat. */
  ghost predicate SentFromLog(views: seq<Registry>, id: JobId, sent: seq<JobFrame>, pre: seq<JobFrame>)
  {
    sent == [] || exists t, n :: 0 <= t < |views| && id in views[t].jobs && 0 <= n <= |views[t].jobs[id].frames|
                                 && sent == pre + views[t].jobs[id].frames[..n]
  }

  ghost predicate Ended(views: seq<Registry>, id: JobId, sent: seq<JobFrame>, pre: seq<JobFrame>, end: StreamEnd, seen: nat, budget: nat)
  {
    && 0 < seen <= |views| && Opening(pre, views[..seen], id) && SentFromLog(views[..seen], id, sent, pre)
    && (end.Finished? ==> id in views[seen - 1].jobs && Complete(pre, sent, views[seen - 1].jobs[id]))
    && (end.NotFound? ==> id !in views[seen - 1].jobs)
    && (end.Disconnected? ==> |sent| == budget)
    && (end.Watching? ==> seen == |views| && forall t :: 0 <= t < |views| - 1 ==> LiveAt(views, id, t))
  }

  /** One `frames_since` read and its replies. */
  method SendNewFrames(id: JobId, views: seq<Registry>, budget: nat, sent: seq<JobFrame>, pre: seq<JobFrame>, since: nat, seen: nat, ghost at: nat)
    returns (sent': seq<JobFrame>, since': nat, end: Option<StreamEnd>)
    requires History(views, id) && seen < |views| && |sent| <= budget && Streaming(views, id, sent, pre, since, seen, at)
    ensures |sent'| <= budget
    ensures end.None? ==> Streaming(views, id, sent', pre, since', seen + 1, seen) && LiveAt(views, id, seen)
    ensures end.Some? ==> !end.value.Watching? && Ended(views, id, sent', pre, end.value, seen + 1, budget)
  {
    var frames := FramesSince(views[seen], id, since);
    if frames.None? {
      JobGone(views, id, budget, sent, pre, since, seen, at);
      return sent, since, Some(NotFound);
    }
    NewFrames(views, id, sent, pre, since, seen, at);
    var ok, terminal;
    sent', ok, terminal := SendFrames(frames.value, sent, budget);
    since' := since + |frames.value|;
    if !ok {
      ghost var n :| 0 <= n <= |frames.value| && sent' == sent + frames.value[..n];
      ReplyFailed(views, id, budget, sent, pre, since, seen, at, n);
      end := Some(Disconnected);
    } else if terminal {
      LogDone(views, id, budget, sent, pre, since, seen, at);
      end := Some(Finished);
    } else {
      LogContinues(views, id, sent, pre, since, seen, at);
      end := None;
    }
  }

  lemma JobGone(views: seq<Registry>, id: JobId, budget: nat, sent: seq<JobFrame>, pre: seq<JobFrame>, since: nat, seen: nat, at: nat)
    requires seen < |views| && Streaming(views, id, sent, pre, since, seen, at) && id !in views[seen].jobs
    ensures Ended(views, id, sent, pre, NotFound, seen + 1, budget)
  {
    OpeningGrows(views, id, pre, seen);
    SentAt(views, id, sent, pre, at, since, seen + 1);
  }

  lemma ReplyFailed(views: seq<Registry>, id: JobId, budget: nat, sent: seq<JobFrame>, pre: seq<JobFrame>, since: nat, seen: nat, at: nat, n: nat)
    requires History(views, id) && seen < |views| && id in views[seen].jobs && Streaming(views, id, sent, pre, since, seen, at)
    requires since + n <= |views[seen].jobs[id].frames|
    requires |sent + views[seen].jobs[id].frames[since..since + n]| == budget
    ensures Ended(views, id, sent + views[seen].jobs[id].frames[since..][..n], pre, Disconnected, seen + 1, budget)
  {
    NewFrames(views, id, sent, pre, since, seen, at);
    OpeningGrows(views, id, pre, seen);
    var log := views[seen].jobs[id].frames;
    assert sent + log[since..][..n] == pre + log[..since + n];
    SentAt(views, id, sent + log[since..][..n], pre, seen, since + n, seen + 1);
  }

  lemma LogDone(views: seq<Registry>, id: JobId, budget: nat, sent: seq<JobFrame>, pre: seq<JobFrame>, since: nat, seen: nat, at: nat)
    requires History(views, id) && seen < |views| && id in views[seen].jobs && Streaming(views, id, sent, pre, since, seen, at)
    requires since <= |views[seen].jobs[id].frames| && Terminal(views[seen].jobs[id])
    ensures Ended(views, id, sent + views[seen].jobs[id].frames[since..], pre, Finished, seen + 1, budget)
  {
    NewFrames(views, id, sent, pre, since, seen, at);
    OpeningGrows(views, id, pre, seen);
    var log := views[seen].jobs[id].frames;
    SentAt(views, id, sent + log[since..], pre, seen, |log|, seen + 1);
  }

  lemma LogContinues(views: seq<Registry>, id: JobId, sent: seq<JobFrame>, pre: seq<JobFrame>, since: nat, seen: nat, at: nat)
    requires History(views, id) && seen < |views| && id in views[seen].jobs && Streaming(views, id, sent, pre, since, seen, at)
    requires since <= |views[seen].jobs[id].frames| && !Terminal(views[seen].jobs[id])
    ensures LiveAt(views, id, seen)
    ensures Streaming(views, id, sent + views[seen].jobs[id].frames[since..], pre, |views[seen].jobs[id].frames|, seen + 1, seen)
  {
    NewFrames(views, id, sent, pre, since, seen, at);
    OpeningGrows(views, id, pre, seen);
    assert Later(views, id, seen - 1, seen);
    assert LiveAt(views, id, seen - 1);
  }

  lemma OpeningGrows(views: seq<Registry>, id: JobId, pre: seq<JobFrame>, seen: nat)
    requires seen < |views| && Opening(pre, views[..seen], id)
    ensures Opening(pre, views[..seen + 1], id)
  {
    if pre != [] {
      var t :| 0 <= t < seen && id in views[..seen][t].jobs && pre[0] == SnapshotFrame(views[..seen][t].jobs[id].snapshot);
      assert views[..seen + 1][t] == views[t];
    }
  }

  lemma SentAt(views: seq<Registry>, id: JobId, sent: seq<JobFrame>, pre: seq<JobFrame>, t: nat, n: nat, seen: nat)
    requires t < seen <= |views| && id in views[t].jobs && n <= |views[t].jobs[id].frames|
    requires sent == pre + views[t].jobs[id].frames[..n]
    ensures SentFromLog(views[..seen], id, sent, pre)
  {
    assert views[..seen][t] == views[t];
  }

  /** The frames a later read adds continue the log where it was left. */
  lemma NewFrames(views: seq<Registry>, id: JobId, sent: seq<JobFrame>, pre: seq<JobFrame>, since: nat, seen: nat, at: nat)
    requires History(views, id) && seen < |views| && id in views[seen].jobs
    requires at < seen && id in views[at].jobs && since <= |views[at].jobs[id].frames|
    requires sent == pre + views[at].jobs[id].frames[..since] && NoneTerminal(sent)
    ensures var rec := views[seen].jobs[id];
            && since <= |rec.frames| && sent == pre + rec.frames[..since]
            && var more, all := rec.frames[since..], pre + rec.frames;
               && all == sent + more && rec.frames[..|rec.frames|] == rec.frames
               && (Terminal(rec) <==> more != [] && more[|more| - 1].state.IsTerminal())
               && (Terminal(rec) ==> all[|all| - 1].state == rec.snapshot.state && NoneTerminal(all[..|all| - 1]))
               && (!Terminal(rec) ==> NoneTerminal(all))
  {
    var rec := views[seen].jobs[id];
    assert Later(views, id, at, seen);
    assert rec.frames[..since] == views[at].jobs[id].frames[..since];
    LogEnds(id, rec, since, pre);
  }

  /**
   Stream job `id` until it ends. The first `budget` replies can be written.
   `pre` is the part of `sent` that is the snapshot.
   */
  method StreamJobWatch(id: JobId, views: seq<Registry>, budget: nat)
    returns (sent: seq<JobFrame>, pre: seq<JobFrame>, end: StreamEnd, seen: nat)
    requires views != [] && id in views[0].jobs ==> History(views, id)
    ensures |sent| <= budget && seen <= |views|
    ensures views != [] ==> Ended(views, id, sent, pre, end, seen, budget)
    ensures views == [] ==> end.Watching? && sent == []
    ensures views != [] && id !in views[0].jobs ==> sent == []
  {
    sent, pre, end, seen := [], [], Watching, 0;
    if |views| == 0 {
      return;
    }
    seen := 1;
    if SnapshotOf(views[0], id).None? {
      end := NotFound;
      return;
    }
    var since := 0;
    ghost var at := 0;
    while seen < |views|
      invariant 0 < seen <= |views| && |sent| <= budget && end.Watching?
      invariant Streaming(views, id, sent, pre, since, seen, at)
    {
      var stop;
      sent, since, stop := SendNewFrames(id, views, budget, sent, pre, since, seen, at);
      at, seen := seen, seen + 1;
      if stop.Some? {
        end := stop.value;
        return;
      }
      if since == 0 && pre == [] {
        if seen == |views| {
          break;
        }
        var s := SnapshotOf(views[seen], id);
        assert Later(views, id, at, seen);
        seen := seen + 1;
        if s.Some? {
          if |sent| == budget {
            end := Disconnected;
            return;
          }
          at := seen - 1;
          pre := [SnapshotFrame(s.value)];
          sent := pre;
          assert views[..seen][at] == views[at];
          assert Opening(pre, views[..seen], id);
          if s.value.state.IsTerminal() {
            assert sent == pre + views[at].jobs[id].frames[..0];
            end := Finished;
            return;
          }
        }
      }
    }
    assert sent != [] ==> views[..seen][at] == views[at];
  }

  // ----- the client -----------------------------------------------------------

  /** What the next read of the stream yields. */
  datatype Incoming = Frame(frame: JobFrame) | Closed | Failure(error: string)

  const IDLE_ERROR := "watch idle"

  predicate Progress(e: Incoming)
  {
    e.Frame? && !e.frame.state.IsTerminal()
  }

  /** Event `k` is the first that is not a progress frame. */
  ghost predicate Decides(events: seq<Incoming>, k: nat)
  {
    k < |events| && !Progress(events[k]) && forall j :: 0 <= j < k ==> Progress(events[j])
  }

  /** What the client reports when event `k` decides. */
  ghost function Verdict(events: seq<Incoming>, k: nat): (r: Result<Option<JobFrame>, string>)
    requires Decides(events, k)
  {
    match events[k]
    case Frame(f) => Ok(Some(f))
    case Closed => Ok(if k == 0 then None else Some(events[k - 1].frame))
    case Failure(e) => Err(e)
  }

  /** Read to the terminal frame, to the close, or to an error. */
  method DrainWith(events: seq<Incoming>) returns (r: Result<Option<JobFrame>, string>, shown: seq<JobFrame>)
    ensures forall k: nat :: Decides(events, k) ==>
                          && |shown| == (if events[k].Frame? then k + 1 else k)
                          && (forall j :: 0 <= j < |shown| ==> events[j] == Frame(shown[j]))
                          && r == Verdict(events, k)
    ensures (forall j :: 0 <= j < |events| ==> Progress(events[j])) ==> r == Err(IDLE_ERROR)
  {
    var last: Option<JobFrame> := None;
    shown := [];
    var i := 0;
    while i < |events|
      invariant 0 <= i <= |events| && |shown| == i
      invariant forall j :: 0 <= j < i ==> Progress(events[j]) && events[j] == Frame(shown[j])
      invariant last == if i == 0 then None else Some(events[i - 1].frame)
    {
      match events[i] {
        case Failure(e) =>
          return Err(e), shown;
        case Closed =>
          return Ok(last), shown;
        case Frame(frame) =>
          shown := shown + [frame];
          last := Some(frame);
          if frame.state.IsTerminal() {
            return Ok(last), shown;
          }
      }
      i := i + 1;
    }
    r := Err(IDLE_ERROR);
  }

  datatype ExitStatus = Success | JobEnded(state: JobState, detail: Option<string>) | Truncated

  /** Exit status of the command-line client. */
  function ExitOf(last: Option<JobFrame>): (e: ExitStatus)
  {
    match last
    case None => Truncated
    case Some(f) =>
      match f.state
      case Done => Success
      case Failed => JobEnded(f.state, f.detail)
      case Cancelled => JobEnded(f.state, f.detail)
      case _ => Truncated
  }

  function Delivered(sent: seq<JobFrame>): (events: seq<Incoming>)
    ensures |events| == |sent| && forall i :: 0 <= i < |sent| ==> events[i] == Frame(sent[i])
  {
    seq(|sent|, i requires 0 <= i < |sent| => Frame(sent[i]))
  }

  lemma LastDecides(sent: seq<JobFrame>, rest: seq<Incoming>)
    requires sent != [] && sent[|sent| - 1].state.IsTerminal() && NoneTerminal(sent[..|sent| - 1])
    ensures var events, k := Delivered(sent) + rest, |sent| - 1;
            && Decides(events, k) && events[k] == Frame(sent[k])
  {
    var events, k := Delivered(sent) + rest, |sent| - 1;
    forall j | 0 <= j < k ensures Progress(events[j]) {
      assert events[j] == Frame(sent[j]) && sent[..k][j] == sent[j];
    }
  }

  /** Some read shows the job in this state. */
  ghost predicate SeenAs(views: seq<Registry>, id: JobId, state: JobState)
  {
    exists t :: 0 <= t < |views| && id in views[t].jobs && views[t].jobs[id].snapshot.state == state
  }

  /** A terminal state that was sent is the job's state at some read. */
  lemma SentState(views: seq<Registry>, id: JobId, sent: seq<JobFrame>, pre: seq<JobFrame>, k: nat)
    requires Opening(pre, views, id) && SentFromLog(views, id, sent, pre) && k < |sent| && sent[k].state.IsTerminal()
    requires forall t :: 0 <= t < |views| && id in views[t].jobs ==> WellLogged(id, views[t].jobs[id])
    ensures SeenAs(views, id, sent[k].state)
  {
    var t, n :| 0 <= t < |views| && id in views[t].jobs && 0 <= n <= |views[t].jobs[id].frames|
                && sent == pre + views[t].jobs[id].frames[..n];
    if k >= |pre| {
      assert sent[k] == views[t].jobs[id].frames[k - |pre|];
    } else {
      var u :| 0 <= u < |views| && id in views[u].jobs && pre[0] == SnapshotFrame(views[u].jobs[id].snapshot);
      assert sent[k] == pre[0];
    }
  }

  lemma {:induction false} SomeDecides(events: seq<Incoming>, k: nat)
    requires k <= |events| && forall j :: 0 <= j < k ==> Progress(events[j])
    ensures (exists i: nat :: Decides(events, i)) || forall j :: 0 <= j < |events| ==> Progress(events[j])
    decreases |events| - k
  {
    if k < |events| {
      if Progress(events[k]) {
        SomeDecides(events, k + 1);
      } else {
        assert Decides(events, k);
      }
    }
  }

  ghost predicate NoFrames(rest: seq<Incoming>)
  {
    forall j :: 0 <= j < |rest| ==> !rest[j].Frame?
  }

  /** A terminal frame that the client ends with is one that was sent. */
  lemma VerdictSent(sent: seq<JobFrame>, rest: seq<Incoming>, r: Result<Option<JobFrame>, string>)
    requires var events := Delivered(sent) + rest;
             && (forall k: nat :: Decides(events, k) ==> r == Verdict(events, k))
             && ((forall j :: 0 <= j < |events| ==> Progress(events[j])) ==> r == Err(IDLE_ERROR))
    requires NoFrames(rest) && r.Ok? && r.value.Some? && r.value.value.state.IsTerminal()
    ensures r.value.value in sent
  {
    var events := Delivered(sent) + rest;
    SomeDecides(events, 0);
    var k: nat :| Decides(events, k);
    assert k < |sent| ==> events[k] == Frame(sent[k]);
  }

  /**
   Watching a job: whatever the interleaving, after a normal end the client's exit status
   says exactly whether the job is Done in the registry; and however the stream ends, a
   status of success or failure is one that some read of the registry showed.
   */
  method WatchToExit(id: JobId, views: seq<Registry>, budget: nat, rest: seq<Incoming>)
    returns (status: Result<ExitStatus, string>, end: StreamEnd, seen: nat)
    requires views != [] && id in views[0].jobs ==> History(views, id)
    ensures seen <= |views|
    ensures end.Finished? ==>
              && 0 < seen && id in views[seen - 1].jobs && Terminal(views[seen - 1].jobs[id])
              && (status == Ok(Success) <==> views[seen - 1].jobs[id].snapshot.state.Done?)
              && (status.Ok? && (status.value.JobEnded? <==> !views[seen - 1].jobs[id].snapshot.state.Done?))
    ensures NoFrames(rest) && status == Ok(Success) ==> SeenAs(views[..seen], id, Done)
    ensures NoFrames(rest) && status.Ok? && status.value.JobEnded? ==>
              status.value.state.IsTerminal() && SeenAs(views[..seen], id, status.value.state)
  {
    var sent, pre, e, n := StreamJobWatch(id, views, budget);
    end, seen := e, n;
    var events := Delivered(sent) + rest;
    var r, shown := DrainWith(events);
    if end.Finished? {
      LastDecides(sent, rest);
      assert Decides(events, |sent| - 1);
      assert r == Ok(Some(sent[|sent| - 1]));
    }
    match r {
      case Err(x) => status := Err(x);
      case Ok(last) => status := Ok(ExitOf(last));
    }
    if NoFrames(rest) && r.Ok? && r.value.Some? && r.value.value.state.IsTerminal() {
      VerdictSent(sent, rest, r);
      LastSeen(views, id, sent, pre, end, seen, budget, r.value.value);
    }
  }

  lemma LastSeen(views: seq<Registry>, id: JobId, sent: seq<JobFrame>, pre: seq<JobFrame>, end: StreamEnd, seen: nat, budget: nat, last: JobFrame)
    requires views != [] && History(views, id) && Ended(views, id, sent, pre, end, seen, budget)
    requires last in sent && last.state.IsTerminal()
    ensures SeenAs(views[..seen], id, last.state)
  {
    var k :| 0 <= k < |sent| && sent[k] == last;
    LoggedReads(views, id, seen);
    SentState(views[..seen], id, sent, pre, k);
  }

  lemma LoggedReads(views: seq<Registry>, id: JobId, seen: nat)
    requires History(views, id) && seen <= |views|
    ensures forall t :: 0 <= t < seen && id in views[..seen][t].jobs ==> WellLogged(id, views[..seen][t].jobs[id])
  {
    forall t | 0 <= t < seen && id in views[..seen][t].jobs ensures WellLogged(id, views[..seen][t].jobs[id]) {
      assert Later(views, id, t, t);
    }
  }

  // ----- runs give histories ---------------------------------------------------

  /** The reads of a watcher beside a run, at the moments `at`. */
  function ReadsOf(ss: seq<System>, at: seq<nat>): (views: seq<Registry>)
    requires forall t :: 0 <= t < |at| ==> at[t] < |ss|
    ensures |views| == |at| && forall t :: 0 <= t < |at| ==> views[t] == ss[at[t]].reg
  {
    seq(|at|, t requires 0 <= t < |at| => ss[at[t]].reg)
  }

  lemma LoggedAt(ss: seq<System>, i: nat, id: JobId)
    requires Run(ss) && i < |ss| && id in ss[i].reg.jobs
    ensures WellLogged(id, ss[i].reg.jobs[id]) && 1 <= id <= ss[i].reg.issued
  {
    Reachable(ss, i);
  }

  /** Every watcher of a job that exists when it starts sees a history, in every run. */
  lemma RunGivesHistory(ss: seq<System>, at: seq<nat>, id: JobId)
    requires Run(ss) && |at| > 0 && forall t :: 0 <= t < |at| ==> at[t] < |ss|
    requires forall a, b :: 0 <= a <= b < |at| ==> at[a] <= at[b]
    requires id in ss[at[0]].reg.jobs
    ensures History(ReadsOf(ss, at), id)
  {
    var views := ReadsOf(ss, at);
    LoggedAt(ss, at[0], id);
    forall a, b | 0 <= a <= b < |views|
      ensures Later(views, id, a, b)
    {
      if id in views[b].jobs {
        LoggedAt(ss, at[b], id);
        RunEvolves(ss, at[0], at[a]);
        RunEvolves(ss, at[a], at[b]);
      }
    }
  }

  /** The terminal state a watcher reports is the job's state for the rest of the run. */
  lemma TerminalForGood(ss: seq<System>, i: nat, j: nat, id: JobId)
    requires Run(ss) && i <= j < |ss|
    requires id in ss[i].reg.jobs && Terminal(ss[i].reg.jobs[id]) && id in ss[j].reg.jobs
    ensures ss[j].reg.jobs[id].snapshot == ss[i].reg.jobs[id].snapshot
    ensures ss[j].reg.jobs[id].frames == ss[i].reg.jobs[id].frames
  {
    RunEvolves(ss, i, j);
    assert Grows(ss[i].reg.jobs[id], ss[j].reg.jobs[id]);
  }

  ghost predicate Ordered(ss: seq<System>, at: seq<nat>)
  {
    && (forall t :: 0 <= t < |at| ==> at[t] < |ss|)
    && forall a, b :: 0 <= a <= b < |at| ==> at[a] <= at[b]
  }

  /** From moment `i` on the job is in this state wherever it is still kept. */
  ghost predicate StaysAs(ss: seq<System>, i: nat, id: JobId, state: JobState)
  {
    forall j :: i <= j < |ss| && id in ss[j].reg.jobs ==> ss[j].reg.jobs[id].snapshot.state == state
  }

  /** The job is in this state at one of these moments, and for good. */
  ghost predicate ReachedBy(ss: seq<System>, at: seq<nat>, id: JobId, state: JobState)
    requires Ordered(ss, at)
  {
    exists t :: 0 <= t < |at| && id in ss[at[t]].reg.jobs && ss[at[t]].reg.jobs[id].snapshot.state == state
                && StaysAs(ss, at[t], id, state)
  }

  lemma ForGood(ss: seq<System>, i: nat, id: JobId)
    requires Run(ss) && i < |ss| && id in ss[i].reg.jobs && Terminal(ss[i].reg.jobs[id])
    ensures StaysAs(ss, i, id, ss[i].reg.jobs[id].snapshot.state)
  {
    forall j | i <= j < |ss| && id in ss[j].reg.jobs
      ensures ss[j].reg.jobs[id].snapshot.state == ss[i].reg.jobs[id].snapshot.state
    {
      TerminalForGood(ss, i, j, id);
    }
  }

  lemma SeenIsReached(ss: seq<System>, at: seq<nat>, seen: nat, id: JobId, state: JobState)
    requires Run(ss) && Ordered(ss, at) && seen <= |at| && state.IsTerminal()
    requires SeenAs(ReadsOf(ss, at)[..seen], id, state)
    ensures Ordered(ss, at[..seen]) && ReachedBy(ss, at[..seen], id, state)
  {
    var views := ReadsOf(ss, at)[..seen];
    var t :| 0 <= t < |views| && id in views[t].jobs && views[t].jobs[id].snapshot.state == state;
    assert views[t] == ss[at[t]].reg && at[..seen][t] == at[t];
    ForGood(ss, at[t], id);
  }

  /**
   The same beside any run, with reads at any ordered moments, for any name: what the
   client's exit status says of the job's end is so in the registry, and stays so.
   */
  method WatchRun(ss: seq<System>, at: seq<nat>, id: JobId, budget: nat, rest: seq<Incoming>)
    returns (status: Result<ExitStatus, string>, end: StreamEnd, seen: nat)
    requires Run(ss) && Ordered(ss, at)
    ensures seen <= |at| && Ordered(ss, at[..seen])
    ensures end.Finished? ==>
              && 0 < seen && id in ss[at[seen - 1]].reg.jobs
              && var state := ss[at[seen - 1]].reg.jobs[id].snapshot.state;
                 && state.IsTerminal() && StaysAs(ss, at[seen - 1], id, state)
                 && (status == Ok(Success) <==> state.Done?)
                 && (status.Ok? && (status.value.JobEnded? <==> !state.Done?))
    ensures NoFrames(rest) && status == Ok(Success) ==> ReachedBy(ss, at[..seen], id, Done)
    ensures NoFrames(rest) && status.Ok? && status.value.JobEnded? ==> ReachedBy(ss, at[..seen], id, status.value.state)
  {
    var views := ReadsOf(ss, at);
    if views != [] && id in views[0].jobs {
      RunGivesHistory(ss, at, id);
    }
    status, end, seen := WatchToExit(id, views, budget, rest);
    if end.Finished? {
      ForGood(ss, at[seen - 1], id);
    }
    if NoFrames(rest) && status == Ok(Success) {
      SeenIsReached(ss, at, seen, id, Done);
    }
    if NoFrames(rest) && status.Ok? && status.value.JobEnded? {
      SeenIsReached(ss, at, seen, id, status.value.state);
    }
  }
}
