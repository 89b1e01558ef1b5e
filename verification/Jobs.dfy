/**
 The single-slot job registry (`jobs.rs`).

 `Registry` is the value behind the daemon's mutex; the functions and relations
 on it are the specification of one locked operation each, and the class
 `JobRegistry` performs them in place.
 */
module Jobs {
  import opened Prelude
  import opened Text

  /**
   The number `n` in the name `job-n`. `JobNameInjective` justifies keying the
   registry by it; a name of any other form is a number never issued.
   */
  type JobId = nat

  /** Bound on the history that eviction restores. */
  const MAX_JOB_HISTORY: nat := 32

  datatype JobState =
    | Queued | Joining | Probing | Writing | Verifying | Restarting
    | Done | Failed | Cancelled
  {
    predicate IsTerminal() { Done? || Failed? || Cancelled? }
  }

  datatype JobPayload = Program(request: string) | Firmware(image: string)

  datatype JobSnapshot = JobSnapshot(
    id: JobId, state: JobState, driver: string, key: string,
    detail: Option<string>, createdAt: nat)

  datatype JobFrame = JobFrame(
    id: JobId, state: JobState, step: Option<string>,
    progress: Option<nat>, detail: Option<string>)

  datatype JobRecord = JobRecord(
    snapshot: JobSnapshot, frames: seq<JobFrame>, cancel: bool,
    payload: Option<JobPayload>)

  datatype Registry = Registry(active: Option<JobId>, jobs: map<JobId, JobRecord>, issued: nat)

  datatype JobError = Busy(holder: JobId)

  const EMPTY := Registry(None, map[], 0)
  const CANCEL_REQUESTED := "cancel requested"

  function JobName(n: JobId): (name: string)
  {
    "job-" + Decimal(n)
  }

  lemma JobNameInjective(a: JobId, b: JobId)
    requires JobName(a) == JobName(b)
    ensures a == b
  {
    assert Decimal(a) == JobName(a)[4..] == JobName(b)[4..] == Decimal(b);
    DecimalInjective(a, b);
  }

  // ----- specification of each locked operation ----------------------------

  function FreshRecord(id: JobId, driver: string, key: string, payload: Option<JobPayload>, now: nat): (rec: JobRecord)
  {
    JobRecord(JobSnapshot(id, Queued, driver, key, None, now), [], false, payload)
  }

  function Submitted(r: Registry, driver: string, key: string, payload: Option<JobPayload>, now: nat)
    : (out: (Registry, Result<JobId, JobError>))
  {
    match r.active
    case Some(holder) => (r, Err(Busy(holder)))
    case None =>
      var id := r.issued + 1;
      (Registry(Some(id), r.jobs[id := FreshRecord(id, driver, key, payload, now)], r.issued + 1), Ok(id))
  }

  function PayloadOf(r: Registry, id: JobId): (p: Option<JobPayload>)
  {
    if id in r.jobs then r.jobs[id].payload else None
  }

  function PayloadTaken(r: Registry, id: JobId): (r': Registry)
  {
    if id in r.jobs then r.(jobs := r.jobs[id := r.jobs[id].(payload := None)]) else r
  }

  function Logged(rec: JobRecord, f: JobFrame): (rec': JobRecord)
  {
    rec.(snapshot := rec.snapshot.(state := f.state,
                                   detail := if f.detail.Some? then f.detail else rec.snapshot.detail),
         frames := rec.frames + [f])
  }

  function TerminalIds(r: Registry): (ids: set<JobId>)
  {
    set id | id in r.jobs && r.jobs[id].snapshot.state.IsTerminal() && r.active != Some(id)
  }

  function Overflow(r: Registry): (n: nat)
  {
    if |r.jobs| > MAX_JOB_HISTORY then |r.jobs| - MAX_JOB_HISTORY else 0
  }

  /** `victims` are as many of the oldest terminal jobs as the history is over-full. */
  ghost predicate Oldest(r: Registry, victims: set<JobId>)
  {
    && victims <= TerminalIds(r)
    && |victims| == Min(Overflow(r), |TerminalIds(r)|)
    && forall a, b :: a in victims && b in TerminalIds(r) - victims ==>
         r.jobs[a].snapshot.createdAt <= r.jobs[b].snapshot.createdAt
  }

  /** Eviction. Which of two equally old jobs goes first depends on hash order. */
  ghost predicate EvictedTo(r: Registry, r': Registry)
  {
    && r'.active == r.active && r'.issued == r.issued
    && (forall id :: id in r'.jobs ==> id in r.jobs && r'.jobs[id] == r.jobs[id])
    && Oldest(r, r.jobs.Keys - r'.jobs.Keys)
  }

  /** Effect of `transition` with frame `f`. */
  ghost predicate TransitionTo(r: Registry, f: JobFrame, r': Registry)
  {
    if f.id !in r.jobs then r' == r
    else
      var r1 := r.(jobs := r.jobs[f.id := Logged(r.jobs[f.id], f)]);
      if f.state.IsTerminal() then EvictedTo(r1.(active := None), r') else r' == r1
  }

  function CancelFrame(id: JobId, rec: JobRecord): (f: JobFrame)
  {
    JobFrame(id, rec.snapshot.state, None, None, Some(CANCEL_REQUESTED))
  }

  function CancelledRecord(id: JobId, rec: JobRecord): (rec': JobRecord)
  {
    if rec.snapshot.state.IsTerminal() then rec.(cancel := true)
    else Logged(rec, CancelFrame(id, rec)).(cancel := true)
  }

  function CancelRequested(r: Registry, id: JobId): (r': Registry)
  {
    if id in r.jobs then r.(jobs := r.jobs[id := CancelledRecord(id, r.jobs[id])]) else r
  }

  predicate IsCancelled(r: Registry, id: JobId)
  {
    id in r.jobs && r.jobs[id].cancel
  }

  function SnapshotOf(r: Registry, id: JobId): (s: Option<JobSnapshot>)
  {
    if id in r.jobs then Some(r.jobs[id].snapshot) else None
  }

  function FramesSince(r: Registry, id: JobId, since: nat): (fs: Option<seq<JobFrame>>)
  {
    if id !in r.jobs then None
    else
      var frames := r.jobs[id].frames;
      Some(if since <= |frames| then frames[since..] else [])
  }

  // ----- the registry object ------------------------------------------------

  function Age(jobs: map<JobId, JobRecord>, id: JobId): (t: nat)
  {
    if id in jobs then jobs[id].snapshot.createdAt else 0
  }

  ghost predicate SortedByAge(ids: seq<JobId>, jobs: map<JobId, JobRecord>)
  {
    forall i, j :: 0 <= i < j < |ids| ==> Age(jobs, ids[i]) <= Age(jobs, ids[j])
  }

  /** The first `n` elements of `ids`, as a set. */
  ghost function First(ids: seq<JobId>, n: nat): (all: set<JobId>)
    requires n <= |ids|
  {
    if n == 0 then {} else First(ids, n - 1) + {ids[n - 1]}
  }

  lemma {:induction false} FirstContains(ids: seq<JobId>, n: nat, x: JobId)
    requires n <= |ids|
    ensures x in First(ids, n) <==> exists i :: 0 <= i < n && ids[i] == x
  {
    if n > 0 {
      FirstContains(ids, n - 1, x);
    }
  }

  lemma ListedOnce(ids: seq<JobId>, all: set<JobId>, i: nat, j: nat)
    requires multiset(ids) == multiset(all) && i < j < |ids|
    ensures ids[i] != ids[j]
  {
    assert ids == ids[..i] + [ids[i]] + ids[i + 1..j] + [ids[j]] + ids[j + 1..];
    assert multiset(ids) == multiset(ids[..i]) + multiset{ids[i]} + multiset(ids[i + 1..j]) + multiset{ids[j]} + multiset(ids[j + 1..]);
    assert multiset(all)[ids[i]] <= 1;
  }

  /** When `ids` lists a set without repetition, its first `n` elements are `n` members of it. */
  lemma {:induction false} FirstOfSet(ids: seq<JobId>, all: set<JobId>, n: nat)
    requires n <= |ids| && multiset(ids) == multiset(all)
    ensures First(ids, n) <= all && |First(ids, n)| == n
  {
    if n > 0 {
      FirstOfSet(ids, all, n - 1);
      var x := ids[n - 1];
      assert x in multiset(ids);
      assert x !in First(ids, n - 1) by {
        FirstContains(ids, n - 1, x);
        forall i | 0 <= i < n - 1 ensures ids[i] != x { ListedOnce(ids, all, i, n - 1); }
      }
    }
  }

  /** The first `n` of the terminal jobs sorted by age are the ones to evict. */
  lemma FirstAreOldest(r: Registry, sorted: seq<JobId>, n: nat)
    requires multiset(sorted) == multiset(TerminalIds(r)) && SortedByAge(sorted, r.jobs)
    requires n == Min(Overflow(r), |sorted|)
    ensures Oldest(r, First(sorted, n))
  {
    var victims, all := First(sorted, n), TerminalIds(r);
    FirstOfSet(sorted, all, n);
    assert |sorted| == |multiset(sorted)| == |all|;
    forall a, b | a in victims && b in all - victims
      ensures r.jobs[a].snapshot.createdAt <= r.jobs[b].snapshot.createdAt
    {
      FirstContains(sorted, n, a);
      FirstContains(sorted, n, b);
      var p :| 0 <= p < n && sorted[p] == a;
      assert b in multiset(sorted);
      var q :| 0 <= q < |sorted| && sorted[q] == b;
      assert Age(r.jobs, sorted[p]) <= Age(r.jobs, sorted[q]);
    }
  }

  lemma RemovedTwice<V>(m: map<JobId, V>, a: set<JobId>, b: set<JobId>)
    ensures (m - a) - b == m - (a + b)
  {
    assert ((m - a) - b).Keys == (m - (a + b)).Keys;
  }

  lemma InsertedInOrder(sorted: seq<JobId>, at: nat, id: JobId, jobs: map<JobId, JobRecord>)
    requires at <= |sorted| && SortedByAge(sorted, jobs)
    requires at > 0 ==> Age(jobs, sorted[at - 1]) <= Age(jobs, id)
    requires forall k :: at <= k < |sorted| ==> Age(jobs, id) <= Age(jobs, sorted[k])
    ensures SortedByAge(sorted[..at] + [id] + sorted[at..], jobs)
  {
    var out := sorted[..at] + [id] + sorted[at..];
    forall i, j | 0 <= i < j < |out|
      ensures Age(jobs, out[i]) <= Age(jobs, out[j])
    {
      assert out[i] == if i < at then sorted[i] else if i == at then id else sorted[i - 1];
      assert out[j] == if j < at then sorted[j] else if j == at then id else sorted[j - 1];
      if i < at && 0 < at {
        assert Age(jobs, sorted[i]) <= Age(jobs, sorted[at - 1]);
      }
    }
  }

  class JobRegistry {
    var active: Option<JobId>
    var jobs: map<JobId, JobRecord>
    var issued: nat

    ghost function State(): (r: Registry)
      reads this
    {
      Registry(active, jobs, issued)
    }

    constructor ()
      ensures State() == EMPTY
    {
      active, jobs, issued := None, map[], 0;
    }

    /** Start a job and store its payload, unless one is active. */
    method Submit(driver: string, key: string, payload: Option<JobPayload>, now: nat)
      returns (r: Result<JobId, JobError>)
      modifies this
      ensures (State(), r) == Submitted(old(State()), driver, key, payload, now)
    {
      if active.Some? {
        return Err(Busy(active.value));
      }
      issued := issued + 1;
      var id := issued;
      active := Some(id);
      jobs := jobs[id := FreshRecord(id, driver, key, payload, now)];
      r := Ok(id);
    }

    /** The worker pulls the payload once. */
    method TakePayload(id: JobId) returns (p: Option<JobPayload>)
      modifies this`jobs
      ensures p == PayloadOf(old(State()), id)
      ensures State() == PayloadTaken(old(State()), id)
    {
      if id !in jobs {
        return None;
      }
      p := jobs[id].payload;
      jobs := jobs[id := jobs[id].(payload := None)];
    }

    /** Push a state transition and its frame; a terminal state frees the slot. */
    method Transition(id: JobId, state: JobState, step: Option<string>, progress: Option<nat>, detail: Option<string>)
      modifies this
      ensures TransitionTo(old(State()), JobFrame(id, state, step, progress, detail), State())
    {
      if id in jobs {
        var rec := jobs[id];
        var snapshot := rec.snapshot.(state := state);
        if detail.Some? {
          snapshot := snapshot.(detail := detail);
        }
        var frame := JobFrame(id, state, step, progress, detail);
        rec := rec.(snapshot := snapshot, frames := rec.frames + [frame]);
        assert rec == Logged(jobs[id], frame);
        jobs := jobs[id := rec];
        if state.IsTerminal() {
          active := None;
          assert State() == Registry(None, old(jobs)[id := rec], issued);
          EvictOldJobs();
        }
      }
    }

    /** Request cancellation. Neither frees the slot nor ends the job. */
    method Cancel(id: JobId)
      modifies this`jobs
      ensures State() == CancelRequested(old(State()), id)
    {
      if id !in jobs {
        return;
      }
      var rec := jobs[id];
      if rec.snapshot.state.IsTerminal() {
        jobs := jobs[id := rec.(cancel := true)];
        return;
      }
      rec := rec.(cancel := true, snapshot := rec.snapshot.(detail := Some(CANCEL_REQUESTED)));
      var frame := JobFrame(id, rec.snapshot.state, None, None, Some(CANCEL_REQUESTED));
      jobs := jobs[id := rec.(frames := rec.frames + [frame])];
    }

    method ReadFramesSince(id: JobId, since: nat) returns (fs: Option<seq<JobFrame>>)
      ensures fs == FramesSince(State(), id, since)
    {
      if id !in jobs {
        return None;
      }
      var out := [];
      var i := since;
      while i < |jobs[id].frames|
        invariant i >= since
        invariant since <= |jobs[id].frames| ==> i <= |jobs[id].frames| && out == jobs[id].frames[since..i]
        invariant since > |jobs[id].frames| ==> out == []
      {
        out := out + [jobs[id].frames[i]];
        i := i + 1;
      }
      assert since <= |jobs[id].frames| ==> jobs[id].frames[since..i] == jobs[id].frames[since..];
      fs := Some(out);
    }

    /** Drop the oldest terminal jobs once the history is over-full. */
    method EvictOldJobs()
      modifies this`jobs
      ensures EvictedTo(old(State()), State())
    {
      var over := if |jobs| > MAX_JOB_HISTORY then |jobs| - MAX_JOB_HISTORY else 0;
      if over == 0 {
        assert jobs.Keys - jobs.Keys == {};
        return;
      }
      var terminal := CollectTerminal();
      terminal := SortByAge(terminal);
      var n := Min(over, |terminal|);
      FirstAreOldest(State(), terminal, n);
      RemoveFirst(terminal, n);
      assert old(jobs).Keys - jobs.Keys == First(terminal, n);
    }

    method RemoveFirst(ids: seq<JobId>, n: nat)
      requires n <= |ids|
      modifies this`jobs
      ensures jobs == old(jobs) - First(ids, n)
    {
      var i := 0;
      ghost var before, gone := jobs, {};
      while i < n
        invariant i <= n && gone == First(ids, i)
        invariant jobs == before - gone
      {
        RemovedTwice(before, gone, {ids[i]});
        jobs, gone := jobs - {ids[i]}, gone + {ids[i]};
        i := i + 1;
      }
    }

    /** The terminal, non-active ids, in the map's iteration order. */
    method CollectTerminal() returns (out: seq<JobId>)
      ensures multiset(out) == multiset(TerminalIds(State()))
    {
      out := [];
      var todo := jobs.Keys;
      assert TerminalIds(State()) - todo == {};
      while todo != {}
        invariant todo <= jobs.Keys
        invariant multiset(out) == multiset(TerminalIds(State()) - todo)
        decreases todo
      {
        var id :| id in todo;
        ghost var before := TerminalIds(State()) - todo;
        todo := todo - {id};
        if jobs[id].snapshot.state.IsTerminal() && active != Some(id) {
          assert TerminalIds(State()) - todo == before + {id};
          out := out + [id];
        } else {
          assert TerminalIds(State()) - todo == before;
        }
      }
      assert TerminalIds(State()) - todo == TerminalIds(State());
    }

    /** Stable insertion sort by creation time. */
    method SortByAge(ids: seq<JobId>) returns (out: seq<JobId>)
      ensures multiset(out) == multiset(ids) && SortedByAge(out, jobs)
    {
      out := [];
      var i := 0;
      while i < |ids|
        invariant i <= |ids|
        invariant multiset(out) == multiset(ids[..i]) && SortedByAge(out, jobs)
      {
        assert ids[..i + 1] == ids[..i] + [ids[i]];
        out := InsertByAge(out, ids[i]);
        i := i + 1;
      }
      assert ids[..|ids|] == ids;
    }

    method InsertByAge(sorted: seq<JobId>, id: JobId) returns (out: seq<JobId>)
      requires SortedByAge(sorted, jobs)
      ensures multiset(out) == multiset(sorted) + multiset{id} && SortedByAge(out, jobs)
    {
      var at := InsertionPoint(sorted, id);
      out := sorted[..at] + [id] + sorted[at..];
      assert sorted == sorted[..at] + sorted[at..];
      InsertedInOrder(sorted, at, id, jobs);
    }

    method InsertionPoint(sorted: seq<JobId>, id: JobId) returns (at: nat)
      ensures at <= |sorted|
      ensures at > 0 ==> Age(jobs, sorted[at - 1]) <= Age(jobs, id)
      ensures forall k :: at <= k < |sorted| ==> Age(jobs, id) <= Age(jobs, sorted[k])
    {
      at := |sorted|;
      while at > 0 && Age(jobs, sorted[at - 1]) > Age(jobs, id)
        invariant at <= |sorted|
        invariant forall k :: at <= k < |sorted| ==> Age(jobs, id) <= Age(jobs, sorted[k])
      {
        at := at - 1;
      }
    }
  }
}
