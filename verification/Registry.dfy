/**
 What every locked registry operation keeps. `transition` itself would clear the
 slot for any job id, so its lemmas ask for the job that holds the slot; the
 module `Daemon` shows that no other job is ever transitioned.
 */
module RegistryInvariants {
  import opened Prelude
  import opened Jobs

  predicate Terminal(rec: JobRecord) { rec.snapshot.state.IsTerminal() }

  /** The snapshot repeats the last frame, and only the last frame may be terminal. */
  ghost predicate WellLogged(id: JobId, rec: JobRecord)
  {
    && rec.snapshot.id == id
    && rec.snapshot.state == (if rec.frames == [] then Queued else rec.frames[|rec.frames| - 1].state)
    && (forall i :: 0 <= i < |rec.frames| ==> rec.frames[i].id == id)
    && forall i :: 0 <= i < |rec.frames| - 1 ==> !rec.frames[i].state.IsTerminal()
  }

  ghost predicate Logs(r: Registry)
  {
    forall id :: id in r.jobs ==> WellLogged(id, r.jobs[id])
  }

  /** `active` names the one job that has not finished. */
  ghost predicate Slot(r: Registry)
  {
    && (r.active.Some? ==> r.active.value in r.jobs)
    && forall id :: id in r.jobs ==> (!Terminal(r.jobs[id]) <==> r.active == Some(id))
  }

  ghost predicate Names(r: Registry)
  {
    && (forall id :: id in r.jobs ==> 1 <= id <= r.issued)
    && (r.active.Some? ==> r.active.value == r.issued)
  }

  /** At most 32 finished jobs beside the running one. */
  ghost predicate Bounded(r: Registry)
  {
    |r.jobs| <= MAX_JOB_HISTORY + (if r.active.Some? then 1 else 0)
  }

  ghost predicate RegInv(r: Registry)
  {
    Logs(r) && Slot(r) && Names(r) && Bounded(r)
  }

  /** How one job's record may change from one moment to a later one. */
  ghost predicate Grows(a: JobRecord, b: JobRecord)
  {
    && b.snapshot == a.snapshot.(state := b.snapshot.state, detail := b.snapshot.detail)
    && a.frames <= b.frames
    && (a.cancel ==> b.cancel)
    && (b.payload == a.payload || b.payload.None?)
    && (Terminal(a) ==> b.frames == a.frames && b.snapshot == a.snapshot)
  }

  /** Old records grow or vanish, and every new name is one never issued before. */
  ghost predicate Evolves(r: Registry, r': Registry)
  {
    && r.issued <= r'.issued
    && (forall id :: id in r.jobs && id in r'.jobs ==> Grows(r.jobs[id], r'.jobs[id]))
    && forall id :: id in r'.jobs && id !in r.jobs ==> id > r.issued
  }

  lemma EvolvesTransitive(a: Registry, b: Registry, c: Registry)
    requires Names(a) && Names(b) && Evolves(a, b) && Evolves(b, c)
    ensures Evolves(a, c)
  {
    forall id | id in a.jobs && id in c.jobs
      ensures Grows(a.jobs[id], c.jobs[id])
    {
      assert id in b.jobs;
      assert Grows(a.jobs[id], b.jobs[id]) && Grows(b.jobs[id], c.jobs[id]);
    }
  }

  lemma SubmitAccepted(r: Registry, driver: string, key: string, payload: Option<JobPayload>, now: nat)
    requires RegInv(r) && r.active.None?
    ensures var r' := Submitted(r, driver, key, payload, now).0; RegInv(r') && Evolves(r, r')
  {
    KeysOfInsert(r.jobs, r.issued + 1, FreshRecord(r.issued + 1, driver, key, payload, now));
    SubmitRecords(r, driver, key, payload, now);
  }

  /** `submit` refuses while a job is active and otherwise issues a name never used before. */
  lemma SubmitKeeps(r: Registry, driver: string, key: string, payload: Option<JobPayload>, now: nat)
    requires RegInv(r)
    ensures var (r', res) := Submitted(r, driver, key, payload, now);
            RegInv(r') && Evolves(r, r')
            && (res.Ok? <==> r.active.None?) && (res.Err? ==> r' == r)
            && (res.Ok? ==> r'.active == Some(res.value) && res.value > r.issued)
  {
    if r.active.None? {
      SubmitAccepted(r, driver, key, payload, now);
    } else {
      Unchanged(r);
    }
  }

  lemma Unchanged(r: Registry)
    ensures Evolves(r, r)
  {
  }

  lemma SubmitRecords(r: Registry, driver: string, key: string, payload: Option<JobPayload>, now: nat)
    requires RegInv(r) && r.active.None?
    ensures var r' := Submitted(r, driver, key, payload, now).0;
            Logs(r') && Slot(r') && forall x :: x in r'.jobs && x in r.jobs ==> Grows(r.jobs[x], r'.jobs[x])
  {
    var (r', res) := Submitted(r, driver, key, payload, now);
    forall x | x in r'.jobs
      ensures WellLogged(x, r'.jobs[x]) && (!Terminal(r'.jobs[x]) <==> r'.active == Some(x))
      ensures x in r.jobs ==> Grows(r.jobs[x], r'.jobs[x])
    {
      if x != res.value { assert r'.jobs[x] == r.jobs[x]; }
    }
  }

  lemma KeysOfInsert(m: map<JobId, JobRecord>, id: JobId, rec: JobRecord)
    requires id !in m
    ensures m[id := rec].Keys == m.Keys + {id} && |m[id := rec]| == |m| + 1
  {
    assert m[id := rec].Keys == m.Keys + {id};
    assert |m[id := rec].Keys| == |m.Keys| + 1;
  }

  lemma LoggedGrows(id: JobId, rec: JobRecord, f: JobFrame)
    requires WellLogged(id, rec) && !Terminal(rec) && f.id == id
    ensures WellLogged(id, Logged(rec, f)) && Grows(rec, Logged(rec, f))
  {
    var rec' := Logged(rec, f);
    forall i | 0 <= i < |rec'.frames| - 1 ensures !rec'.frames[i].state.IsTerminal() {
      assert rec'.frames[i] == rec.frames[i];
    }
  }

  lemma KeysOfUpdate(m: map<JobId, JobRecord>, id: JobId, rec: JobRecord)
    requires id in m
    ensures m[id := rec].Keys == m.Keys && |m[id := rec]| == |m|
  {
    assert m[id := rec].Keys == m.Keys;
    assert |m[id := rec].Keys| == |m.Keys|;
  }

  /** Changing one record, without ending its job, keeps the registry well formed. */
  lemma OneChanged(r: Registry, id: JobId, rec: JobRecord)
    requires RegInv(r) && id in r.jobs
    requires WellLogged(id, rec) && Grows(r.jobs[id], rec) && Terminal(rec) == Terminal(r.jobs[id])
    ensures var r' := r.(jobs := r.jobs[id := rec]); RegInv(r') && Evolves(r, r')
  {
    var r' := r.(jobs := r.jobs[id := rec]);
    KeysOfUpdate(r.jobs, id, rec);
    forall x | x in r'.jobs
      ensures WellLogged(x, r'.jobs[x]) && (!Terminal(r'.jobs[x]) <==> r'.active == Some(x))
      ensures Grows(r.jobs[x], r'.jobs[x])
    {
      if x != id { assert r'.jobs[x] == r.jobs[x]; }
    }
  }

  lemma PayloadKeeps(r: Registry, id: JobId)
    requires RegInv(r)
    ensures RegInv(PayloadTaken(r, id)) && Evolves(r, PayloadTaken(r, id))
  {
    if id in r.jobs {
      OneChanged(r, id, r.jobs[id].(payload := None));
    }
  }

  /** A cancel request keeps the slot, the states and every other record. */
  lemma CancelKeeps(r: Registry, id: JobId)
    requires RegInv(r)
    ensures RegInv(CancelRequested(r, id)) && Evolves(r, CancelRequested(r, id))
    ensures CancelRequested(r, id).active == r.active
    ensures id in r.jobs ==> IsCancelled(CancelRequested(r, id), id)
    ensures forall x :: x in r.jobs ==>
                          && x in CancelRequested(r, id).jobs
                          && CancelRequested(r, id).jobs[x].snapshot.state == r.jobs[x].snapshot.state
  {
    if id in r.jobs {
      CancelledGrows(id, r.jobs[id]);
      OneChanged(r, id, CancelledRecord(id, r.jobs[id]));
    }
  }

  lemma CancelledGrows(id: JobId, rec: JobRecord)
    requires WellLogged(id, rec)
    ensures var rec' := CancelledRecord(id, rec);
            && WellLogged(id, rec') && Grows(rec, rec') && rec'.cancel
            && rec'.snapshot.state == rec.snapshot.state
  {
    if !Terminal(rec) {
      LoggedGrows(id, rec, CancelFrame(id, rec));
    }
  }

  /** The registry just after the terminal frame is logged and before eviction. */
  ghost function Finished(r: Registry, f: JobFrame): (r1: Registry)
    requires f.id in r.jobs
  {
    Registry(None, r.jobs[f.id := Logged(r.jobs[f.id], f)], r.issued)
  }

  lemma FinishedFacts(r: Registry, f: JobFrame)
    requires RegInv(r) && r.active == Some(f.id) && f.state.IsTerminal()
    ensures TerminalIds(Finished(r, f)) == r.jobs.Keys == Finished(r, f).jobs.Keys
    ensures |Finished(r, f).jobs| == |r.jobs|
  {
    var r1 := Finished(r, f);
    assert r1.jobs.Keys == r.jobs.Keys;
    assert |r1.jobs.Keys| == |r.jobs.Keys|;
    forall id | id in r.jobs ensures id in TerminalIds(r1) {
    }
  }

  lemma EvictionBounds(r1: Registry, r': Registry)
    requires TerminalIds(r1) == r1.jobs.Keys && EvictedTo(r1, r')
    ensures |r'.jobs| <= MAX_JOB_HISTORY
  {
    var victims := r1.jobs.Keys - r'.jobs.Keys;
    assert r'.jobs.Keys == r1.jobs.Keys - victims;
    assert |r'.jobs| == |r'.jobs.Keys| == |r1.jobs.Keys| - |victims|;
    assert |r1.jobs| == |r1.jobs.Keys|;
  }

  lemma EvictionKeeps(r: Registry, f: JobFrame, r': Registry)
    requires RegInv(r) && r.active == Some(f.id) && f.state.IsTerminal()
    requires EvictedTo(Finished(r, f), r')
    ensures RegInv(r') && Evolves(r, r')
  {
    FinishedFacts(r, f);
    EvictionBounds(Finished(r, f), r');
    forall x | x in r'.jobs
      ensures x in r.jobs && WellLogged(x, r'.jobs[x]) && Terminal(r'.jobs[x]) && Grows(r.jobs[x], r'.jobs[x])
    {
      FinishedRecord(r, f, x);
    }
  }

  lemma FinishedRecord(r: Registry, f: JobFrame, x: JobId)
    requires Logs(r) && Slot(r) && r.active == Some(f.id) && f.state.IsTerminal() && x in r.jobs
    ensures var rec := Finished(r, f).jobs[x];
            WellLogged(x, rec) && Terminal(rec) && Grows(r.jobs[x], rec)
  {
    LoggedGrows(f.id, r.jobs[f.id], f);
  }

  /** A transition of the job that holds the slot keeps every registry invariant. */
  lemma TransitionKeeps(r: Registry, f: JobFrame, r': Registry)
    requires RegInv(r) && r.active == Some(f.id) && TransitionTo(r, f, r')
    ensures RegInv(r') && Evolves(r, r') && r'.issued == r.issued
    ensures f.state.IsTerminal() ==> r'.active.None?
    ensures !f.state.IsTerminal() ==>
              r'.active == r.active && f.id in r'.jobs && r'.jobs[f.id] == Logged(r.jobs[f.id], f)
    ensures forall id :: id in r'.jobs ==> id in r.jobs
    ensures forall id :: id in r'.jobs && id != f.id ==> r'.jobs[id] == r.jobs[id]
    ensures f.id in r'.jobs ==> r'.jobs[f.id] == Logged(r.jobs[f.id], f)
  {
    if f.state.IsTerminal() {
      EvictionKeeps(r, f, r');
    } else {
      LoggedGrows(f.id, r.jobs[f.id], f);
      OneChanged(r, f.id, Logged(r.jobs[f.id], f));
    }
  }

  // ----- exactly which jobs stay readable ------------------------------------

  /** Creation times follow the order in which names were issued. */
  ghost predicate Aged(r: Registry)
  {
    forall a, b :: a in r.jobs && b in r.jobs && a < b ==>
        r.jobs[a].snapshot.createdAt < r.jobs[b].snapshot.createdAt
  }

  ghost function Between(low: nat, high: nat): (ids: set<JobId>)
    ensures forall k :: k in ids <==> low <= k <= high
    decreases high + 1 - low
  {
    if low > high then {} else {low} + Between(low + 1, high)
  }

  lemma {:induction false} CountBetween(low: nat, high: nat)
    requires low <= high + 1
    ensures |Between(low, high)| == high + 1 - low
    decreases high + 1 - low
  {
    if low <= high {
      CountBetween(low + 1, high);
    }
  }

  ghost function FinishedCount(r: Registry): (n: int)
  {
    if r.active.Some? then r.issued - 1 else r.issued
  }

  /** First name still kept: everything but the 32 latest finished jobs is gone. */
  ghost function FirstKept(finished: int): (k: nat)
  {
    if finished > MAX_JOB_HISTORY then finished - MAX_JOB_HISTORY + 1 else 1
  }

  /** The registry holds the last 32 finished jobs, the running job, and nothing else. */
  ghost predicate KeepsLatest(r: Registry)
  {
    HoldsRange(r, FirstKept(FinishedCount(r)))
  }

  ghost predicate HoldsRange(r: Registry, low: JobId)
  {
    forall id :: id in r.jobs <==> low <= id <= r.issued
  }

  /** With distinct creation times, eviction from an over-full history removes exactly the first name. */
  lemma EvictsFirst(r1: Registry, low: JobId, r': Registry)
    requires TerminalIds(r1) == r1.jobs.Keys && Aged(r1) && EvictedTo(r1, r')
    requires 0 < low <= r1.issued && HoldsRange(r1, low)
    requires r1.issued + 1 - low <= MAX_JOB_HISTORY + 1
    ensures HoldsRange(r', if r1.issued + 1 - low > MAX_JOB_HISTORY then low + 1 else low)
  {
    var victims := r1.jobs.Keys - r'.jobs.Keys;
    VictimCount(r1, low, victims);
    if r1.issued + 1 - low > MAX_JOB_HISTORY {
      OnlyVictim(r1, low, victims);
      RangeWithout(r1, low, {low}, r', low + 1);
    } else {
      RangeWithout(r1, low, {}, r', low);
    }
  }

  lemma RangeWithout(r1: Registry, low: JobId, victims: set<JobId>, r': Registry, low': JobId)
    requires HoldsRange(r1, low) && r'.issued == r1.issued
    requires r1.jobs.Keys - r'.jobs.Keys == victims && r'.jobs.Keys <= r1.jobs.Keys
    requires (victims == {} && low' == low) || (victims == {low} && low' == low + 1)
    ensures HoldsRange(r', low')
  {
    forall id: JobId ensures id in r'.jobs <==> id in r1.jobs && id !in victims {
      assert id in r1.jobs.Keys - r'.jobs.Keys <==> id in victims;
    }
  }

  lemma VictimCount(r1: Registry, low: JobId, victims: set<JobId>)
    requires TerminalIds(r1) == r1.jobs.Keys && Oldest(r1, victims)
    requires 0 < low <= r1.issued && HoldsRange(r1, low)
    ensures |victims| == if r1.issued + 1 - low > MAX_JOB_HISTORY then r1.issued + 1 - low - MAX_JOB_HISTORY else 0
  {
    CountBetween(low, r1.issued);
    assert r1.jobs.Keys == Between(low, r1.issued);
    assert |r1.jobs| == |r1.jobs.Keys|;
  }

  lemma OnlyVictim(r1: Registry, low: JobId, victims: set<JobId>)
    requires TerminalIds(r1) == r1.jobs.Keys && Aged(r1) && Oldest(r1, victims) && |victims| == 1
    requires low in r1.jobs && forall id :: id in r1.jobs ==> low <= id
    ensures victims == {low}
  {
    var v :| v in victims;
    assert |victims - {v}| == 0;
    assert victims == {v};
    assert low != v ==> low in TerminalIds(r1) - victims;
  }

  lemma StillAged(r: Registry, r': Registry)
    requires Aged(r)
    requires forall id :: id in r'.jobs ==>
                            && id in r.jobs
                            && r'.jobs[id].snapshot.createdAt == r.jobs[id].snapshot.createdAt
    ensures Aged(r')
  {
  }

  lemma FinishedAged(r: Registry, f: JobFrame, r': Registry)
    requires Aged(r) && f.id in r.jobs && EvictedTo(Finished(r, f), r')
    ensures Aged(Finished(r, f)) && Aged(r')
  {
    StillAged(r, Finished(r, f));
    StillAged(Finished(r, f), r');
  }

  lemma FinishedRange(r: Registry, f: JobFrame, low: JobId)
    requires f.id in r.jobs && HoldsRange(r, low)
    ensures HoldsRange(Finished(r, f), low) && Finished(r, f).jobs.Keys == r.jobs.Keys
  {
  }

  lemma LatestAfterEviction(r1: Registry, low: JobId, r': Registry)
    requires TerminalIds(r1) == r1.jobs.Keys && Aged(r1) && EvictedTo(r1, r') && r1.active.None?
    requires 0 < r1.issued && low == FirstKept(r1.issued - 1) && HoldsRange(r1, low)
    ensures KeepsLatest(r')
  {
    EvictsFirst(r1, low, r');
  }

  lemma FinishKeepsLatest(r: Registry, f: JobFrame, r': Registry)
    requires KeepsLatest(r) && Aged(r) && r.active == Some(f.id) && f.id in r.jobs
    requires TerminalIds(Finished(r, f)) == r.jobs.Keys && EvictedTo(Finished(r, f), r')
    ensures KeepsLatest(r')
  {
    var low := FirstKept(FinishedCount(r));
    FinishedAged(r, f, r');
    FinishedRange(r, f, low);
    LatestAfterEviction(Finished(r, f), low, r');
  }

  lemma SubmitKeepsLatest(r: Registry, driver: string, key: string, payload: Option<JobPayload>, now: nat)
    requires RegInv(r) && KeepsLatest(r) && Aged(r) && r.active.None?
    requires forall id :: id in r.jobs ==> r.jobs[id].snapshot.createdAt < now
    ensures KeepsLatest(Submitted(r, driver, key, payload, now).0)
    ensures Aged(Submitted(r, driver, key, payload, now).0)
  {
  }
}
