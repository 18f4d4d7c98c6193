/** The recommendation job protocol as a transition system.

    Row-locked transactions and single service calls are atomic steps. Every delivery of a task
    message, first or duplicate or retried, is the step `Deliver`, which any idle worker may take
    for any job at any time; that covers at-least-once delivery, retries and admin dispatch. */
module JobProtocol {
  import opened Wrappers

  datatype JobType = UserRefresh | SimilarityRebuild

  datatype Status = Pending | Running | Success | Failed

  datatype Job = Job(kind: JobType, target: Option<int>, status: Status,
                     startedAt: Option<int>, finishedAt: Option<int>, retryCount: int, error: Option<string>)

  /** A worker inside the body of a job, with the retry count it read on entry. */
  datatype Execution = Execution(job: nat, retryCount: int)

  /** `starts` is a history variable: how often the body of a job was entered. Job ids are
      handed out in creation order and never reused. */
  datatype State = State(jobs: map<nat, Job>, nextId: nat, workers: map<int, Execution>, starts: map<nat, nat>)

  datatype Step =
    | EnqueueUserRefresh(user: int)
    | EnqueueSimilarityRebuild
    | AdminCreate(kind: JobType, target: Option<int>)
    | Claim(claimed: JobType, picked: set<nat>)
    | Deliver(worker: int, task: JobType, id: nat, now: int)
    | Finish(finisher: int, raised: Option<string>, at: int)
    | Crash(crashed: int)
    | DeleteUser(deleted: int)

  const MAX_ERROR_LENGTH := 1000

  const EMPTY := State(map[], 0, map[], map[])

  // ----- reading the table -----

  predicate IsActive(job: Job) {
    job.status == Pending || job.status == Running
  }

  predicate HasKey(job: Job, kind: JobType, target: Option<int>) {
    job.kind == kind && job.target == target
  }

  /** `order_by("-created_at").first()` among the jobs of one type and target with id < n. */
  function LatestBelow(jobs: map<nat, Job>, kind: JobType, target: Option<int>, n: nat): Option<nat> {
    if n == 0 then None
    else if n - 1 in jobs && HasKey(jobs[n - 1], kind, target) then Some(n - 1)
    else LatestBelow(jobs, kind, target, n - 1)
  }

  predicate LatestIsActive(s: State, user: int) {
    var latest := LatestBelow(s.jobs, UserRefresh, Some(user), s.nextId);
    latest.Some? && latest.value in s.jobs && IsActive(s.jobs[latest.value])
  }

  ghost predicate AnyActive(s: State, kind: JobType, target: Option<int>) {
    exists id :: id in s.jobs && HasKey(s.jobs[id], kind, target) && IsActive(s.jobs[id])
  }

  ghost predicate AnyRebuildActive(s: State) {
    exists id :: id in s.jobs && s.jobs[id].kind == SimilarityRebuild && IsActive(s.jobs[id])
  }

  predicate SameKey(a: Job, b: Job) {
    a.kind == b.kind && a.target == b.target
  }

  // ----- the steps -----

  function Created(s: State, kind: JobType, target: Option<int>): State {
    s.(jobs := s.jobs[s.nextId := Job(kind, target, Pending, None, None, 0, None)], nextId := s.nextId + 1)
  }

  predicate Claimable(job: Job, kind: JobType) {
    job.kind == kind && job.status == Pending && (kind == UserRefresh ==> job.target.Some?)
  }

  predicate Startable(job: Job, kind: JobType) {
    && job.kind == kind
    && (kind == UserRefresh ==> job.target.Some?)
    && (job.status == Pending || (job.status == Running && job.startedAt.None?))
  }

  function Claimed(jobs: map<nat, Job>, kind: JobType, picked: set<nat>): map<nat, Job> {
    map id | id in jobs ::
      if id in picked && Claimable(jobs[id], kind) then jobs[id].(status := Running, startedAt := None) else jobs[id]
  }

  /** The row after the body returned, or raised an error with this text. */
  function Finished(job: Job, raised: Option<string>, retryCount: int, at: int): Job {
    match raised
    case None => job.(status := Success, finishedAt := Some(at))
    case Some(text) =>
      job.(status := Failed, finishedAt := Some(at), retryCount := retryCount + 1, error := Some(Cut(text)))
  }

  function Cut(text: string): string {
    if |text| <= MAX_ERROR_LENGTH then text else text[..MAX_ERROR_LENGTH]
  }

  function Starts(starts: map<nat, nat>, id: nat): nat {
    if id in starts then starts[id] else 0
  }

  ghost function Apply(s: State, step: Step): State {
    match step
    case EnqueueUserRefresh(user) =>
      if LatestIsActive(s, user) then s else Created(s, UserRefresh, Some(user))
    case EnqueueSimilarityRebuild =>
      if AnyRebuildActive(s) then s else Created(s, SimilarityRebuild, None)
    case AdminCreate(kind, target) =>
      if AnyActive(s, kind, target) then s else Created(s, kind, target)
    case Claim(kind, picked) =>
      s.(jobs := Claimed(s.jobs, kind, picked))
    case Deliver(worker, kind, id, now) =>
      if worker in s.workers || id !in s.jobs || !Startable(s.jobs[id], kind) then s
      else s.(jobs := s.jobs[id := s.jobs[id].(status := Running, startedAt := Some(now), error := None)],
              workers := s.workers[worker := Execution(id, s.jobs[id].retryCount)],
              starts := s.starts[id := Starts(s.starts, id) + 1])
    case Finish(worker, raised, at) =>
      if worker !in s.workers then s
      else
        var e := s.workers[worker];
        s.(jobs := if e.job in s.jobs then s.jobs[e.job := Finished(s.jobs[e.job], raised, e.retryCount, at)]
                   else s.jobs,
           workers := s.workers - {worker})
    case Crash(worker) =>
      s.(workers := s.workers - {worker})
    case DeleteUser(user) =>
      s.(jobs := map id | id in s.jobs && s.jobs[id].target != Some(user) :: s.jobs[id])
  }

  ghost function Run(s: State, steps: seq<Step>): State {
    if steps == [] then s else Apply(Run(s, steps[..|steps| - 1]), steps[|steps| - 1])
  }

  // ----- the invariant -----

  /** 0 pending, 1 claimed, 2 executing, 3 finished. */
  function Phase(job: Job): nat {
    match job.status
    case Pending => 0
    case Running => if job.startedAt.None? then 1 else 2
    case Success => 3
    case Failed => 3
  }

  ghost predicate JobOk(s: State, id: nat)
    requires id in s.jobs
  {
    var job := s.jobs[id];
    && id < s.nextId
    && Starts(s.starts, id) == (if Phase(job) >= 2 then 1 else 0)
    && job.retryCount == (if job.status == Failed then 1 else 0)
    && (job.error.Some? <==> job.status == Failed)
  }

  ghost predicate WorkerOk(s: State, w: int)
    requires w in s.workers
  {
    var e := s.workers[w];
    && e.job < s.nextId && e.retryCount == 0
    && (e.job in s.jobs ==> Phase(s.jobs[e.job]) == 2)
  }

  /** No job with the same type and target was created after an active one. */
  ghost predicate ActiveIsLatest(s: State) {
    forall id, later :: id in s.jobs && later in s.jobs && id < later && IsActive(s.jobs[id])
      ==> !HasKey(s.jobs[later], s.jobs[id].kind, s.jobs[id].target)
  }

  ghost predicate Inv(s: State) {
    && (forall id :: id in s.jobs ==> JobOk(s, id))
    && (forall id: nat :: Starts(s.starts, id) <= 1 && (id >= s.nextId ==> Starts(s.starts, id) == 0))
    && (forall w :: w in s.workers ==> WorkerOk(s, w))
    && (forall v, w :: v in s.workers && w in s.workers && v != w ==> s.workers[v].job != s.workers[w].job)
    && ActiveIsLatest(s)
  }

  lemma {:induction false} LatestBelowFinds(jobs: map<nat, Job>, kind: JobType, target: Option<int>, n: nat)
    ensures match LatestBelow(jobs, kind, target, n)
            case None => forall id :: id in jobs && id < n ==> !HasKey(jobs[id], kind, target)
            case Some(l) => l < n && l in jobs && HasKey(jobs[l], kind, target)
                            && forall id :: id in jobs && l < id < n ==> !HasKey(jobs[id], kind, target)
  {
    if n > 0 { LatestBelowFinds(jobs, kind, target, n - 1); }
  }

  /** Looking at the latest job only is as good as looking at all of them. */
  lemma LatestCheckSuffices(s: State, user: int)
    requires Inv(s)
    ensures LatestIsActive(s, user) <==> AnyActive(s, UserRefresh, Some(user))
  {
    LatestBelowFinds(s.jobs, UserRefresh, Some(user), s.nextId);
    if AnyActive(s, UserRefresh, Some(user)) {
      var id :| id in s.jobs && HasKey(s.jobs[id], UserRefresh, Some(user)) && IsActive(s.jobs[id]);
      assert JobOk(s, id);
    }
  }

  lemma CreatedKeepsInv(s: State, kind: JobType, target: Option<int>)
    requires Inv(s) && !AnyActive(s, kind, target)
    ensures Inv(Created(s, kind, target))
  {
    var s' := Created(s, kind, target);
    forall id | id in s'.jobs ensures JobOk(s', id) {
      if id in s.jobs { assert JobOk(s, id); }
    }
    forall w | w in s'.workers ensures WorkerOk(s', w) { assert WorkerOk(s, w); }
  }

  /** A step that changes no row's key and activates nothing keeps active jobs latest. */
  lemma ActiveStaysLatest(s: State, s': State)
    requires ActiveIsLatest(s)
    requires forall id :: id in s'.jobs ==> id in s.jobs
    requires forall id :: id in s'.jobs ==> HasKey(s'.jobs[id], s.jobs[id].kind, s.jobs[id].target)
    requires forall id :: id in s'.jobs && IsActive(s'.jobs[id]) ==> IsActive(s.jobs[id])
    ensures ActiveIsLatest(s')
  {}

  lemma ClaimKeepsInv(s: State, kind: JobType, picked: set<nat>)
    requires Inv(s)
    ensures Inv(Apply(s, Claim(kind, picked)))
  {
    var s' := Apply(s, Claim(kind, picked));
    forall id | id in s'.jobs ensures JobOk(s', id) { assert JobOk(s, id); }
    forall w | w in s'.workers ensures WorkerOk(s', w) { assert WorkerOk(s, w); }
    ActiveStaysLatest(s, s');
  }

  /** The worker that gets the job is its only one: a startable job was never started. */
  lemma DeliverKeepsWorkers(s: State, worker: int, kind: JobType, id: nat, now: int)
    requires Inv(s) && worker !in s.workers && id in s.jobs && Startable(s.jobs[id], kind)
    ensures var s' := Apply(s, Deliver(worker, kind, id, now));
            forall w :: w in s'.workers ==> WorkerOk(s', w) && (w != worker ==> s'.workers[w].job != id)
  {
    var s' := Apply(s, Deliver(worker, kind, id, now));
    assert JobOk(s, id);
    forall w | w in s'.workers ensures WorkerOk(s', w) && (w != worker ==> s'.workers[w].job != id) {
      if w != worker { assert WorkerOk(s, w); }
    }
  }

  lemma DeliverKeepsInv(s: State, worker: int, kind: JobType, id: nat, now: int)
    requires Inv(s)
    ensures Inv(Apply(s, Deliver(worker, kind, id, now)))
  {
    if worker !in s.workers && id in s.jobs && Startable(s.jobs[id], kind) {
      DeliverKeepsWorkers(s, worker, kind, id, now);
      DeliverKeepsJobs(s, worker, kind, id, now);
      ActiveStaysLatest(s, Apply(s, Deliver(worker, kind, id, now)));
    }
  }

  lemma DeliverKeepsJobs(s: State, worker: int, kind: JobType, id: nat, now: int)
    requires Inv(s) && worker !in s.workers && id in s.jobs && Startable(s.jobs[id], kind)
    ensures var s' := Apply(s, Deliver(worker, kind, id, now));
            && (forall k :: k in s'.jobs ==> JobOk(s', k))
            && (forall k: nat :: Starts(s'.starts, k) <= 1 && (k >= s'.nextId ==> Starts(s'.starts, k) == 0))
  {
    var s' := Apply(s, Deliver(worker, kind, id, now));
    assert JobOk(s, id);
    forall k: nat ensures Starts(s'.starts, k) == Starts(s.starts, k) + (if k == id then 1 else 0) {}
    forall k | k in s'.jobs ensures JobOk(s', k) { assert JobOk(s, k); }
  }

  lemma FinishKeepsInv(s: State, worker: int, raised: Option<string>, at: int)
    requires Inv(s)
    ensures Inv(Apply(s, Finish(worker, raised, at)))
  {
    var s' := Apply(s, Finish(worker, raised, at));
    if worker in s.workers {
      assert WorkerOk(s, worker);
      forall k | k in s'.jobs ensures JobOk(s', k) { assert JobOk(s, k); }
      forall w | w in s'.workers ensures WorkerOk(s', w) { assert WorkerOk(s, w); }
      ActiveStaysLatest(s, s');
    }
  }

  lemma RemovalKeepsInv(s: State, s': State)
    requires Inv(s) && s'.nextId == s.nextId && s'.starts == s.starts
    requires forall id :: id in s'.jobs ==> id in s.jobs && s'.jobs[id] == s.jobs[id]
    requires forall w :: w in s'.workers ==> w in s.workers && s'.workers[w] == s.workers[w]
    ensures Inv(s')
  {
    forall k | k in s'.jobs ensures JobOk(s', k) { assert JobOk(s, k); }
    forall w | w in s'.workers ensures WorkerOk(s', w) { assert WorkerOk(s, w); }
    ActiveStaysLatest(s, s');
  }

  /** The invariant is inductive: every step of every interleaving keeps it. */
  lemma StepKeepsInv(s: State, step: Step)
    requires Inv(s)
    ensures Inv(Apply(s, step))
  {
    match step
    case EnqueueUserRefresh(user) =>
      LatestCheckSuffices(s, user);
      if !LatestIsActive(s, user) { CreatedKeepsInv(s, UserRefresh, Some(user)); }
    case EnqueueSimilarityRebuild =>
      if !AnyRebuildActive(s) { CreatedKeepsInv(s, SimilarityRebuild, None); }
    case AdminCreate(kind, target) =>
      if !AnyActive(s, kind, target) { CreatedKeepsInv(s, kind, target); }
    case Claim(kind, picked) => ClaimKeepsInv(s, kind, picked);
    case Deliver(worker, kind, id, now) => DeliverKeepsInv(s, worker, kind, id, now);
    case Finish(worker, raised, at) => FinishKeepsInv(s, worker, raised, at);
    case Crash(worker) => RemovalKeepsInv(s, Apply(s, step));
    case DeleteUser(user) => RemovalKeepsInv(s, Apply(s, step));
  }

  lemma {:induction false} RunKeepsInv(s: State, steps: seq<Step>)
    requires Inv(s)
    ensures Inv(Run(s, steps))
  {
    if steps != [] {
      RunKeepsInv(s, steps[..|steps| - 1]);
      StepKeepsInv(Run(s, steps[..|steps| - 1]), steps[|steps| - 1]);
    }
  }

  // ----- safety over whole runs -----

  /** In every reachable state: each body was entered at most once, no two workers share a job,
      the retry count is 1 exactly for failed jobs, and one job per type and target is active. */
  lemma AtMostOnce(steps: seq<Step>)
    ensures var s := Run(EMPTY, steps);
            && (forall id: nat :: Starts(s.starts, id) <= 1)
            && (forall v, w :: v in s.workers && w in s.workers && s.workers[v].job == s.workers[w].job ==> v == w)
            && (forall id :: id in s.jobs ==> s.jobs[id].retryCount == if s.jobs[id].status == Failed then 1 else 0)
            && (forall id :: id in s.jobs ==> (s.jobs[id].error.Some? <==> s.jobs[id].status == Failed))
            && (forall i, j ::
                  i in s.jobs && j in s.jobs && IsActive(s.jobs[i]) && IsActive(s.jobs[j])
                  && SameKey(s.jobs[i], s.jobs[j])
                  ==> i == j)
  {
    RunKeepsInv(EMPTY, steps);
    var s := Run(EMPTY, steps);
    assert forall id :: id in s.jobs ==> JobOk(s, id);
    forall i, j | i in s.jobs && j in s.jobs && IsActive(s.jobs[i]) && IsActive(s.jobs[j])
        && SameKey(s.jobs[i], s.jobs[j])
      ensures i == j
    {
      assert HasKey(s.jobs[j], s.jobs[i].kind, s.jobs[i].target) && HasKey(s.jobs[i], s.jobs[j].kind, s.jobs[j].target);
    }
  }

  /** What a step may do to one row: nothing, or advance it to a later phase. */
  ghost predicate Advances(before: Job, after: Job) {
    && after.kind == before.kind && after.target == before.target
    && (after == before || Phase(before) < Phase(after))
  }

  lemma StepAdvances(s: State, step: Step, id: nat)
    requires Inv(s)
    requires id in s.jobs && id in Apply(s, step).jobs
    ensures Advances(s.jobs[id], Apply(s, step).jobs[id])
  {
    assert JobOk(s, id);
    match step
    case Finish(worker, raised, at) => if worker in s.workers { assert WorkerOk(s, worker); }
    case Deliver(worker, kind, k, now) => DeliverAdvances(s, worker, kind, k, now, id);
    case _ =>
  }

  lemma DeliverAdvances(s: State, worker: int, kind: JobType, k: nat, now: int, id: nat)
    requires id in s.jobs
    ensures id in Apply(s, Deliver(worker, kind, k, now)).jobs
    ensures Advances(s.jobs[id], Apply(s, Deliver(worker, kind, k, now)).jobs[id])
  {}

  /** A row once deleted or never created does not come back under an old id. */
  lemma StepKeepsAbsent(s: State, step: Step, id: nat)
    requires Inv(s) && id < s.nextId && id !in s.jobs
    ensures id !in Apply(s, step).jobs && id < Apply(s, step).nextId
  {}

  lemma StepKeepsIds(s: State, step: Step)
    ensures s.nextId <= Apply(s, step).nextId
  {}

  /** Phases only move forward along a run, and a finished job never changes again. */
  lemma {:induction false} PhasesAdvance(s: State, steps: seq<Step>, id: nat)
    requires Inv(s) && id in s.jobs && id in Run(s, steps).jobs
    ensures var before, after := s.jobs[id], Run(s, steps).jobs[id];
            && Phase(before) <= Phase(after)
            && (Phase(before) == Phase(after) ==> after == before)
            && (Phase(before) == 3 ==> after == before)
  {
    if steps != [] {
      var mid := Run(s, steps[..|steps| - 1]);
      RunKeepsInv(s, steps[..|steps| - 1]);
      RunKeepsIds(s, steps[..|steps| - 1]);
      assert JobOk(s, id);
      if id !in mid.jobs { StepKeepsAbsent(mid, steps[|steps| - 1], id); }
      PhasesAdvance(s, steps[..|steps| - 1], id);
      StepAdvances(mid, steps[|steps| - 1], id);
    }
  }

  lemma {:induction false} RunKeepsIds(s: State, steps: seq<Step>)
    ensures s.nextId <= Run(s, steps).nextId
  {
    if steps != [] {
      RunKeepsIds(s, steps[..|steps| - 1]);
      StepKeepsIds(Run(s, steps[..|steps| - 1]), steps[|steps| - 1]);
    }
  }

  // ----- how a job ended -----

  /** The row after the body returned or raised: SUCCESS exactly when it returned; on an error the
      entry retry count plus one and the first 1000 characters of the text. */
  ghost predicate Records(before: Job, after: Job, retryCount: int, raised: Option<string>, at: int) {
    && after.kind == before.kind && after.target == before.target && after.startedAt == before.startedAt
    && after.finishedAt == Some(at)
    && match raised
       case None => after.status == Success && after.retryCount == before.retryCount && after.error == before.error
       case Some(text) =>
         && after.status == Failed && after.retryCount == retryCount + 1
         && after.error.Some? && after.error.value <= text
         && |after.error.value| == if |text| < 1000 then |text| else 1000
  }

  /** Step i ends the execution of a job whose row is still there. */
  ghost predicate EndsAt(steps: seq<Step>, i: int, id: nat)
    requires 0 <= i < |steps|
  {
    var s := Run(EMPTY, steps[..i]);
    steps[i].Finish? && steps[i].finisher in s.workers && s.workers[steps[i].finisher].job == id && id in s.jobs
  }

  lemma FinishRecords(s: State, worker: int, raised: Option<string>, at: int)
    requires worker in s.workers && s.workers[worker].job in s.jobs
    ensures var s', id := Apply(s, Finish(worker, raised, at)), s.workers[worker].job;
            && id in s'.jobs && Records(s.jobs[id], s'.jobs[id], s.workers[worker].retryCount, raised, at)
            && Phase(s'.jobs[id]) == 3
            && forall k :: k != id ==> (k in s'.jobs <==> k in s.jobs) && (k in s.jobs ==> s'.jobs[k] == s.jobs[k])
  {}

  lemma {:induction false} RunSplits(s: State, steps: seq<Step>, more: seq<Step>)
    ensures Run(s, steps + more) == Run(Run(s, steps), more)
  {
    if more == [] {
      assert steps + more == steps;
    } else {
      var n := |more| - 1;
      RunSplits(s, steps, more[..n]);
      assert (steps + more)[..|steps + more| - 1] == steps + more[..n];
    }
  }

  /** The row of a finished job says how its body ended, in every later state. */
  lemma EndingIsRecorded(steps: seq<Step>, i: int, id: nat)
    requires 0 <= i < |steps| && EndsAt(steps, i, id) && id in Run(EMPTY, steps).jobs
    ensures var s := Run(EMPTY, steps[..i]);
            Records(s.jobs[id], Run(EMPTY, steps).jobs[id], s.workers[steps[i].finisher].retryCount,
                    steps[i].raised, steps[i].at)
  {
    var s := Run(EMPTY, steps[..i]);
    FinishRecords(s, steps[i].finisher, steps[i].raised, steps[i].at);
    RunAt(steps, i);
    RunKeepsInv(EMPTY, steps[..i + 1]);
    PhasesAdvance(Run(EMPTY, steps[..i + 1]), steps[i + 1..], id);
  }

  lemma RunAt(steps: seq<Step>, i: int)
    requires 0 <= i < |steps|
    ensures Run(EMPTY, steps[..i + 1]) == Apply(Run(EMPTY, steps[..i]), steps[i])
    ensures Run(Run(EMPTY, steps[..i + 1]), steps[i + 1..]) == Run(EMPTY, steps)
  {
    assert steps[..i + 1] == steps[..i] + [steps[i]];
    RunSnoc(EMPTY, steps[..i], steps[i]);
    assert steps == steps[..i + 1] + steps[i + 1..];
    RunSplits(EMPTY, steps[..i + 1], steps[i + 1..]);
  }

  lemma RunSnoc(s: State, steps: seq<Step>, step: Step)
    ensures Run(s, steps + [step]) == Apply(Run(s, steps), step)
  {
    assert (steps + [step])[..|steps|] == steps;
  }

  lemma {:induction false} FinishedHasEnd(steps: seq<Step>, id: nat)
    requires id in Run(EMPTY, steps).jobs && Phase(Run(EMPTY, steps).jobs[id]) == 3
    ensures exists i :: 0 <= i < |steps| && EndsAt(steps, i, id)
  {
    if steps != [] {
      var n := |steps| - 1;
      var s := Run(EMPTY, steps[..n]);
      RunKeepsInv(EMPTY, steps[..n]);
      if id in s.jobs && Phase(s.jobs[id]) == 3 {
        FinishedHasEnd(steps[..n], id);
        var i :| 0 <= i < n && EndsAt(steps[..n], i, id);
        EndsInPrefix(steps, n, i, id);
      } else {
        OnlyFinishEnds(s, steps[n], id);
        assert EndsAt(steps, n, id);
      }
    }
  }

  lemma EndsInPrefix(steps: seq<Step>, n: nat, i: nat, id: nat)
    requires i < n <= |steps| && EndsAt(steps[..n], i, id)
    ensures EndsAt(steps, i, id)
  {
    assert steps[..n][..i] == steps[..i] && steps[..n][i] == steps[i];
  }

  lemma OnlyFinishEnds(s: State, step: Step, id: nat)
    requires Inv(s) && id in Apply(s, step).jobs && Phase(Apply(s, step).jobs[id]) == 3
    requires !(id in s.jobs && Phase(s.jobs[id]) == 3)
    ensures step.Finish? && step.finisher in s.workers && s.workers[step.finisher].job == id && id in s.jobs
  {}

  /** A finished job is FAILED exactly if the step that ended its execution raised, and SUCCESS
      exactly if that step returned; there is such a step. */
  lemma FailedIffRaised(steps: seq<Step>, id: nat) returns (i: int)
    requires id in Run(EMPTY, steps).jobs
    requires Run(EMPTY, steps).jobs[id].status == Success || Run(EMPTY, steps).jobs[id].status == Failed
    ensures 0 <= i < |steps| && EndsAt(steps, i, id)
    ensures Run(EMPTY, steps).jobs[id].status == Failed <==> steps[i].raised.Some?
    ensures Run(EMPTY, steps).jobs[id].finishedAt == Some(steps[i].at)
  {
    FinishedHasEnd(steps, id);
    i :| 0 <= i < |steps| && EndsAt(steps, i, id);
    EndingIsRecorded(steps, i, id);
  }

  // ----- after a crash -----

  /** The job was started and no worker is on it. */
  ghost predicate Stranded(s: State, id: nat) {
    id in s.jobs && Phase(s.jobs[id]) == 2 && forall w :: w in s.workers ==> s.workers[w].job != id
  }

  lemma CrashStrands(s: State, worker: int)
    requires Inv(s) && worker in s.workers && s.workers[worker].job in s.jobs
    ensures Stranded(Apply(s, Crash(worker)), s.workers[worker].job)
  {
    assert WorkerOk(s, worker);
  }

  /** The step that removes the row of a job: deletion of its user. */
  predicate RemovesTarget(step: Step, target: Option<int>) {
    step.DeleteUser? && target == Some(step.deleted)
  }

  lemma StepKeepsStranded(s: State, step: Step, id: nat)
    requires Inv(s) && Stranded(s, id)
    ensures var after := Apply(s, step);
            if RemovesTarget(step, s.jobs[id].target) then id !in after.jobs
            else Stranded(after, id) && after.jobs[id] == s.jobs[id]
  {
    assert JobOk(s, id);
  }

  ghost predicate NeverRemoved(steps: seq<Step>, target: Option<int>) {
    forall i :: 0 <= i < |steps| ==> !RemovesTarget(steps[i], target)
  }

  lemma NeverRemovedSnoc(steps: seq<Step>, target: Option<int>)
    requires steps != []
    ensures NeverRemoved(steps, target) <==>
            NeverRemoved(steps[..|steps| - 1], target) && !RemovesTarget(steps[|steps| - 1], target)
  {
    assert forall i :: 0 <= i < |steps| - 1 ==> steps[..|steps| - 1][i] == steps[i];
  }

  /** A job whose worker crashed keeps its row, unfinished and unworked, along every run until its
      user is deleted, and then the row is gone for good. */
  lemma {:induction false} StrandedForever(s: State, steps: seq<Step>, id: nat)
    requires Inv(s) && Stranded(s, id)
    ensures var later := Run(s, steps);
            if NeverRemoved(steps, s.jobs[id].target) then Stranded(later, id) && later.jobs[id] == s.jobs[id]
            else id !in later.jobs
  {
    if steps != [] {
      var n := |steps| - 1;
      var mid := Run(s, steps[..n]);
      StrandedForever(s, steps[..n], id);
      NeverRemovedSnoc(steps, s.jobs[id].target);
      RunKeepsInv(s, steps[..n]);
      RunKeepsIds(s, steps[..n]);
      assert JobOk(s, id);
      if id in mid.jobs {
        StepKeepsStranded(mid, steps[n], id);
      } else {
        StepKeepsAbsent(mid, steps[n], id);
      }
    }
  }

  /** As long as the row is there, no job of its type and target is created any more. */
  lemma StrandedIsLatest(s: State, steps: seq<Step>, id: nat)
    requires Inv(s) && Stranded(s, id) && NeverRemoved(steps, s.jobs[id].target)
    ensures forall k :: k in Run(s, steps).jobs && k > id ==> !SameKey(Run(s, steps).jobs[k], s.jobs[id])
  {
    RunKeepsInv(s, steps);
    StrandedForever(s, steps, id);
  }

  /** A rebuild whose worker crashed blocks every later rebuild: whatever happens, the scheduler
      creates none. */
  lemma StrandedRebuildBlocks(s: State, steps: seq<Step>, id: nat)
    requires Inv(s) && Stranded(s, id) && s.jobs[id].kind == SimilarityRebuild && s.jobs[id].target.None?
    ensures Apply(Run(s, steps), EnqueueSimilarityRebuild) == Run(s, steps)
  {
    StrandedForever(s, steps, id);
    assert NeverRemoved(steps, None);
  }

  // ----- what the status endpoints report -----

  datatype Reported = ReportSuccess | ReportPending | ReportRunning | ReportFailed

  function GetStatus(s: State, user: int, hasRecommendation: bool): Reported {
    var latest := LatestBelow(s.jobs, UserRefresh, Some(user), s.nextId);
    if latest.None? || latest.value !in s.jobs || s.jobs[latest.value].status == Success then
      if hasRecommendation then ReportSuccess else ReportPending
    else match s.jobs[latest.value].status
      case Pending => ReportPending
      case Running => ReportRunning
      case _ => ReportFailed
  }

  predicate IsRecommendationReady(s: State, user: int, hasRecommendation: bool) {
    !LatestIsActive(s, user) && hasRecommendation
  }

  lemma ReadyWhenNoneActive(s: State, user: int, hasRecommendation: bool)
    requires Inv(s)
    ensures IsRecommendationReady(s, user, hasRecommendation) <==>
            hasRecommendation && !AnyActive(s, UserRefresh, Some(user))
    ensures IsRecommendationReady(s, user, hasRecommendation) <==>
            hasRecommendation && GetStatus(s, user, hasRecommendation) in {ReportSuccess, ReportFailed}
  {
    LatestCheckSuffices(s, user);
    LatestBelowFinds(s.jobs, UserRefresh, Some(user), s.nextId);
  }

  ghost predicate AnyRunning(s: State, user: int) {
    exists id :: id in s.jobs && HasKey(s.jobs[id], UserRefresh, Some(user)) && s.jobs[id].status == Running
  }

  lemma RunningIsReported(s: State, user: int, hasRecommendation: bool)
    requires Inv(s)
    ensures GetStatus(s, user, hasRecommendation) == ReportRunning <==> AnyRunning(s, user)
  {
    var latest := LatestBelow(s.jobs, UserRefresh, Some(user), s.nextId);
    LatestBelowFinds(s.jobs, UserRefresh, Some(user), s.nextId);
    if AnyRunning(s, user) {
      var id :| id in s.jobs && HasKey(s.jobs[id], UserRefresh, Some(user)) && s.jobs[id].status == Running;
      assert JobOk(s, id);
      assert latest == Some(id);
    }
  }

  /** The row was created last among the refreshes of the user. */
  ghost predicate IsLatestRefresh(s: State, user: int, id: nat) {
    && id in s.jobs && s.jobs[id].kind == UserRefresh && s.jobs[id].target == Some(user)
    && forall k :: k in s.jobs && s.jobs[k].kind == UserRefresh && s.jobs[k].target == Some(user) ==> k <= id
  }

  /** The report is that of the latest refresh; without one, or after a success, it says whether
      there is a recommendation. */
  lemma StatusIsOfLatest(s: State, user: int, hasRecommendation: bool, id: nat)
    requires Inv(s) && IsLatestRefresh(s, user, id)
    ensures var status, report := s.jobs[id].status, GetStatus(s, user, hasRecommendation);
            && (report == ReportFailed <==> status == Failed) && (report == ReportRunning <==> status == Running)
            && (report == ReportSuccess <==> status == Success && hasRecommendation)
            && (report == ReportPending <==> status == Pending || (status == Success && !hasRecommendation))
  {
    LatestBelowFinds(s.jobs, UserRefresh, Some(user), s.nextId);
    assert JobOk(s, id);
  }

  lemma StatusWithoutRefresh(s: State, user: int, hasRecommendation: bool)
    requires forall k :: k in s.jobs && s.jobs[k].kind == UserRefresh ==> s.jobs[k].target != Some(user)
    ensures GetStatus(s, user, hasRecommendation) == if hasRecommendation then ReportSuccess else ReportPending
  {
    LatestBelowFinds(s.jobs, UserRefresh, Some(user), s.nextId);
  }

  /** Ready means: recommendations exist and no refresh of the user, old or new, is unfinished;
      the status endpoint then reports success or failure, and reports running exactly while
      some refresh of the user is running. */
  lemma ReadyMeansSettled(steps: seq<Step>, user: int, hasRecommendation: bool)
    ensures var s := Run(EMPTY, steps);
            && (IsRecommendationReady(s, user, hasRecommendation) <==>
                 (hasRecommendation && !AnyActive(s, UserRefresh, Some(user))))
            && (IsRecommendationReady(s, user, hasRecommendation) <==>
                 (hasRecommendation && GetStatus(s, user, hasRecommendation) in {ReportSuccess, ReportFailed}))
            && (GetStatus(s, user, hasRecommendation) == ReportRunning <==> AnyRunning(s, user))
  {
    RunKeepsInv(EMPTY, steps);
    ReadyWhenNoneActive(Run(EMPTY, steps), user, hasRecommendation);
    RunningIsReported(Run(EMPTY, steps), user, hasRecommendation);
  }
}
