/** The recommendation job services and tasks in their imperative form, each proved to be a
    step (or two) of `JobProtocol`. */
module JobService {
  import opened Wrappers
  import opened JobProtocol

  datatype JobError = JobAlreadyRunning

  /** The oldest claimable jobs that no other transaction holds, at most limit of them: a
      claimable job is passed over only when the limit was filled with older ones. */
  ghost predicate IsOldestClaimable(s: State, kind: JobType, locked: set<nat>, limit: nat, ids: seq<nat>) {
    && |ids| <= limit
    && (forall i, j :: 0 <= i < j < |ids| ==> ids[i] < ids[j])
    && (forall id :: id in ids ==> id < s.nextId && id in s.jobs && IsWaiting(s.jobs[id], kind) && id !in locked)
    && (forall id :: id in s.jobs && id < s.nextId && IsWaiting(s.jobs[id], kind) && id !in locked && id !in ids
          ==> |ids| == limit && forall k :: k in ids ==> k < id)
  }

  /** Pending, of the type, and for a refresh with a target user. */
  ghost predicate IsWaiting(job: Job, kind: JobType) {
    job.status == Pending && job.kind == kind && (job.kind == UserRefresh ==> job.target.Some?)
  }

  /** Pending or running, of the type and target. */
  ghost predicate IsUnfinished(job: Job, kind: JobType, target: Option<int>) {
    (job.status == Pending || job.status == Running) && job.kind == kind && job.target == target
  }

  /** All rows but this one are as before. */
  ghost predicate OtherRowsKept(before: map<nat, Job>, after: map<nat, Job>, id: nat) {
    && (forall k :: k != id ==> (k in after <==> k in before))
    && (forall k :: k != id && k in before ==> after[k] == before[k])
  }

  class RecommendationJobs {
    var jobs: map<nat, Job>
    var nextId: nat
    var workers: map<int, Execution>
    ghost var starts: map<nat, nat>

    ghost function View(): State
      reads this
    {
      State(jobs, nextId, workers, starts)
    }

    constructor ()
      ensures View() == EMPTY
    {
      jobs, nextId, workers, starts := map[], 0, map[], map[];
    }

    method Create(kind: JobType, target: Option<int>) returns (id: nat)
      modifies this
      ensures View() == Created(old(View()), kind, target) && id == old(nextId)
      ensures id in jobs && jobs[id] == Job(kind, target, Pending, None, None, 0, None)
      ensures OtherRowsKept(old(jobs), jobs, id)
    {
      id := nextId;
      jobs := jobs[id := Job(kind, target, Pending, None, None, 0, None)];
      nextId := nextId + 1;
    }

    method GetLatestUserRefreshJob(user: int) returns (latest: Option<nat>)
      ensures latest == LatestBelow(jobs, UserRefresh, Some(user), nextId)
    {
      var n: nat := nextId;
      while n > 0
        invariant n <= nextId
        invariant LatestBelow(jobs, UserRefresh, Some(user), n) == LatestBelow(jobs, UserRefresh, Some(user), nextId)
      {
        if n - 1 in jobs && HasKey(jobs[n - 1], UserRefresh, Some(user)) {
          return Some(n - 1);
        }
        n := n - 1;
      }
      latest := None;
    }

    /** Returns the unfinished refresh of the user, creating one only if there is none. */
    method EnqueueUserRefreshJobIfNeeded(user: int) returns (id: nat)
      requires Inv(View())
      modifies this
      ensures View() == Apply(old(View()), EnqueueUserRefresh(user)) && Inv(View())
      ensures id in jobs && IsUnfinished(jobs[id], UserRefresh, Some(user))
    {
      LatestBelowFinds(jobs, UserRefresh, Some(user), nextId);
      StepKeepsInv(View(), EnqueueUserRefresh(user));
      var latest := GetLatestUserRefreshJob(user);
      if latest.Some? && IsActive(jobs[latest.value]) {
        id := latest.value;
      } else {
        id := Create(UserRefresh, Some(user));
      }
    }

    method CreateRecommendationJob(kind: JobType, target: Option<int>) returns (r: Result<nat, JobError>)
      modifies this
      ensures View() == Apply(old(View()), AdminCreate(kind, target))
      ensures r == Err(JobAlreadyRunning) || r == Ok(old(nextId))
      ensures r.Err? <==> exists id :: id in old(jobs) && IsUnfinished(old(jobs)[id], kind, target)
    {
      if exists id | id in jobs :: HasKey(jobs[id], kind, target) && IsActive(jobs[id]) {
        r := Err(JobAlreadyRunning);
      } else {
        var id := Create(kind, target);
        r := Ok(id);
      }
    }

    method EnqueueSimilarityRebuildJobIfNeeded() returns (created: nat)
      modifies this
      ensures View() == Apply(old(View()), EnqueueSimilarityRebuild)
      ensures created == 0 || created == 1
      ensures created == 0 <==>
              exists id :: id in old(jobs) && IsUnfinished(old(jobs)[id], SimilarityRebuild, old(jobs)[id].target)
    {
      if exists id | id in jobs :: jobs[id].kind == SimilarityRebuild && IsActive(jobs[id]) {
        created := 0;
      } else {
        var _ := Create(SimilarityRebuild, None);
        created := 1;
      }
    }

    /** `order_by("created_at")[:limit]` under `skip_locked`: locked jobs are passed over. */
    method SelectPending(kind: JobType, locked: set<nat>, limit: nat) returns (ids: seq<nat>)
      ensures IsOldestClaimable(View(), kind, locked, limit, ids)
    {
      ids := [];
      for id := 0 to nextId
        invariant |ids| <= limit && forall i, j :: 0 <= i < j < |ids| ==> ids[i] < ids[j]
        invariant forall k :: k in ids ==> k < id && k in jobs && Claimable(jobs[k], kind) && k !in locked
        invariant forall k :: k in jobs && k < id && Claimable(jobs[k], kind) && k !in locked && k !in ids
                              ==> |ids| == limit && forall m :: m in ids ==> m < k
      {
        if |ids| < limit && id in jobs && Claimable(jobs[id], kind) && id !in locked {
          assert forall i :: 0 <= i < |ids| ==> ids[i] in ids;
          ids := ids + [id];
        }
      }
    }

    method ClaimPending(kind: JobType, locked: set<nat>, limit: nat) returns (ids: seq<nat>)
      modifies this
      ensures View() == Apply(old(View()), Claim(kind, set id | id in ids))
      ensures IsOldestClaimable(old(View()), kind, locked, limit, ids)
      ensures jobs.Keys == old(jobs).Keys
      ensures forall id :: id in jobs ==>
                jobs[id] == if id in ids then old(jobs)[id].(status := Running, startedAt := None) else old(jobs)[id]
    {
      ids := SelectPending(kind, locked, limit);
      jobs := Claimed(jobs, kind, set id | id in ids);
    }

    /** The beat task: two claiming transactions, then one message per claimed job. */
    method ProcessPendingRecommendationJobs(limit: nat, lockedRefresh: set<nat>, lockedRebuild: set<nat>)
      returns (refreshIds: seq<nat>, rebuildIds: seq<nat>)
      modifies this
      ensures IsOldestClaimable(old(View()), UserRefresh, lockedRefresh, limit, refreshIds)
      ensures var middle := Apply(old(View()), Claim(UserRefresh, set id | id in refreshIds));
              && IsOldestClaimable(middle, SimilarityRebuild, lockedRebuild, limit - |refreshIds|, rebuildIds)
              && View() == Apply(middle, Claim(SimilarityRebuild, set id | id in rebuildIds))
    {
      refreshIds := ClaimPending(UserRefresh, lockedRefresh, limit);
      rebuildIds := [];
      var remaining := limit - |refreshIds|;
      if remaining > 0 {
        rebuildIds := ClaimPending(SimilarityRebuild, lockedRebuild, remaining);
      } else {
        assert Claimed(jobs, SimilarityRebuild, {}) == jobs;
      }
    }

    /** The locked transaction at the start of a task; true if this worker may run the body. */
    method BeginJob(worker: int, kind: JobType, id: nat, now: int) returns (entered: bool)
      requires worker !in workers
      modifies this
      ensures View() == Apply(old(View()), Deliver(worker, kind, id, now))
      ensures entered <==>
                && id in old(jobs) && old(jobs)[id].kind == kind && (kind == UserRefresh ==> old(jobs)[id].target.Some?)
                && (old(jobs)[id].status == Pending
                    || (old(jobs)[id].status == Running && old(jobs)[id].startedAt.None?))
      ensures !entered ==> View() == old(View())
      ensures entered ==>
                && OtherRowsKept(old(jobs), jobs, id) && id in jobs
                && jobs[id] == old(jobs)[id].(status := Running, startedAt := Some(now), error := None)
                && workers == old(workers)[worker := Execution(id, old(jobs)[id].retryCount)]
    {
      if id !in jobs || jobs[id].kind != kind || (kind == UserRefresh && jobs[id].target.None?) {
        return false;
      }
      var job := jobs[id];
      if job.status == Pending {
      } else if job.status == Running && job.startedAt.None? {
      } else {
        return false;
      }
      workers := workers[worker := Execution(id, job.retryCount)];
      jobs := jobs[id := job.(status := Running, startedAt := Some(now), error := None)];
      starts := starts[id := Starts(starts, id) + 1];
      entered := true;
    }

    /** The closing update of a task, after the body returned or raised. */
    method EndJob(worker: int, raised: Option<string>, now: int)
      requires worker in workers
      modifies this
      ensures View() == Apply(old(View()), JobProtocol.Finish(worker, raised, now))
      ensures var e := old(workers)[worker];
              && workers == old(workers) - {worker} && OtherRowsKept(old(jobs), jobs, e.job)
              && (e.job in jobs <==> e.job in old(jobs))
              && (e.job in jobs ==> Records(old(jobs)[e.job], jobs[e.job], e.retryCount, raised, now))
    {
      var e := workers[worker];
      if e.job in jobs {
        var job := jobs[e.job];
        if raised.None? {
          job := job.(status := Success, finishedAt := Some(now));
        } else {
          job := job.(status := Failed, finishedAt := Some(now), retryCount := e.retryCount + 1,
                      error := Some(Cut(raised.value)));
        }
        jobs := jobs[e.job := job];
      }
      workers := workers - {worker};
    }
  }
}
