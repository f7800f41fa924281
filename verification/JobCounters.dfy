/** The job counters against the tasks they summarise. */
module JobCounters {
  import opened Prelude
  import opened JobQueue
  import opened JobQueueRuns

  predicate IsOpen(t: Task) {
    t.status == Pending || t.status == Leased
  }

  ghost function TasksIn(q: Queue, jobID: string, status: TaskStatus): set<string> {
    set id | id in q.tasks && q.tasks[id].jobID == jobID && q.tasks[id].status == status
  }

  ghost function OpenTasks(q: Queue, jobID: string): set<string> {
    set id | id in q.tasks && q.tasks[id].jobID == jobID && IsOpen(q.tasks[id])
  }

  /** The job's record agrees with its tasks; an empty job is never final. */
  ghost predicate JobExact(q: Queue, jobID: string)
    requires jobID in q.jobs
  {
    var job := q.jobs[jobID];
    && job.scannedHosts == |TasksIn(q, jobID, Completed)|
    && job.failedHosts == |TasksIn(q, jobID, Failed)|
    && job.totalHosts == |OpenTasks(q, jobID)| + |TasksIn(q, jobID, Completed)| + |TasksIn(q, jobID, Failed)|
    && 0 <= job.compliantHosts <= job.scannedHosts
    && (job.status == JobCompleted <==> job.totalHosts > 0 && |OpenTasks(q, jobID)| == 0)
    && (job.status == JobCompleted <==> job.completedAt.Some?)
  }

  ghost predicate Exact(q: Queue) {
    && (forall id | id in q.tasks :: q.tasks[id].jobID in q.jobs)
    && (forall jobID | jobID in q.jobs :: JobExact(q, jobID))
  }

  /** A job is enqueued under an ID that no task has, with fresh counters. */
  ghost predicate NewJob(q: Queue, op: Op) {
    op.Enqueue? ==>
      && (forall id | id in q.tasks :: q.tasks[id].jobID != op.jobID)
      && op.job.scannedHosts == op.job.compliantHosts == op.job.failedHosts == 0
      && op.job.completedAt == None
  }

  /** A finished task is not reported on again. */
  ghost predicate Disciplined(q: Queue, op: Op) {
    match op
    case Complete(id, _, _) => id in q.tasks ==> IsOpen(q.tasks[id])
    case Fail(id, _, _) => id in q.tasks ==> IsOpen(q.tasks[id])
    case _ => true
  }

  /** The job's three sets of tasks are the same in both queues. */
  ghost predicate SameSets(q: Queue, q': Queue, jobID: string) {
    && OpenTasks(q', jobID) == OpenTasks(q, jobID)
    && TasksIn(q', jobID, Completed) == TasksIn(q, jobID, Completed)
    && TasksIn(q', jobID, Failed) == TasksIn(q, jobID, Failed)
  }

  lemma SameSetsIf(q: Queue, q': Queue, jobID: string)
    requires q'.tasks.Keys == q.tasks.Keys
    requires forall id | id in q.tasks :: q'.tasks[id].jobID == q.tasks[id].jobID &&
               (q'.tasks[id].status == q.tasks[id].status || (IsOpen(q'.tasks[id]) && IsOpen(q.tasks[id])))
    ensures SameSets(q, q', jobID)
  {
  }

  /** One task moved to another status: its job's sets change by that task, other jobs' not at all. */
  lemma OneMoved(q: Queue, q': Queue, id: string, jobID: string)
    requires id in q.tasks && q'.tasks.Keys == q.tasks.Keys && q'.tasks[id].jobID == q.tasks[id].jobID
    requires forall x | x in q.tasks && x != id :: q'.tasks[x] == q.tasks[x]
    ensures jobID != q.tasks[id].jobID ==> SameSets(q, q', jobID)
    ensures jobID == q.tasks[id].jobID ==>
              && forall s :: TasksIn(q', jobID, s) == TasksIn(q, jobID, s) - {id} + if q'.tasks[id].status == s then {id} else {}
    ensures jobID == q.tasks[id].jobID ==>
              OpenTasks(q', jobID) == OpenTasks(q, jobID) - {id} + if IsOpen(q'.tasks[id]) then {id} else {}
  {
  }

  lemma SetShift(s: set<string>, id: string)
    ensures |s - {id}| == |s| - (if id in s then 1 else 0)
    ensures |s - {id} + {id}| == |s| + (if id in s then 0 else 1)
  {
    assert s - {id} + {id} == s + {id};
    if id in s { assert s + {id} == s; }
  }

  /** The same, counted. */
  lemma OneMovedSizes(q: Queue, q': Queue, id: string)
    requires id in q.tasks && q'.tasks.Keys == q.tasks.Keys && q'.tasks[id].jobID == q.tasks[id].jobID
    requires forall x | x in q.tasks && x != id :: q'.tasks[x] == q.tasks[x]
    ensures var j, t, t' := q.tasks[id].jobID, q.tasks[id], q'.tasks[id];
            && |OpenTasks(q', j)| == |OpenTasks(q, j)| - (if IsOpen(t) then 1 else 0) + (if IsOpen(t') then 1 else 0)
            && |TasksIn(q', j, Completed)| == |TasksIn(q, j, Completed)| - (if t.status == Completed then 1 else 0)
                                              + (if t'.status == Completed then 1 else 0)
            && |TasksIn(q', j, Failed)| == |TasksIn(q, j, Failed)| - (if t.status == Failed then 1 else 0)
                                           + (if t'.status == Failed then 1 else 0)
  {
    var j := q.tasks[id].jobID;
    OneMoved(q, q', id, j);
    SetShift(OpenTasks(q, j), id);
    SetShift(TasksIn(q, j, Completed), id);
    SetShift(TasksIn(q, j, Failed), id);
  }

  lemma {:induction false} LeasedAllJobs(q: Queue, picks: seq<string>, worker: string, expires: int)
    requires forall id | id in picks :: id in q.tasks
    ensures var q' := LeasedAll(q, picks, worker, expires);
            && q'.jobs.Keys == q.jobs.Keys
            && forall j | j in q.jobs :: q'.jobs[j] == q.jobs[j]
                                         || (q.jobs[j].status == Queued && q'.jobs[j] == q.jobs[j].(status := InProgress))
  {
    if picks != [] {
      assert picks == picks[..|picks| - 1] + [picks[|picks| - 1]];
      LeasedAllJobs(q, picks[..|picks| - 1], worker, expires);
    }
  }

  lemma LeaseKeepsExact(q: Queue, op: Op)
    requires Exact(q) && op.Lease? && Possible(q, op)
    ensures Exact(Apply(q, op))
  {
    hide LegalLease, LeasedAll, JobExact, SameSets;
    PicksThere(q, op);
    LeasedAllJobs(q, op.picks, op.worker, op.expires);
    LeaseStatuses(q, op);
    var q' := Apply(q, op);
    forall j | j in q'.jobs ensures JobExact(q', j) {
      SameSetsIf(q, q', j);
      StartedExact(q, q', j);
    }
  }

  lemma StartedExact(q: Queue, q': Queue, j: string)
    requires j in q.jobs && j in q'.jobs && JobExact(q, j) && SameSets(q, q', j)
    requires q'.jobs[j] == q.jobs[j] || (q.jobs[j].status == Queued && q'.jobs[j] == q.jobs[j].(status := InProgress))
    ensures JobExact(q', j)
  {
    hide OpenTasks, TasksIn;
  }

  lemma PicksThere(q: Queue, op: Op)
    requires op.Lease? && Possible(q, op)
    ensures forall id | id in op.picks :: id in q.tasks
  {
  }

  lemma LeaseStatuses(q: Queue, op: Op)
    requires op.Lease? && Possible(q, op)
    ensures var q' := Apply(q, op);
            && q'.tasks.Keys == q.tasks.Keys
            && forall id | id in q.tasks :: q'.tasks[id].jobID == q.tasks[id].jobID &&
                 (q'.tasks[id].status == q.tasks[id].status || (IsOpen(q'.tasks[id]) && IsOpen(q.tasks[id])))
  {
    forall id | id in q.tasks
      ensures id in Apply(q, op).tasks && Apply(q, op).tasks[id].jobID == q.tasks[id].jobID
      ensures Apply(q, op).tasks[id].status == q.tasks[id].status || (IsOpen(Apply(q, op).tasks[id]) && IsOpen(q.tasks[id]))
    {
      TaskStep(q, op, id);
    }
  }

  lemma ReclaimKeepsExact(q: Queue, now: int)
    requires Exact(q)
    ensures Exact(Reclaimed(q, now))
  {
    hide JobExact, SameSets;
    var q' := Reclaimed(q, now);
    forall j | j in q'.jobs ensures JobExact(q', j) {
      SameSetsIf(q, q', j);
      StartedExact(q, q', j);
    }
  }

  /** Enqueueing keeps the counters exact exactly when the job is new in this sense. */
  lemma EnqueueKeepsExactIff(q: Queue, op: Op)
    requires Exact(q) && op.Enqueue? && Possible(q, op)
    ensures Exact(Apply(q, op)) <==> NewJob(q, op)
  {
    assert forall id | id in q.tasks :: q.tasks[id].jobID in q.jobs;
    hide Exact, Possible, Apply, NewJob, JobExact, OpenTasks, TasksIn, Distinct;
    if NewJob(q, op) {
      var q' := Apply(q, op);
      EnqueueSets(q, op);
      EnqueuedJobExact(q, op);
      forall j | j in q'.jobs ensures JobExact(q', j) {
        if j != op.jobID { SameSetsExact(q, q', j); }
      }
      AllExact(q');
    } else if Exact(Apply(q, op)) {
      ExactOnlyIfNew(q, op);
    }
  }

  /** With old tasks under the ID, the total is less than the tasks. */
  lemma ExactOnlyIfNew(q: Queue, op: Op)
    requires op.Enqueue? && Possible(q, op) && Exact(Apply(q, op))
    ensures NewJob(q, op)
  {
    var q', j := Apply(q, op), op.jobID;
    var ids := set id | id in op.ids;
    EnqueuedTasks(q, op);
    DistinctSize(op.ids);
    assert JobExact(q', j);
    hide WithTasks, Exact;
    assert ids <= OpenTasks(q', j);
    SubsetSize(ids, OpenTasks(q', j));
    assert |TasksIn(q', j, Completed)| == 0 && |TasksIn(q', j, Failed)| == 0;
    EqualSize(ids, OpenTasks(q', j));
    forall id | id in q.tasks ensures q.tasks[id].jobID != j {
      if q.tasks[id].jobID == j {
        OneOfThree(q', j, id);
        assert false;
      }
    }
  }

  lemma OneOfThree(q: Queue, j: string, id: string)
    requires id in q.tasks && q.tasks[id].jobID == j
    ensures id in OpenTasks(q, j) || id in TasksIn(q, j, Completed) || id in TasksIn(q, j, Failed)
  {
  }

  lemma EqualSize(small: set<string>, large: set<string>)
    requires small <= large && |small| >= |large|
    ensures small == large
  {
    assert large == small + (large - small);
  }

  lemma EnqueuedTasks(q: Queue, op: Op)
    requires op.Enqueue? && Possible(q, op)
    ensures forall id :: id in Apply(q, op).tasks <==> id in q.tasks || id in op.ids
    ensures forall id | id in op.ids ::
              id !in q.tasks && Apply(q, op).tasks[id].jobID == op.jobID && Apply(q, op).tasks[id].status == Pending
    ensures forall id | id in q.tasks :: Apply(q, op).tasks[id] == q.tasks[id]
  {
    forall id ensures (id in Apply(q, op).tasks <==> id in q.tasks || id in op.ids)
              ensures id in op.ids ==> Apply(q, op).tasks[id].jobID == op.jobID && Apply(q, op).tasks[id].status == Pending
              ensures id in q.tasks ==> Apply(q, op).tasks[id] == q.tasks[id]
    {
      WithTasksAt(q.tasks, op.jobID, op.ids, op.ips, id);
    }
  }

  lemma SameSetsExact(q: Queue, q': Queue, j: string)
    requires Exact(q) && j in q.jobs && j in q'.jobs && q'.jobs[j] == q.jobs[j] && SameSets(q, q', j)
    ensures JobExact(q', j)
  {
    hide OpenTasks, TasksIn;
    assert JobExact(q, j);
  }

  lemma AllExact(q: Queue)
    requires forall id | id in q.tasks :: q.tasks[id].jobID in q.jobs
    requires forall j | j in q.jobs :: JobExact(q, j)
    ensures Exact(q)
  {
    hide JobExact;
  }

  /** Enqueueing a new job leaves it with open tasks only, and other jobs alone. */
  lemma EnqueueSets(q: Queue, op: Op)
    requires op.Enqueue? && Possible(q, op) && NewJob(q, op) && forall id | id in q.tasks :: q.tasks[id].jobID in q.jobs
    ensures var q' := Apply(q, op);
            && q'.jobs == q.jobs[op.jobID := op.job.(totalHosts := |op.ips|, status := Queued)]
            && (forall id | id in q'.tasks :: q'.tasks[id].jobID in q'.jobs)
            && (forall j | j in q.jobs && j != op.jobID :: SameSets(q, q', j))
            && OpenTasks(q', op.jobID) == (set id | id in op.ids)
            && TasksIn(q', op.jobID, Completed) == {} && TasksIn(q', op.jobID, Failed) == {}
  {
    EnqueuedTasks(q, op);
    hide WithTasks;
  }

  lemma EnqueuedJobExact(q: Queue, op: Op)
    requires op.Enqueue? && Possible(q, op) && NewJob(q, op) && forall id | id in q.tasks :: q.tasks[id].jobID in q.jobs
    ensures op.jobID in Apply(q, op).jobs && JobExact(Apply(q, op), op.jobID)
  {
    hide WithTasks, OpenTasks, TasksIn, SameSets;
    EnqueueSets(q, op);
    DistinctSize(op.ids);
  }

  /** What completing does, record by record. */
  lemma CompletedParts(q: Queue, id: string, isCompliant: bool, now: int)
    requires id in q.tasks && q.tasks[id].jobID in q.jobs
    ensures var q', t := CompletedOne(q, id, isCompliant, now), q.tasks[id];
            && q'.tasks.Keys == q.tasks.Keys && q'.jobs.Keys == q.jobs.Keys
            && q'.tasks[id] == t.(status := Completed)
            && (forall x | x in q.tasks && x != id :: q'.tasks[x] == q.tasks[x])
            && (forall j | j in q.jobs && j != t.jobID :: q'.jobs[j] == q.jobs[j])
            && q'.jobs[t.jobID] == Finalized(q.jobs[t.jobID].(
                 scannedHosts := q.jobs[t.jobID].scannedHosts + 1,
                 compliantHosts := q.jobs[t.jobID].compliantHosts + if isCompliant then 1 else 0), now)
  {
  }

  /** Completing a task keeps the counters exact exactly when the task was still open. */
  lemma CompleteKeepsExactIff(q: Queue, id: string, isCompliant: bool, now: int)
    requires Exact(q) && id in q.tasks
    ensures Exact(CompletedOne(q, id, isCompliant, now)) <==> IsOpen(q.tasks[id])
  {
    hide CompletedOne, OpenTasks, TasksIn, SameSets;
    var q', j0 := CompletedOne(q, id, isCompliant, now), q.tasks[id].jobID;
    assert JobExact(q, j0);
    CompletedParts(q, id, isCompliant, now);
    OneMovedSizes(q, q', id);
    if IsOpen(q.tasks[id]) {
      assert JobExact(q', j0);
      OthersExact(q, q', id);
    } else {
      assert j0 in q'.jobs && !JobExact(q', j0);
    }
  }

  lemma OthersExact(q: Queue, q': Queue, id: string)
    requires Exact(q) && id in q.tasks && q'.tasks.Keys == q.tasks.Keys && q'.tasks[id].jobID == q.tasks[id].jobID
    requires forall x | x in q.tasks && x != id :: q'.tasks[x] == q.tasks[x]
    requires q'.jobs.Keys == q.jobs.Keys && forall j | j in q.jobs && j != q.tasks[id].jobID :: q'.jobs[j] == q.jobs[j]
    requires JobExact(q', q.tasks[id].jobID)
    ensures Exact(q')
  {
    hide OpenTasks, TasksIn;
    forall j | j in q'.jobs ensures JobExact(q', j) {
      if j != q.tasks[id].jobID {
        OneMoved(q, q', id, j);
        assert JobExact(q, j);
      }
    }
  }

  lemma FailedParts(q: Queue, id: string, retryable: bool, now: int)
    requires id in q.tasks && q.tasks[id].jobID in q.jobs
    ensures var q', t := FailedOne(q, id, retryable, now), q.tasks[id];
            && q'.tasks.Keys == q.tasks.Keys && q'.jobs.Keys == q.jobs.Keys
            && q'.tasks[id].jobID == t.jobID
            && q'.tasks[id].status == (if Retries(t, retryable) then Pending else Failed)
            && (forall x | x in q.tasks && x != id :: q'.tasks[x] == q.tasks[x])
            && (forall j | j in q.jobs && j != t.jobID :: q'.jobs[j] == q.jobs[j])
            && q'.jobs[t.jobID] == (if Retries(t, retryable) then q.jobs[t.jobID]
                                    else Finalized(q.jobs[t.jobID].(failedHosts := q.jobs[t.jobID].failedHosts + 1), now))
  {
  }

  /** So does failing it, whether it is retried or given up. */
  lemma FailKeepsExactIff(q: Queue, id: string, retryable: bool, now: int)
    requires Exact(q) && id in q.tasks
    ensures Exact(FailedOne(q, id, retryable, now)) <==> IsOpen(q.tasks[id])
  {
    hide FailedOne, OpenTasks, TasksIn, SameSets, Retries;
    var q', j0 := FailedOne(q, id, retryable, now), q.tasks[id].jobID;
    assert JobExact(q, j0);
    FailedParts(q, id, retryable, now);
    OneMovedSizes(q, q', id);
    if IsOpen(q.tasks[id]) {
      assert JobExact(q', j0);
      OthersExact(q, q', id);
    } else {
      assert j0 in q'.jobs && !JobExact(q', j0);
    }
  }

  /** A call keeps the counters exact exactly when it enqueues a new job, or reports on no finished task. */
  lemma StepKeepsExactIff(q: Queue, op: Op)
    requires Exact(q) && Possible(q, op)
    ensures Exact(Apply(q, op)) <==> NewJob(q, op) && Disciplined(q, op)
  {
    hide Exact, WithTasks, LeasedAll, Reclaimed, CompletedOne, FailedOne, Enqueued;
    match op
    case Enqueue(_, _, _, _) => EnqueueKeepsExactIff(q, op);
    case Lease(_, _, _, _) => LeaseKeepsExact(q, op);
    case Complete(id, isCompliant, now) => if id in q.tasks { CompleteKeepsExactIff(q, id, isCompliant, now); }
    case Fail(id, retryable, now) => if id in q.tasks { FailKeepsExactIff(q, id, retryable, now); }
    case Reclaim(now) => ReclaimKeepsExact(q, now);
  }

  /** In every run whose callers report on each task once, every job's counters and status match its tasks. */
  lemma {:induction false} CountersExact(qs: seq<Queue>, ops: seq<Op>, n: nat)
    requires Run(qs, ops) && n <= |ops|
    requires forall i | 0 <= i < n :: NewJob(qs[i], ops[i]) && Disciplined(qs[i], ops[i])
    ensures Exact(qs[n])
  {
    if n > 0 {
      CountersExact(qs, ops, n - 1);
      assert Possible(qs[n - 1], ops[n - 1]) && qs[n - 1 + 1] == Apply(qs[n - 1], ops[n - 1]);
      StepKeepsExactIff(qs[n - 1], ops[n - 1]);
    }
  }

  // ----- Without that discipline ------------------------------------------------------------

  ghost function Finished(q: Queue, j: string): nat {
    |TasksIn(q, j, Completed)| + |TasksIn(q, j, Failed)|
  }

  /** The counters never fall behind the tasks that are finished. */
  ghost predicate Covered(q: Queue) {
    && (forall id | id in q.tasks :: q.tasks[id].jobID in q.jobs)
    && forall j | j in q.jobs ::
         && q.jobs[j].scannedHosts + q.jobs[j].failedHosts >= Finished(q, j)
         && 0 <= q.jobs[j].compliantHosts <= q.jobs[j].scannedHosts
  }

  /** One task's move adds at most one finished task to its own job, and only if it ends finished. */
  lemma FinishedMoved(q: Queue, q': Queue, id: string, j: string)
    requires id in q.tasks && q'.tasks.Keys == q.tasks.Keys && q'.tasks[id].jobID == q.tasks[id].jobID
    requires forall x | x in q.tasks && x != id :: q'.tasks[x] == q.tasks[x]
    ensures Finished(q', j) <= Finished(q, j) + if j == q.tasks[id].jobID && !IsOpen(q'.tasks[id]) then 1 else 0
  {
    hide TasksIn, OpenTasks;
    OneMoved(q, q', id, j);
    if j == q.tasks[id].jobID { OneMovedSizes(q, q', id); }
  }

  lemma SameSetsCovered(q: Queue, q': Queue, j: string)
    requires q'.tasks.Keys == q.tasks.Keys
    requires forall id | id in q.tasks :: q'.tasks[id].jobID == q.tasks[id].jobID &&
               (q'.tasks[id].status == q.tasks[id].status || (IsOpen(q'.tasks[id]) && IsOpen(q.tasks[id])))
    ensures Finished(q', j) == Finished(q, j)
  {
    SameSetsIf(q, q', j);
  }

  lemma LeaseKeepsCovered(q: Queue, op: Op)
    requires Covered(q) && op.Lease? && Possible(q, op)
    ensures Covered(Apply(q, op))
  {
    hide LegalLease, LeasedAll, Finished;
    PicksThere(q, op);
    LeasedAllJobs(q, op.picks, op.worker, op.expires);
    LeaseStatuses(q, op);
    var q' := Apply(q, op);
    forall j ensures Finished(q', j) == Finished(q, j) { SameSetsCovered(q, q', j); }
  }

  lemma ReportKeepsCovered(q: Queue, op: Op)
    requires Covered(q) && (op.Complete? || op.Fail?) && op.id in q.tasks
    ensures Covered(Apply(q, op))
  {
    hide Finished, Retries, CompletedOne, FailedOne;
    var q' := Apply(q, op);
    if op.Complete? {
      CompletedParts(q, op.id, op.isCompliant, op.now);
    } else {
      FailedParts(q, op.id, op.retryable, op.now);
    }
    forall j ensures Finished(q', j) <= Finished(q, j) + if j == q.tasks[op.id].jobID && !IsOpen(q'.tasks[op.id]) then 1 else 0 {
      FinishedMoved(q, q', op.id, j);
    }
  }

  lemma ReclaimKeepsCovered(q: Queue, now: int)
    requires Covered(q)
    ensures Covered(Reclaimed(q, now))
  {
    hide Finished;
    forall j ensures Finished(Reclaimed(q, now), j) == Finished(q, j) { SameSetsCovered(q, Reclaimed(q, now), j); }
  }

  /** Enqueueing finishes no task; the job's record is replaced and its new tasks are open. */
  lemma EnqueueFinishes(q: Queue, op: Op, j: string)
    requires op.Enqueue? && Possible(q, op) && forall id | id in q.tasks :: q.tasks[id].jobID in q.jobs
    ensures var q' := Apply(q, op);
            && q'.jobs == q.jobs[op.jobID := op.job.(totalHosts := |op.ips|, status := Queued)]
            && (forall id | id in q'.tasks :: q'.tasks[id].jobID in q'.jobs)
            && Finished(q', j) == Finished(q, j)
  {
    var q' := Apply(q, op);
    EnqueuedTasks(q, op);
    hide WithTasks;
    assert TasksIn(q', j, Completed) == TasksIn(q, j, Completed);
    assert TasksIn(q', j, Failed) == TasksIn(q, j, Failed);
  }

  /** The counters a job comes with do not fall behind the finished tasks already under its ID. */
  ghost predicate ComesCovered(q: Queue, op: Op) {
    op.Enqueue? ==>
      && op.job.scannedHosts + op.job.failedHosts >= Finished(q, op.jobID)
      && 0 <= op.job.compliantHosts <= op.job.scannedHosts
  }

  /** A job enqueued under a used ID replaces the record: the counters then cover the tasks only if it comes so. */
  lemma EnqueueKeepsCoveredIff(q: Queue, op: Op)
    requires Covered(q) && op.Enqueue? && Possible(q, op)
    ensures Covered(Apply(q, op)) <==> ComesCovered(q, op)
  {
    hide Possible, Apply, Finished;
    forall j ensures Finished(Apply(q, op), j) == Finished(q, j) {
      EnqueueFinishes(q, op, j);
    }
    EnqueueFinishes(q, op, op.jobID);
  }

  lemma StepKeepsCovered(q: Queue, op: Op)
    requires Covered(q) && Possible(q, op) && ComesCovered(q, op)
    ensures Covered(Apply(q, op))
  {
    hide Covered, WithTasks, LeasedAll, Reclaimed, CompletedOne, FailedOne, Enqueued;
    match op
    case Enqueue(_, _, _, _) => EnqueueKeepsCoveredIff(q, op);
    case Lease(_, _, _, _) => LeaseKeepsCovered(q, op);
    case Complete(id, _, _) => if id in q.tasks { ReportKeepsCovered(q, op); }
    case Fail(id, _, _) => if id in q.tasks { ReportKeepsCovered(q, op); }
    case Reclaim(now) => ReclaimKeepsCovered(q, now);
  }

  /**
    In every run, whatever is reported how often, scanned plus failed hosts are at least the finished
    tasks and compliant at most scanned, as long as no used job ID is enqueued again with less.
  */
  lemma {:induction false} CountersCover(qs: seq<Queue>, ops: seq<Op>, n: nat)
    requires Run(qs, ops) && n <= |ops|
    requires forall i | 0 <= i < n :: ComesCovered(qs[i], ops[i])
    ensures Covered(qs[n])
  {
    if n > 0 {
      CountersCover(qs, ops, n - 1);
      assert Possible(qs[n - 1], ops[n - 1]) && qs[n - 1 + 1] == Apply(qs[n - 1], ops[n - 1]);
      StepKeepsCovered(qs[n - 1], ops[n - 1]);
    }
  }
}
