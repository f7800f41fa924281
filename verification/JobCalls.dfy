/** What each call of the job queue does, in the fields of the jobs and tasks themselves. */
module JobCalls {
  import opened Prelude
  import opened JobQueue
  import opened JobQueueRuns

  /** Every target gets its own pending task, with two retries, and the job waits for all of them. */
  lemma EnqueueMeans(q: Queue, op: Op)
    requires op.Enqueue? && Possible(q, op)
    ensures var q' := Apply(q, op);
            && (forall i | 0 <= i < |op.ips| ::
                  op.ids[i] in q'.tasks && q'.tasks[op.ids[i]] == Task(op.jobID, op.ips[i], Pending, 0, 2, "", None))
            && (forall id :: id in q'.tasks <==> id in q.tasks || id in op.ids)
            && (forall id | id in q.tasks :: q'.tasks[id] == q.tasks[id])
            && q'.jobs == q.jobs[op.jobID := op.job.(totalHosts := |op.ips|, status := Queued)]
  {
    forall i | 0 <= i < |op.ips|
      ensures op.ids[i] in Apply(q, op).tasks
      ensures Apply(q, op).tasks[op.ids[i]] == Task(op.jobID, op.ips[i], Pending, 0, 2, "", None)
    {
      TargetAt(q.tasks, op.jobID, op.ids, op.ips, i);
    }
    forall id ensures id in Apply(q, op).tasks <==> id in q.tasks || id in op.ids
              ensures id in q.tasks ==> Apply(q, op).tasks[id] == q.tasks[id] {
      WithTasksAt(q.tasks, op.jobID, op.ids, op.ips, id);
    }
    hide WithTasks;
  }

  lemma {:induction false} TargetAt(tasks: map<string, Task>, jobID: string, ids: seq<string>, ips: seq<string>, i: nat)
    requires |ids| == |ips| && Distinct(ids) && i < |ids|
    ensures var after := WithTasks(tasks, jobID, ids, ips);
            ids[i] in after && after[ids[i]] == Task(jobID, ips[i], Pending, 0, 2, "", None)
  {
    var n := |ids| - 1;
    if i < n {
      TargetAt(tasks, jobID, ids[..n], ips[..n], i);
    }
  }

  /** A batch is full or takes every pending task; its tasks are held until the lease expires, and their jobs are under way. */
  lemma LeaseMeans(q: Queue, op: Op)
    requires op.Lease? && Possible(q, op)
    ensures forall i, j | 0 <= i < j < |op.picks| :: op.picks[i] != op.picks[j]
    ensures forall id | id in op.picks :: id in q.tasks && q.tasks[id].status == Pending
    ensures |op.picks| <= op.batchSize || |op.picks| <= 1
    ensures |op.picks| < op.batchSize || op.picks == [] ==> forall id | id in q.tasks && q.tasks[id].status == Pending :: id in op.picks
    ensures var q' := Apply(q, op);
            && q'.tasks.Keys == q.tasks.Keys && q'.jobs.Keys == q.jobs.Keys
            && (forall id | id in op.picks ::
                  q'.tasks[id] == q.tasks[id].(status := Leased, leasedBy := op.worker, leaseExpiresAt := Some(op.expires)))
            && (forall id | id in q.tasks && id !in op.picks :: q'.tasks[id] == q.tasks[id])
            && (forall j | j in q.jobs ::
                  q'.jobs[j] == if q.jobs[j].status == Queued && exists id :: id in op.picks && q.tasks[id].jobID == j
                                then q.jobs[j].(status := InProgress) else q.jobs[j])
  {
    forall id | id in q.tasks
      ensures id in Apply(q, op).tasks
      ensures Apply(q, op).tasks[id] ==
              if id in op.picks then q.tasks[id].(status := Leased, leasedBy := op.worker, leaseExpiresAt := Some(op.expires))
              else q.tasks[id]
    {
      TaskStep(q, op, id);
    }
    forall j | j in q.jobs
      ensures j in Apply(q, op).jobs && Apply(q, op).jobs[j] == StartedIf(q.jobs[j], exists id :: id in op.picks && q.tasks[id].jobID == j)
    {
      StartedJobs(q, op.picks, op.worker, op.expires);
      assert Reaches(q, op.picks, j) <==> exists id :: id in op.picks && q.tasks[id].jobID == j;
    }
    StartedJobs(q, op.picks, op.worker, op.expires);
    BatchTakesAll(q, op.picks, op.batchSize);
    hide LeasedAll, IDsWith;
  }

  lemma BatchTakesAll(q: Queue, picks: seq<string>, batchSize: int)
    requires LegalLease(q, picks, batchSize)
    ensures |picks| < batchSize || picks == [] ==> forall id | id in q.tasks && q.tasks[id].status == Pending :: id in picks
  {
    DistinctSize(picks);
    var picked := set id | id in picks;
    var pending := IDsWith(q, Pending);
    assert pending == picked + (pending - picked);
    if |picks| < batchSize || picks == [] {
      assert |pending| == |picks|;
      assert pending - picked == {};
      assert forall id | id in q.tasks && q.tasks[id].status == Pending :: id in pending;
    }
  }

  /** Some task of the batch is the job's. */
  ghost predicate Reaches(q: Queue, picks: seq<string>, j: string)
    requires forall id | id in picks :: id in q.tasks
  {
    exists id :: id in picks && q.tasks[id].jobID == j
  }

  function StartedIf(job: Job, reached: bool): Job {
    if job.status == Queued && reached then job.(status := InProgress) else job
  }

  lemma {:induction false} StartedJobs(q: Queue, picks: seq<string>, worker: string, expires: int)
    requires forall id | id in picks :: id in q.tasks
    ensures var q' := LeasedAll(q, picks, worker, expires);
            && q'.jobs.Keys == q.jobs.Keys
            && (forall id | id in q.tasks :: q'.tasks[id].jobID == q.tasks[id].jobID)
            && (forall j | j in q.jobs :: q'.jobs[j] == StartedIf(q.jobs[j], Reaches(q, picks, j)))
  {
    hide StartedIf, LeasedOne;
    if picks != [] {
      var n := |picks| - 1;
      assert picks == picks[..n] + [picks[n]];
      StartedJobs(q, picks[..n], worker, expires);
      StartsOne(LeasedAll(q, picks[..n], worker, expires), picks[n], worker, expires);
      forall j | j in q.jobs ensures Reaches(q, picks, j) <==> Reaches(q, picks[..n], j) || q.tasks[picks[n]].jobID == j {
      }
      StartedTwice();
    } else {
      forall j | j in q.jobs ensures StartedIf(q.jobs[j], Reaches(q, picks, j)) == q.jobs[j] {
        NotStarted(q.jobs[j]);
      }
    }
  }

  lemma NotStarted(job: Job)
    ensures StartedIf(job, false) == job
  {
  }

  lemma StartedTwice()
    ensures forall job: Job, a: bool, b: bool :: StartedIf(StartedIf(job, a), b) == StartedIf(job, a || b)
  {
  }

  lemma StartsOne(q: Queue, id: string, worker: string, expires: int)
    requires id in q.tasks
    ensures var q' := LeasedOne(q, id, worker, expires);
            && q'.jobs.Keys == q.jobs.Keys && q'.tasks.Keys == q.tasks.Keys
            && (forall x | x in q.tasks :: q'.tasks[x].jobID == q.tasks[x].jobID)
            && (forall j | j in q.jobs :: q'.jobs[j] == StartedIf(q.jobs[j], q.tasks[id].jobID == j))
  {
  }

  /** The job after one more of its hosts was counted: final, as of now, once all its hosts are counted. */
  predicate CountsOn(before: Job, after: Job, scanned: int, compliant: int, failed: int, now: int) {
    && after.totalHosts == before.totalHosts
    && after.scannedHosts == before.scannedHosts + scanned
    && after.compliantHosts == before.compliantHosts + compliant
    && after.failedHosts == before.failedHosts + failed
    && (after.totalHosts - after.scannedHosts - after.failedHosts <= 0 ==> after.status == JobCompleted && after.completedAt == Some(now))
    && (after.totalHosts - after.scannedHosts - after.failedHosts > 0 ==>
          after.status == before.status && after.completedAt == before.completedAt)
  }

  /** Completing a task counts its host as scanned, and as compliant if it is; every other task and job stays. */
  lemma CompleteMeans(q: Queue, id: string, isCompliant: bool, now: int)
    ensures var q' := Apply(q, Complete(id, isCompliant, now));
            if id in q.tasks then
              && q'.tasks == q.tasks[id := q.tasks[id].(status := Completed)] && OthersStay(q, q', q.tasks[id].jobID)
              && (q.tasks[id].jobID in q.jobs ==>
                    CountsOn(q.jobs[q.tasks[id].jobID], q'.jobs[q.tasks[id].jobID], 1, if isCompliant then 1 else 0, 0, now))
            else q' == q
  {
  }

  ghost predicate OthersStay(q: Queue, q': Queue, jobID: string) {
    q'.jobs.Keys == q.jobs.Keys && forall j | j in q.jobs && j != jobID :: q'.jobs[j] == q.jobs[j]
  }

  /** A failure that may be retried puts the task back, one retry poorer; any other is final and counts its host as failed. */
  lemma FailMeans(q: Queue, id: string, retryable: bool, now: int)
    requires id in q.tasks
    ensures var q', t := Apply(q, Fail(id, retryable, now)), q.tasks[id];
            if retryable && t.maxRetries - t.retryCount > 0 then
              && q'.tasks == q.tasks[id := Task(t.jobID, t.targetIP, Pending, t.retryCount + 1, t.maxRetries, "", None)]
              && q'.jobs == q.jobs
            else
              && q'.tasks == q.tasks[id := t.(status := Failed)] && OthersStay(q, q', t.jobID)
              && (t.jobID in q.jobs ==> CountsOn(q.jobs[t.jobID], q'.jobs[t.jobID], 0, 0, 1, now))
  {
  }

  /** Reclaiming puts back the tasks whose lease ended before now, without charging a retry; a lease that runs on is kept. */
  lemma ReclaimMeans(q: Queue, now: int, id: string)
    requires id in q.tasks
    ensures var q', t := Apply(q, Reclaim(now)), q.tasks[id];
            && q'.jobs == q.jobs && q'.tasks.Keys == q.tasks.Keys
            && (t.status == Leased && t.leaseExpiresAt.Some? && t.leaseExpiresAt.value < now ==>
                  q'.tasks[id] == Task(t.jobID, t.targetIP, Pending, t.retryCount, t.maxRetries, "", None))
            && (t.status != Leased || t.leaseExpiresAt.None? || t.leaseExpiresAt.value >= now ==> q'.tasks[id] == t)
  {
  }

  // ----- Whole runs --------------------------------------------------------------------------------

  /** How many hosts of a job the first n calls of a run reported as compliant. */
  ghost function CompliantReports(qs: seq<Queue>, ops: seq<Op>, from: nat, n: nat, jobID: string): nat
    requires from <= n <= |ops| && |qs| == |ops| + 1
  {
    if n == from then 0
    else
      var q, op := qs[n - 1], ops[n - 1];
      CompliantReports(qs, ops, from, n - 1, jobID)
      + if op.Complete? && op.isCompliant && op.id in q.tasks && q.tasks[op.id].jobID == jobID then 1 else 0
  }

  /** Over any stretch of a run that does not enqueue the job anew, its compliant hosts grow by its compliant reports. */
  lemma {:induction false} CompliantHostsCountReports(qs: seq<Queue>, ops: seq<Op>, from: nat, n: nat, jobID: string)
    requires Run(qs, ops) && from <= n <= |ops| && jobID in qs[from].jobs
    requires forall i | from <= i < n :: !(ops[i].Enqueue? && ops[i].jobID == jobID)
    ensures jobID in qs[n].jobs
    ensures qs[n].jobs[jobID].compliantHosts == qs[from].jobs[jobID].compliantHosts + CompliantReports(qs, ops, from, n, jobID)
    ensures qs[n].jobs[jobID].totalHosts == qs[from].jobs[jobID].totalHosts
  {
    if from < n {
      CompliantHostsCountReports(qs, ops, from, n - 1, jobID);
      var q, op := qs[n - 1], ops[n - 1];
      assert Possible(q, op) && qs[n - 1 + 1] == Apply(q, op);
      CompliantStep(q, op, jobID);
    }
  }

  lemma CompliantStep(q: Queue, op: Op, jobID: string)
    requires Possible(q, op) && jobID in q.jobs && !(op.Enqueue? && op.jobID == jobID)
    ensures var q' := Apply(q, op);
            && jobID in q'.jobs && q'.jobs[jobID].totalHosts == q.jobs[jobID].totalHosts
            && q'.jobs[jobID].compliantHosts == q.jobs[jobID].compliantHosts
                 + if op.Complete? && op.isCompliant && op.id in q.tasks && q.tasks[op.id].jobID == jobID then 1 else 0
  {
    hide Apply, Possible, CompletedOne, FailedOne;
    if op.Enqueue? {
      EnqueueMeans(q, op);
    } else if op.Lease? {
      LeaseMeans(q, op);
    } else if op.Complete? {
      CompleteMeans(q, op.id, op.isCompliant, op.now);
    } else if op.Fail? {
      if op.id in q.tasks { FailMeans(q, op.id, op.retryable, op.now); } else { UnknownStays(q, op); }
    } else {
      ReclaimJobs(q, op.now);
    }
  }

  /** Failing a task that does not exist changes nothing. */
  lemma UnknownStays(q: Queue, op: Op)
    requires op.Fail? && op.id !in q.tasks
    ensures Apply(q, op) == q
  {
  }

  lemma ReclaimJobs(q: Queue, now: int)
    ensures Apply(q, Reclaim(now)).jobs == q.jobs
  {
  }
}
