/** What every run of the job queue keeps: bounded leases, and counters that match the tasks. */
module JobQueueRuns {
  import opened Prelude
  import opened JobQueue

  /** One call, with the choices it made: which IDs were drawn, which tasks were leased. */
  datatype Op =
    | Enqueue(jobID: string, job: Job, ids: seq<string>, ips: seq<string>)
    | Lease(picks: seq<string>, batchSize: int, worker: string, expires: int)
    | Complete(id: string, isCompliant: bool, now: int)
    | Fail(id: string, retryable: bool, now: int)
    | Reclaim(now: int)

  /** Task IDs are fresh, and batches are what LeaseBatch returns. Nothing is asked of the callers. */
  ghost predicate Possible(q: Queue, op: Op) {
    match op
    case Enqueue(_, _, ids, ips) => |ids| == |ips| && Distinct(ids) && forall id | id in ids :: id !in q.tasks
    case Lease(picks, batchSize, _, _) => LegalLease(q, picks, batchSize)
    case _ => true
  }

  ghost function Apply(q: Queue, op: Op): Queue
    requires Possible(q, op)
  {
    match op
    case Enqueue(jobID, job, ids, ips) => Enqueued(q, jobID, job, ids, ips)
    case Lease(picks, _, worker, expires) => LeasedAll(q, picks, worker, expires)
    case Complete(id, isCompliant, now) => if id in q.tasks then CompletedOne(q, id, isCompliant, now) else q
    case Fail(id, retryable, now) => if id in q.tasks then FailedOne(q, id, retryable, now) else q
    case Reclaim(now) => Reclaimed(q, now)
  }

  /** A run from the empty queue, given by its calls and the queue before and after each of them. */
  ghost predicate Run(qs: seq<Queue>, ops: seq<Op>) {
    && |qs| == |ops| + 1 && qs[0] == EmptyQueue
    && forall i | 0 <= i < |ops| :: Possible(qs[i], ops[i]) && qs[i + 1] == Apply(qs[i], ops[i])
  }

  // ----- One task's history -----------------------------------------------------------------

  /** How often the first `n` calls of a run leased a task. */
  ghost function Grants(ops: seq<Op>, n: nat, id: string): nat
    requires n <= |ops|
  {
    if n == 0 then 0
    else Grants(ops, n - 1, id) + if ops[n - 1].Lease? && id in ops[n - 1].picks then 1 else 0
  }

  /** How often they took back an expired lease on it. */
  ghost function Reclaims(qs: seq<Queue>, ops: seq<Op>, n: nat, id: string): nat
    requires n <= |ops| && |qs| == |ops| + 1
  {
    if n == 0 then 0
    else Reclaims(qs, ops, n - 1, id) + if ops[n - 1].Reclaim? && id in ExpiredIDs(qs[n - 1], ops[n - 1].now) then 1 else 0
  }

  lemma {:induction false} WithTasksAt(tasks: map<string, Task>, jobID: string, ids: seq<string>, ips: seq<string>, id: string)
    requires |ids| == |ips|
    ensures var after := WithTasks(tasks, jobID, ids, ips);
            && (id in after <==> id in tasks || id in ids)
            && (id in ids ==> exists ip :: after[id] == NewTask(jobID, ip))
            && (id in tasks && id !in ids ==> after[id] == tasks[id])
  {
    if ids != [] {
      var n := |ids| - 1;
      WithTasksAt(tasks, jobID, ids[..n], ips[..n], id);
      assert ids == ids[..n] + [ids[n]];
      if id == ids[n] {
        assert WithTasks(tasks, jobID, ids, ips)[id] == NewTask(jobID, ips[n]);
      }
    }
  }

  lemma {:induction false} LeasedAllPicked(q: Queue, picks: seq<string>, worker: string, expires: int, id: string)
    requires Distinct(picks) && id in picks && forall x | x in picks :: x in q.tasks
    ensures LeasedAll(q, picks, worker, expires).tasks[id]
         == q.tasks[id].(status := Leased, leasedBy := worker, leaseExpiresAt := Some(expires))
  {
    var n := |picks| - 1;
    assert picks == picks[..n] + [picks[n]];
    if id == picks[n] {
      LeasedAllAt(q, picks[..n], worker, expires, id);
    } else {
      LeasedAllPicked(q, picks[..n], worker, expires, id);
    }
  }

  /** What one call does to one task that is already there. */
  lemma TaskStep(q: Queue, op: Op, id: string)
    requires Possible(q, op) && id in q.tasks
    ensures id in Apply(q, op).tasks
    ensures var t, t' := q.tasks[id], Apply(q, op).tasks[id];
            match op
            case Enqueue(_, _, _, _) => t' == t
            case Lease(picks, _, worker, expires) =>
              t' == if id in picks then t.(status := Leased, leasedBy := worker, leaseExpiresAt := Some(expires)) else t
            case Complete(x, _, _) => t' == if id == x then t.(status := Completed) else t
            case Fail(x, retryable, _) =>
              t' == if id != x then t
                    else if Retries(t, retryable) then Reset(t.(retryCount := t.retryCount + 1)) else t.(status := Failed)
            case Reclaim(now) => t' == if Expired(t, now) then Reset(t) else t
  {
    match op
    case Enqueue(jobID, job, ids, ips) => WithTasksAt(q.tasks, jobID, ids, ips, id);
    case Lease(picks, _, worker, expires) =>
      if id in picks { LeasedAllPicked(q, picks, worker, expires, id); } else { LeasedAllAt(q, picks, worker, expires, id); }
    case _ =>
  }

  /** A task that a call created is pending, with no retries. */
  lemma NewTaskStep(q: Queue, op: Op, id: string)
    requires Possible(q, op) && id !in q.tasks && id in Apply(q, op).tasks
    ensures op.Enqueue? && id in op.ids
    ensures exists ip :: Apply(q, op).tasks[id] == NewTask(op.jobID, ip)
  {
    if op.Enqueue? { WithTasksAt(q.tasks, op.jobID, op.ids, op.ips, id); }
  }

  /** What is known of a task after `n` calls. */
  ghost predicate TaskInv(qs: seq<Queue>, ops: seq<Op>, n: nat, id: string)
    requires n <= |ops| && |qs| == |ops| + 1
  {
    if id !in qs[n].tasks then Grants(ops, n, id) == 0 && Reclaims(qs, ops, n, id) == 0
    else
      var t := qs[n].tasks[id];
      && 0 <= t.retryCount <= t.maxRetries == MAX_RETRIES
      && (t.status == Leased ==> t.leaseExpiresAt.Some?)
      && Grants(ops, n, id) + (if t.status == Pending then 1 else 0) <= 1 + t.retryCount + Reclaims(qs, ops, n, id)
  }

  lemma {:induction false} TaskInvHolds(qs: seq<Queue>, ops: seq<Op>, n: nat, id: string)
    requires Run(qs, ops) && n <= |ops|
    ensures TaskInv(qs, ops, n, id)
  {
    if n > 0 {
      TaskInvHolds(qs, ops, n - 1, id);
      var q, op := qs[n - 1], ops[n - 1];
      assert Possible(q, op) && qs[n - 1 + 1] == Apply(q, op);
      hide Run, WithTasks, LeasedAll, Reclaimed, Enqueued;
      if id in q.tasks {
        TaskStep(q, op, id);
      } else if id in qs[n].tasks {
        NewTaskStep(q, op, id);
      }
    }
  }

  /**
    In every run, whatever the callers do: a task is leased at most once more than it was retried and
    reclaimed, and it is retried at most twice.
    */
  lemma LeasesBounded(qs: seq<Queue>, ops: seq<Op>, id: string)
    requires Run(qs, ops) && id in qs[|ops|].tasks
    ensures var t := qs[|ops|].tasks[id];
            && 0 <= t.retryCount <= t.maxRetries == 2
            && Grants(ops, |ops|, id) <= 1 + t.retryCount + Reclaims(qs, ops, |ops|, id)
  {
    TaskInvHolds(qs, ops, |ops|, id);
  }

  /** After a reclaim every lease that is left runs at least until then: no task stays with a dead worker. */
  lemma ReclaimLeavesNoneExpired(qs: seq<Queue>, ops: seq<Op>, i: nat, id: string)
    requires Run(qs, ops) && i < |ops| && ops[i].Reclaim?
    requires id in qs[i + 1].tasks && qs[i + 1].tasks[id].status == Leased
    ensures qs[i + 1].tasks[id].leaseExpiresAt.Some? && qs[i + 1].tasks[id].leaseExpiresAt.value >= ops[i].now
  {
    TaskInvHolds(qs, ops, i + 1, id);
    TaskInvHolds(qs, ops, i, id);
    assert qs[i + 1] == Apply(qs[i], ops[i]);
  }

  /** A batch takes nothing that another worker still holds. */
  lemma BatchTakesNoHeldTask(qs: seq<Queue>, ops: seq<Op>, i: nat, id: string)
    requires Run(qs, ops) && i < |ops| && ops[i].Lease? && id in ops[i].picks
    ensures id in qs[i].tasks && qs[i].tasks[id].status != Leased
    ensures id in qs[i + 1].tasks && qs[i + 1].tasks[id].leasedBy == ops[i].worker
    ensures qs[i + 1].tasks[id].leaseExpiresAt == Some(ops[i].expires)
  {
    assert Possible(qs[i], ops[i]) && qs[i + 1] == Apply(qs[i], ops[i]);
    TaskStep(qs[i], ops[i], id);
  }
}
