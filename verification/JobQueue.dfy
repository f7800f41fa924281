/**
  The leased job queue: bulk scan jobs, one task per host, leases that expire, bounded retries and
  the job counters derived from them. Times are integers; `now` and fresh task IDs are parameters.
*/
module JobQueue {
  import opened Prelude

  datatype TaskStatus = Pending | Leased | Completed | Failed

  datatype JobStatus = Queued | InProgress | JobCompleted

  datatype Task = Task(
    jobID: string,
    targetIP: string,
    status: TaskStatus,
    retryCount: int,
    maxRetries: int,
    leasedBy: string,
    leaseExpiresAt: Option<int>)

  datatype Job = Job(
    status: JobStatus,
    totalHosts: int,
    scannedHosts: int,
    compliantHosts: int,
    failedHosts: int,
    completedAt: Option<int>)

  datatype Queue = Queue(jobs: map<string, Job>, tasks: map<string, Task>)

  const EmptyQueue := Queue(map[], map[])

  const MAX_RETRIES := 2

  // ----- What each operation does -----------------------------------------------------------

  function NewTask(jobID: string, ip: string): Task {
    Task(jobID, ip, Pending, 0, MAX_RETRIES, "", None)
  }

  /** One task per target, under fresh IDs. */
  function WithTasks(tasks: map<string, Task>, jobID: string, ids: seq<string>, ips: seq<string>): map<string, Task>
    requires |ids| == |ips|
  {
    if ids == [] then tasks
    else WithTasks(tasks, jobID, ids[..|ids| - 1], ips[..|ips| - 1])[ids[|ids| - 1] := NewTask(jobID, ips[|ips| - 1])]
  }

  /** The caller's record is stored as it is, but for its size and status. */
  function Enqueued(q: Queue, jobID: string, job: Job, ids: seq<string>, ips: seq<string>): Queue
    requires |ids| == |ips|
  {
    Queue(q.jobs[jobID := job.(totalHosts := |ips|, status := Queued)], WithTasks(q.tasks, jobID, ids, ips))
  }

  function Started(jobs: map<string, Job>, jobID: string): map<string, Job> {
    if jobID in jobs && jobs[jobID].status == Queued then jobs[jobID := jobs[jobID].(status := InProgress)] else jobs
  }

  function LeasedOne(q: Queue, id: string, worker: string, expires: int): Queue
    requires id in q.tasks
  {
    Queue(Started(q.jobs, q.tasks[id].jobID),
          q.tasks[id := q.tasks[id].(status := Leased, leasedBy := worker, leaseExpiresAt := Some(expires))])
  }

  function LeasedAll(q: Queue, picks: seq<string>, worker: string, expires: int): (r: Queue)
    requires forall id | id in picks :: id in q.tasks
    ensures r.tasks.Keys == q.tasks.Keys
  {
    if picks == [] then q
    else
      var before := LeasedAll(q, picks[..|picks| - 1], worker, expires);
      LeasedOne(before, picks[|picks| - 1], worker, expires)
  }

  /** Once the counters reach the total the job is final. */
  function Finalized(job: Job, now: int): Job {
    if job.scannedHosts + job.failedHosts >= job.totalHosts
    then job.(status := JobCompleted, completedAt := Some(now)) else job
  }

  function Counted(jobs: map<string, Job>, jobID: string, scanned: bool, isCompliant: bool, now: int): map<string, Job> {
    if jobID !in jobs then jobs
    else
      var job := jobs[jobID];
      jobs[jobID := Finalized(
        if scanned then job.(scannedHosts := job.scannedHosts + 1,
                             compliantHosts := job.compliantHosts + if isCompliant then 1 else 0)
        else job.(failedHosts := job.failedHosts + 1), now)]
  }

  /** The task's current status is not looked at. */
  function CompletedOne(q: Queue, id: string, isCompliant: bool, now: int): Queue
    requires id in q.tasks
  {
    Queue(Counted(q.jobs, q.tasks[id].jobID, true, isCompliant, now), q.tasks[id := q.tasks[id].(status := Completed)])
  }

  predicate Retries(t: Task, retryable: bool) {
    retryable && t.retryCount < t.maxRetries
  }

  /** Nor is it here. */
  function FailedOne(q: Queue, id: string, retryable: bool, now: int): Queue
    requires id in q.tasks
  {
    var task := q.tasks[id];
    if Retries(task, retryable) then
      q.(tasks := q.tasks[id := Reset(task.(retryCount := task.retryCount + 1))])
    else
      Queue(Counted(q.jobs, task.jobID, false, false, now), q.tasks[id := task.(status := Failed)])
  }

  predicate Expired(t: Task, now: int) {
    t.status == Leased && t.leaseExpiresAt.Some? && t.leaseExpiresAt.value < now
  }

  function Reset(t: Task): Task {
    t.(status := Pending, leasedBy := "", leaseExpiresAt := None)
  }

  function Reclaimed(q: Queue, now: int): Queue {
    q.(tasks := map id | id in q.tasks :: if Expired(q.tasks[id], now) then Reset(q.tasks[id]) else q.tasks[id])
  }

  function ExpiredIDs(q: Queue, now: int): set<string> {
    set id | id in q.tasks && Expired(q.tasks[id], now)
  }

  function IDsWith(q: Queue, status: TaskStatus): set<string> {
    set id | id in q.tasks && q.tasks[id].status == status
  }

  predicate Distinct(ids: seq<string>) {
    forall i, j | 0 <= i < j < |ids| :: ids[i] != ids[j]
  }

  // ----- The queue itself -------------------------------------------------------------------

  class JobEntry {
    var status: JobStatus
    var totalHosts: int
    var scannedHosts: int
    var compliantHosts: int
    var failedHosts: int
    var completedAt: Option<int>

    constructor (job: Job)
      ensures View() == job
    {
      status, totalHosts, scannedHosts := job.status, job.totalHosts, job.scannedHosts;
      compliantHosts, failedHosts, completedAt := job.compliantHosts, job.failedHosts, job.completedAt;
    }

    function View(): Job
      reads this
    {
      Job(status, totalHosts, scannedHosts, compliantHosts, failedHosts, completedAt)
    }

    method Finalize(now: int)
      modifies this
      ensures View() == Finalized(old(View()), now)
    {
      if scannedHosts + failedHosts >= totalHosts {
        status := JobCompleted;
        completedAt := Some(now);
      }
    }
  }

  class HostTask {
    const jobID: string
    const targetIP: string
    var status: TaskStatus
    var retryCount: int
    const maxRetries: int
    var leasedBy: string
    var leaseExpiresAt: Option<int>

    constructor (jobID: string, targetIP: string)
      ensures View() == NewTask(jobID, targetIP)
    {
      this.jobID, this.targetIP := jobID, targetIP;
      status, retryCount, maxRetries, leasedBy, leaseExpiresAt := Pending, 0, MAX_RETRIES, "", None;
    }

    function View(): Task
      reads this
    {
      Task(jobID, targetIP, status, retryCount, maxRetries, leasedBy, leaseExpiresAt)
    }
  }

  class PersistentJobQueue {
    var jobs: map<string, JobEntry>
    var tasks: map<string, HostTask>

    /** No two IDs share a record. */
    ghost predicate Valid()
      reads this
    {
      && (forall k1, k2 | k1 in jobs && k2 in jobs && k1 != k2 :: jobs[k1] != jobs[k2])
      && (forall k1, k2 | k1 in tasks && k2 in tasks && k1 != k2 :: tasks[k1] != tasks[k2])
    }

    ghost function JobViews(): map<string, Job>
      reads this`jobs, jobs.Values
    {
      map k | k in jobs :: jobs[k].View()
    }

    ghost function TaskViews(): map<string, Task>
      reads this`tasks, tasks.Values
    {
      map k | k in tasks :: tasks[k].View()
    }

    ghost function Contents(): Queue
      reads this, jobs.Values, tasks.Values
    {
      Queue(JobViews(), TaskViews())
    }

    constructor NewPersistentJobQueue()
      ensures Valid() && Contents() == EmptyQueue
    {
      jobs, tasks := map[], map[];
    }

    method PutJob(jobID: string, entry: JobEntry)
      requires Valid() && entry !in jobs.Values
      modifies this`jobs
      ensures Valid() && jobs == old(jobs)[jobID := entry]
      ensures JobViews() == old(JobViews())[jobID := entry.View()]
    {
      jobs := jobs[jobID := entry];
    }

    method PutTask(id: string, task: HostTask)
      requires Valid() && task !in tasks.Values
      modifies this`tasks
      ensures Valid() && tasks == old(tasks)[id := task]
      ensures TaskViews() == old(TaskViews())[id := task.View()]
    {
      tasks := tasks[id := task];
    }

    method EnqueueJob(jobID: string, job: Job, targetIPs: seq<string>, ids: seq<string>)
      requires Valid() && |ids| == |targetIPs|
      modifies this
      ensures Valid() && fresh(jobs.Values - old(jobs.Values)) && fresh(tasks.Values - old(tasks.Values))
      ensures Contents() == Enqueued(old(Contents()), jobID, job, ids, targetIPs)
    {
      var entry := new JobEntry(job.(totalHosts := |targetIPs|, status := Queued));
      PutJob(jobID, entry);
      AddTasks(jobID, targetIPs, ids);
    }

    /** The loop that creates one task per target. */
    method AddTasks(jobID: string, targetIPs: seq<string>, ids: seq<string>)
      requires Valid() && |ids| == |targetIPs|
      modifies this`tasks
      ensures Valid() && fresh(tasks.Values - old(tasks.Values))
      ensures TaskViews() == WithTasks(old(TaskViews()), jobID, ids, targetIPs)
    {
      for i := 0 to |targetIPs|
        invariant Valid() && fresh(tasks.Values - old(tasks.Values))
        invariant TaskViews() == WithTasks(old(TaskViews()), jobID, ids[..i], targetIPs[..i])
      {
        hide Valid, TaskViews;
        var task := new HostTask(jobID, targetIPs[i]);
        assert ids[..i + 1][..i] == ids[..i] && targetIPs[..i + 1][..i] == targetIPs[..i];
        PutTask(ids[i], task);
      }
      assert ids[..|ids|] == ids && targetIPs[..|targetIPs|] == targetIPs;
    }

    // ----- One record of a map updated in place ---------------------------------------------

    /** After only the record under `id` changed, only its entry in the view changed. */
    twostate lemma OneTaskChanged(id: string)
      requires old(Valid()) && tasks == old(tasks) && id in tasks
      requires unchanged(tasks.Values - {tasks[id]})
      ensures TaskViews() == old(TaskViews())[id := tasks[id].View()]
    {
      forall k | k in tasks && k != id ensures tasks[k].View() == old(tasks[k].View()) {
        assert tasks[k] in tasks.Values - {tasks[id]};
      }
    }

    twostate lemma OneJobChanged(id: string)
      requires old(Valid()) && jobs == old(jobs) && id in jobs
      requires unchanged(jobs.Values - {jobs[id]})
      ensures JobViews() == old(JobViews())[id := jobs[id].View()]
    {
      forall k | k in jobs && k != id ensures jobs[k].View() == old(jobs[k].View()) {
        assert jobs[k] in jobs.Values - {jobs[id]};
      }
    }

    method StartJob(jobID: string)
      modifies jobs.Values
      requires Valid()
      ensures JobViews() == Started(old(JobViews()), jobID)
    {
      if jobID in jobs && jobs[jobID].status == Queued {
        jobs[jobID].status := InProgress;
        OneJobChanged(jobID);
      }
    }

    method MarkLeased(id: string, workerID: string, expires: int)
      requires Valid() && id in tasks
      modifies tasks[id]
      ensures TaskViews() == old(TaskViews())[id := old(TaskViews()[id]).(
                status := Leased, leasedBy := workerID, leaseExpiresAt := Some(expires))]
    {
      var task := tasks[id];
      task.status := Leased;
      task.leasedBy := workerID;
      task.leaseExpiresAt := Some(expires);
      OneTaskChanged(id);
    }

    /** The body of the leasing loop: one pending task and its job. */
    method LeaseOne(id: string, workerID: string, expires: int)
      requires Valid() && id in tasks
      modifies tasks[id], jobs.Values
      ensures Valid() && Contents() == LeasedOne(old(Contents()), id, workerID, expires)
    {
      MarkLeased(id, workerID, expires);
      StartJob(tasks[id].jobID);
    }

    method LeaseBatch(workerID: string, batchSize: int, now: int, leaseDuration: int) returns (leased: seq<string>)
      requires Valid()
      modifies tasks.Values, jobs.Values
      ensures Valid()
      ensures LegalLease(old(Contents()), leased, batchSize)
      ensures Contents() == LeasedAll(old(Contents()), leased, workerID, now + leaseDuration)
    {
      hide Valid, JobViews, TaskViews, LeasedAll, LeasedOne, Leasing, IDsWith, LegalLease, HostTask.View;
      var leaseExpires := now + leaseDuration;
      leased := [];
      var todo := tasks.Keys;
      ghost var q := Contents();
      TaskKeys();
      NothingLeased(q, workerID, leaseExpires, batchSize);
      while todo != {}
        invariant Valid() && todo <= tasks.Keys == q.tasks.Keys
        invariant forall id | id in leased :: id in q.tasks
        invariant Leasing(q, leased, todo) && Contents() == LeasedAll(q, leased, workerID, leaseExpires)
        invariant |leased| == 0 || |leased| < batchSize
        decreases |todo|
      {
        var id :| id in todo;
        NotPicked(q, leased, todo, workerID, leaseExpires, id);
        TaskAt(id);
        assert tasks[id].status == q.tasks[id].status;
        LeasingNext(q, leased, todo, workerID, leaseExpires, id);
        todo := todo - {id};
        if tasks[id].status == Pending {
          LeaseOne(id, workerID, leaseExpires);
          leased := leased + [id];
          if |leased| >= batchSize {
            break;
          }
        }
      }
      LegalNow(q, leased, todo, batchSize);
    }

    /** Counts one more scanned or failed host of a job, and finalizes the job when all are in. */
    method CountHost(jobID: string, scanned: bool, isCompliant: bool, now: int)
      requires Valid()
      modifies jobs.Values
      ensures JobViews() == Counted(old(JobViews()), jobID, scanned, isCompliant, now)
    {
      if jobID in jobs {
        var job := jobs[jobID];
        if scanned {
          job.scannedHosts := job.scannedHosts + 1;
          if isCompliant {
            job.compliantHosts := job.compliantHosts + 1;
          }
        } else {
          job.failedHosts := job.failedHosts + 1;
        }
        job.Finalize(now);
        OneJobChanged(jobID);
      }
    }

    /** Returns false, the source's error, when there is no such task. */
    method CompleteTask(id: string, isCompliant: bool, now: int) returns (found: bool)
      requires Valid()
      modifies tasks.Values, jobs.Values
      ensures Valid() && found == (id in tasks)
      ensures Contents() == if found then CompletedOne(old(Contents()), id, isCompliant, now) else old(Contents())
    {
      if id !in tasks {
        return false;
      }
      var task := tasks[id];
      task.status := Completed;
      OneTaskChanged(id);
      CountHost(task.jobID, true, isCompliant, now);
      return true;
    }

    method FailTask(id: string, retryable: bool, now: int) returns (found: bool)
      requires Valid()
      modifies tasks.Values, jobs.Values
      ensures Valid() && found == (id in tasks)
      ensures Contents() == if found then FailedOne(old(Contents()), id, retryable, now) else old(Contents())
    {
      hide Valid, JobViews, TaskViews, Retries, Reset, Counted;
      TaskKeys();
      if id !in tasks {
        return false;
      }
      TaskAt(id);
      RetriesIs(id, retryable);
      if retryable && tasks[id].retryCount < tasks[id].maxRetries {
        RetryTask(id);
      } else {
        MarkFailed(id);
        CountHost(tasks[id].jobID, false, false, now);
      }
      return true;
    }

    lemma RetriesIs(id: string, retryable: bool)
      requires id in tasks && id in TaskViews()
      ensures Retries(TaskViews()[id], retryable) <==> retryable && tasks[id].retryCount < tasks[id].maxRetries
    {
    }

    method RetryTask(id: string)
      requires Valid() && id in tasks && id in TaskViews()
      modifies tasks[id]
      ensures TaskViews() == old(TaskViews())[id := Reset(old(TaskViews()[id]).(retryCount := old(TaskViews()[id]).retryCount + 1))]
    {
      var task := tasks[id];
      task.retryCount := task.retryCount + 1;
      task.status := Pending;
      task.leasedBy := "";
      task.leaseExpiresAt := None;
      OneTaskChanged(id);
    }

    method MarkFailed(id: string)
      requires Valid() && id in tasks && id in TaskViews()
      modifies tasks[id]
      ensures TaskViews() == old(TaskViews())[id := old(TaskViews()[id]).(status := Failed)]
    {
      tasks[id].status := Failed;
      OneTaskChanged(id);
    }

    method ReclaimExpiredLeases(now: int) returns (reclaimedCount: nat)
      requires Valid()
      modifies tasks.Values
      ensures Valid() && Contents() == Reclaimed(old(Contents()), now)
      ensures reclaimedCount == |ExpiredIDs(old(Contents()), now)|
    {
      hide Valid, JobViews, TaskViews, Expired, PartlyReclaimed, ExpiredIDs, Reset, Reclaimed;
      reclaimedCount := 0;
      var todo := tasks.Keys;
      ghost var q := Contents();
      TaskKeys();
      AllToReclaim(q, now);
      while todo != {}
        invariant Valid() && todo <= tasks.Keys == q.tasks.Keys
        invariant Contents() == PartlyReclaimed(q, now, q.tasks.Keys - todo)
        invariant reclaimedCount == |ExpiredIDs(q, now) * (q.tasks.Keys - todo)|
        decreases |todo|
      {
        var id :| id in todo;
        TaskAt(id);
        ReclaimedNext(q, now, todo, id);
        var task := tasks[id];
        if task.status == Leased && task.leaseExpiresAt.Some? && task.leaseExpiresAt.value < now {
          ResetTask(id);
          reclaimedCount := reclaimedCount + 1;
        }
        todo := todo - {id};
      }
      AllReclaimed(q, now);
    }

    method ResetTask(id: string)
      requires Valid() && id in tasks
      modifies tasks[id]
      ensures id in old(TaskViews()) && TaskViews() == old(TaskViews())[id := Reset(old(TaskViews()[id]))]
    {
      var task := tasks[id];
      task.status := Pending;
      task.leasedBy := "";
      task.leaseExpiresAt := None;
      OneTaskChanged(id);
    }

    lemma TaskKeys()
      ensures TaskViews().Keys == tasks.Keys
    {
    }

    lemma TaskAt(id: string)
      requires id in tasks
      ensures id in TaskViews() && TaskViews()[id] == tasks[id].View()
      ensures TaskViews()[id].status == tasks[id].status
      ensures forall now :: Expired(TaskViews()[id], now) <==>
                tasks[id].status == Leased && tasks[id].leaseExpiresAt.Some? && tasks[id].leaseExpiresAt.value < now
    {
    }
  }

  lemma NothingLeased(q: Queue, worker: string, expires: int, batchSize: int)
    ensures Leasing(q, [], q.tasks.Keys) && LeasedAll(q, [], worker, expires) == q
  {
  }

  /** A task still to be looked at is not among the picks, and is as it was. */
  lemma NotPicked(q: Queue, picks: seq<string>, todo: set<string>, worker: string, expires: int, id: string)
    requires Leasing(q, picks, todo) && id in todo && id in q.tasks
    ensures forall x | x in picks :: x in q.tasks
    ensures id !in picks && LeasedAll(q, picks, worker, expires).tasks[id] == q.tasks[id]
  {
    LeasedAllAt(q, picks, worker, expires, id);
  }

  lemma LeasingNext(q: Queue, picks: seq<string>, todo: set<string>, worker: string, expires: int, id: string)
    requires Leasing(q, picks, todo) && id in todo && id in q.tasks && forall x | x in picks :: x in q.tasks
    ensures if q.tasks[id].status == Pending then
              Leasing(q, picks + [id], todo - {id})
              && LeasedAll(q, picks + [id], worker, expires) == LeasedOne(LeasedAll(q, picks, worker, expires), id, worker, expires)
            else Leasing(q, picks, todo - {id})
  {
    hide LeasedOne;
    assert (picks + [id])[..|picks|] == picks;
  }

  lemma {:induction false} DistinctSize(ids: seq<string>)
    requires Distinct(ids)
    ensures |set id | id in ids| == |ids|
  {
    if ids != [] {
      var n := |ids| - 1;
      DistinctSize(ids[..n]);
      assert ids == ids[..n] + [ids[n]];
      assert (set id | id in ids) == (set id | id in ids[..n]) + {ids[n]};
      assert ids[n] !in ids[..n];
    }
  }

  lemma {:induction false} SubsetSize(small: set<string>, large: set<string>)
    requires small <= large
    ensures |small| <= |large|
  {
    assert large == small + (large - small);
  }

  lemma LegalNow(q: Queue, picks: seq<string>, todo: set<string>, batchSize: int)
    requires Leasing(q, picks, todo)
    requires if todo == {} && |picks| < batchSize then true
             else if todo == {} && |picks| == 0 then true
             else |picks| == if batchSize < 1 then 1 else batchSize
    ensures LegalLease(q, picks, batchSize)
  {
    LeasingSize(q, picks, todo);
  }

  lemma LeasingSize(q: Queue, picks: seq<string>, todo: set<string>)
    requires Leasing(q, picks, todo)
    ensures |picks| <= |IDsWith(q, Pending)|
    ensures todo == {} ==> |picks| == |IDsWith(q, Pending)|
  {
    var picked := set id | id in picks;
    DistinctSize(picks);
    SubsetSize(picked, IDsWith(q, Pending));
    assert todo == {} ==> picked == IDsWith(q, Pending);
  }

  /** A batch of distinct pending tasks, as many as asked for or as there are; one when none are asked for. */
  ghost predicate LegalLease(q: Queue, picks: seq<string>, batchSize: int) {
    && Distinct(picks)
    && (forall id | id in picks :: id in q.tasks && q.tasks[id].status == Pending)
    && |picks| == Min(if batchSize < 1 then 1 else batchSize, |IDsWith(q, Pending)|)
  }

  function Min(x: int, y: int): int {
    if x <= y then x else y
  }

  /** While leasing: the picks are distinct, and every pending task not picked is still to be looked at. */
  ghost predicate Leasing(q: Queue, picks: seq<string>, todo: set<string>) {
    && Distinct(picks)
    && (forall id | id in picks :: id in q.tasks && id !in todo && q.tasks[id].status == Pending)
    && (forall id | id in IDsWith(q, Pending) :: id in picks || id in todo)
  }

  /** A task that was not picked is as it was. */
  lemma {:induction false} LeasedAllAt(q: Queue, picks: seq<string>, worker: string, expires: int, id: string)
    requires forall x | x in picks :: x in q.tasks
    requires id in q.tasks && id !in picks
    ensures LeasedAll(q, picks, worker, expires).tasks[id] == q.tasks[id]
  {
    if picks != [] {
      assert picks == picks[..|picks| - 1] + [picks[|picks| - 1]];
      LeasedAllAt(q, picks[..|picks| - 1], worker, expires, id);
    }
  }

  // ----- The reclaiming loop ----------------------------------------------------------------

  ghost function PartlyReclaimed(q: Queue, now: int, seen: set<string>): Queue {
    q.(tasks := map id | id in q.tasks :: if id in seen && Expired(q.tasks[id], now) then Reset(q.tasks[id]) else q.tasks[id])
  }

  lemma AllToReclaim(q: Queue, now: int)
    ensures PartlyReclaimed(q, now, q.tasks.Keys - q.tasks.Keys) == q
    ensures |ExpiredIDs(q, now) * (q.tasks.Keys - q.tasks.Keys)| == 0
  {
    assert q.tasks.Keys - q.tasks.Keys == {};
    assert PartlyReclaimed(q, now, {}).tasks == q.tasks;
    assert ExpiredIDs(q, now) * {} == {};
  }

  lemma AllReclaimed(q: Queue, now: int)
    ensures PartlyReclaimed(q, now, q.tasks.Keys - {}) == Reclaimed(q, now)
    ensures ExpiredIDs(q, now) * (q.tasks.Keys - {}) == ExpiredIDs(q, now)
  {
    assert PartlyReclaimed(q, now, q.tasks.Keys - {}).tasks == Reclaimed(q, now).tasks;
  }

  lemma ReclaimedNext(q: Queue, now: int, todo: set<string>, id: string)
    requires id in todo && todo <= q.tasks.Keys
    ensures var before, after := q.tasks.Keys - todo, q.tasks.Keys - (todo - {id});
            && PartlyReclaimed(q, now, before).tasks.Keys == q.tasks.Keys
            && PartlyReclaimed(q, now, before).tasks[id] == q.tasks[id]
            && (if Expired(q.tasks[id], now) then
                  && PartlyReclaimed(q, now, after)
                     == PartlyReclaimed(q, now, before).(tasks := PartlyReclaimed(q, now, before).tasks[id := Reset(q.tasks[id])])
                  && |ExpiredIDs(q, now) * after| == |ExpiredIDs(q, now) * before| + 1
                else
                  && PartlyReclaimed(q, now, after) == PartlyReclaimed(q, now, before)
                  && ExpiredIDs(q, now) * after == ExpiredIDs(q, now) * before)
  {
    hide Expired, Reset;
    var before, after := q.tasks.Keys - todo, q.tasks.Keys - (todo - {id});
    assert after == before + {id};
    var p, p' := PartlyReclaimed(q, now, before), PartlyReclaimed(q, now, after);
    if Expired(q.tasks[id], now) {
      assert p'.tasks == p.tasks[id := Reset(q.tasks[id])];
      assert ExpiredIDs(q, now) * after == ExpiredIDs(q, now) * before + {id};
    } else {
      assert p'.tasks == p.tasks;
      assert ExpiredIDs(q, now) * after == ExpiredIDs(q, now) * before;
    }
  }
}
