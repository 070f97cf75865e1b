/** Runs of one node's queue: jobs are enqueued, claimed, completed, failed while in processing, and cleaned up. */
module JobRuns {
  import opened Jobs
  import opened Claims
  import opened ClaimLaws
  import opened JobUpkeep

  datatype Op =
    | Enqueue(nanos: int, payload: string, priority: int, maxRetries: int, now: int, deadlineAt: int)
    | Claim(worker: string, now: int)
    | Complete(id: string, result: string, now: int)
    | Fail(id: string, error: string, now: int, retryAt: int)
    | CleanUp(now: int)

  datatype Settings = Settings(node: string, maxAge: int)

  /** Only a job that is not pending is failed, and no claim strands a job; whatever else is asked for happens. */
  ghost predicate Enabled(q: Queue, op: Op)
    requires Sound(q)
  {
    match op
    case Claim(_, now) => !Strands(q, now)
    case Fail(id, _, _, _) => id !in q.pending
    case _ => true
  }

  /** What a job's record keeps through everything: its identifier and its time. */
  ghost predicate SameJobs(q: Queue, r: Queue) {
    && r.index.Keys == q.index.Keys && r.log == q.log && r.lamport == q.lamport && r.superseded == q.superseded
    && forall id :: id in q.index ==> r.index[id].timestamp == q.index[id].timestamp
  }

  lemma SameJobsSound(q: Queue, r: Queue)
    requires Sound(q) && SameJobs(q, r) && Listed(r)
    ensures Sound(r)
  {
    assert Own(r) by {
      forall id | id in r.index ensures r.index[id].timestamp <= r.lamport && IsJobId(id, r.index[id].timestamp) {
        assert id in q.index && IsJobId(id, q.index[id].timestamp);
      }
    }
  }

  /** What a claim leaves alone in the records. */
  ghost predicate ClaimKeeps(q: Queue, r: Queue) {
    SameJobs(q, r) && forall id :: id in r.index && r.index[id].status == Pending ==> q.index[id].status == Pending
  }

  lemma DroppedKeeps(q: Queue, ids: seq<string>)
    requires Known(q.index, ids)
    ensures ClaimKeeps(q, DeadAll(q, ids))
  {
    DeadAllKeeps(q, ids);
  }

  lemma TakenKeeps(q: Queue, d: Queue, id: string, rest: seq<string>, worker: string, now: int, node: string)
    requires ClaimKeeps(q, d) && id in d.index
    ensures ClaimKeeps(q, TakenBy(d, id, rest, worker, now, node))
  {
  }

  lemma StumbledKeeps(q: Queue, d: Queue, id: string, worker: string, now: int, node: string)
    requires ClaimKeeps(q, d) && id in d.index
    ensures ClaimKeeps(q, Stumbled(d, id, worker, now, node))
  {
  }

  lemma DoClaimKeeps(q: Queue, worker: string, now: int, node: string)
    requires Known(q.index, q.pending)
    ensures ClaimKeeps(q, DoClaim(q, worker, now, node).1)
  {
    var ids := q.pending;
    match FirstEven(q.index, ids, now, 0)
    case Some(f) =>
      EvensKnown(q.index, ids[..f]);
      DroppedKeeps(q, Evens(ids[..f]));
      TakenKeeps(q, DeadAll(q, Evens(ids[..f])), ids[f], Odds(ids[..f]) + ids[f + 1..], worker, now, node);
    case None =>
      AllDroppedKeeps(q);
      assert ClaimKeeps(q, AllDropped(q));
      if |ids| > 1 { StumbledKeeps(q, AllDropped(q), ids[|ids| - 1], worker, now, node); }
  }

  lemma ClaimSound(q: Queue, worker: string, now: int, node: string)
    requires Sound(q)
    ensures !Strands(q, now) ==> Sound(DoClaim(q, worker, now, node).1)
  {
    ClaimListedIff(q, worker, now, node);
    DoClaimKeeps(q, worker, now, node);
    if !Strands(q, now) { SameJobsSound(q, DoClaim(q, worker, now, node).1); }
  }

  lemma FailSound(q: Queue, id: string, error: string, now: int, retryAt: int, node: string)
    requires Sound(q)
    ensures id !in q.pending ==> Sound(MarkedFailed(q, id, error, now, retryAt, node))
  {
    if id in q.index && id !in q.pending {
      FailListedIff(q, id, error, now, retryAt, node);
      SameJobsSound(q, MarkedFailed(q, id, error, now, retryAt, node));
    }
  }

  lemma CompleteSound(q: Queue, id: string, result: string, now: int, node: string)
    requires Sound(q)
    ensures Sound(MarkedComplete(q, id, result, now, node))
  {
    CompleteListed(q, id, result, now, node);
    SameJobsSound(q, MarkedComplete(q, id, result, now, node));
  }

  /** What a step does; an enabled one keeps the lists, the log and the identifiers right. */
  ghost function Effect(s: Settings, q: Queue, op: Op): Queue
    requires Sound(q)
  {
    LogKnown(q);
    match op
    case Enqueue(nanos, payload, priority, maxRetries, now, deadlineAt) =>
      Enqueued(q, NewJob(q.lamport + 1, nanos, payload, priority, maxRetries, now, deadlineAt, s.node))
    case Claim(worker, now) => DoClaim(q, worker, now, s.node).1
    case Complete(id, result, now) => MarkedComplete(q, id, result, now, s.node)
    case Fail(id, error, now, retryAt) => MarkedFailed(q, id, error, now, retryAt, s.node)
    case CleanUp(now) => CleanedUp(q, now, s.maxAge)
  }

  lemma EnqueueingSound(s: Settings, q: Queue, op: Op)
    requires Sound(q) && op.Enqueue?
    ensures Sound(Effect(s, q, op))
  {
    EnqueuedSound(q, JobOf(s, q, op), op.nanos);
    EnqueueEffect(s, q, op);
  }

  lemma ClaimingSound(s: Settings, q: Queue, op: Op)
    requires Sound(q) && Enabled(q, op) && op.Claim?
    ensures Sound(Effect(s, q, op))
  {
    ClaimSound(q, op.worker, op.now, s.node);
  }

  lemma WorkingSound(s: Settings, q: Queue, op: Op)
    requires Sound(q) && Enabled(q, op) && (op.Complete? || op.Fail?)
    ensures Sound(Effect(s, q, op))
  {
    if op.Complete? {
      CompleteSound(q, op.id, op.result, op.now, s.node);
    } else {
      FailSound(q, op.id, op.error, op.now, op.retryAt, s.node);
    }
  }

  lemma TidyingSound(s: Settings, q: Queue, op: Op)
    requires Sound(q) && op.CleanUp?
    ensures Sound(Effect(s, q, op))
  {
    CleanupSound(q, op.now, s.maxAge);
  }

  lemma EffectSound(s: Settings, q: Queue, op: Op)
    requires Sound(q) && Enabled(q, op)
    ensures Sound(Effect(s, q, op))
  {
    if op.Enqueue? {
      EnqueueingSound(s, q, op);
    } else if op.Claim? {
      ClaimingSound(s, q, op);
    } else if op.CleanUp? {
      TidyingSound(s, q, op);
    } else {
      WorkingSound(s, q, op);
    }
  }

  ghost function Do(s: Settings, q: Queue, op: Op): (r: Queue)
    requires Sound(q)
    ensures Sound(r)
  {
    if Enabled(q, op) then
      EffectSound(s, q, op);
      Effect(s, q, op)
    else q
  }

  /** The queue after a run; it is sound after every run. */
  ghost function After(s: Settings, ops: seq<Op>): (q: Queue)
    ensures Sound(q)
    decreases |ops|
  {
    if ops == [] then EMPTY else Do(s, After(s, ops[..|ops| - 1]), ops[|ops| - 1])
  }

  ghost function JobOf(s: Settings, q: Queue, op: Op): (job: Job)
    requires op.Enqueue?
    ensures job.id == JobId(q.lamport + 1, op.nanos) && job.timestamp == q.lamport + 1 && job.status == Pending
  {
    NewJob(q.lamport + 1, op.nanos, op.payload, op.priority, op.maxRetries, op.now, op.deadlineAt, s.node)
  }

  lemma EnqueueEffect(s: Settings, q: Queue, op: Op)
    requires Sound(q) && op.Enqueue?
    ensures Effect(s, q, op) == Enqueued(q, JobOf(s, q, op))
  {
  }
}
