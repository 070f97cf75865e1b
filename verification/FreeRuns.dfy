/** Runs of one node's queue in which nothing is held back: claims may strand jobs and pending jobs may be failed. What
    still holds in all of them is that claims are exclusive. */
module FreeRuns {
  import opened Wrappers
  import opened Jobs
  import opened Claims
  import opened JobUpkeep
  import JobRuns

  type Op = JobRuns.Op
  type Settings = JobRuns.Settings

  /** The listed jobs are known, and the processing list holds jobs in processing, once each. */
  ghost predicate Loose(q: Queue) {
    && Known(q.index, q.pending)
    && Distinct(q.processing) && (forall id :: id in q.processing ==> id in q.index && q.index[id].status == Processing)
    && Logged(q) && Own(q) && q.superseded == map[]
  }

  lemma ProcessingKnown(q: Queue)
    requires Loose(q)
    ensures Known(q.index, q.processing) && Known(q.index, q.log)
  {
    assert forall i :: 0 <= i < |q.processing| ==> q.processing[i] in q.processing;
    LogKnown(q);
  }

  // ----- what a scan does to the queue -----

  /** Records keep identifier and time, and their status but that one pending job may be in processing now. */
  ghost predicate ScanKeeps(q: Queue, r: Queue) {
    && r.index.Keys == q.index.Keys && r.log == q.log && r.lamport == q.lamport && r.superseded == q.superseded
    && Known(r.index, r.pending)
    && (forall id :: id in q.index ==> r.index[id].timestamp == q.index[id].timestamp)
    && (forall id :: id in q.index ==>
          || r.index[id].status == q.index[id].status
          || (q.index[id].status == Pending && r.index[id].status == Processing))
    && (r.processing == q.processing
        || (exists id :: id in q.index && q.index[id].status == Pending && r.index[id].status == Processing
                         && r.processing == q.processing + [id]))
  }

  lemma DropKeeps(q: Queue, id: string, pending: seq<string>, r: Queue)
    requires id in q.index && ScanKeeps(DeadLettered(q, id, LATE).(pending := pending), r)
    ensures ScanKeeps(q, r)
  {
  }

  lemma TakeKeeps(q: Queue, id: string, rest: seq<string>, worker: string, now: int, node: string)
    requires id in q.index && q.index[id].status == Pending && Known(q.index, rest) && Known(q.index, q.pending)
    ensures ScanKeeps(q, TakenBy(q, id, rest, worker, now, node))
    ensures ScanKeeps(q, q.(index := q.index[id := ClaimedBy(q.index[id], worker, now, node)]))
  {
  }

  lemma {:induction false} ScanDoes(q: Queue, slice: seq<string>, len: nat, i: nat, worker: string, now: int,
      node: string)
    requires Known(q.index, slice) && Known(q.index, q.pending) && len <= |slice|
    ensures ScanKeeps(q, Scan(q, slice, len, i, worker, now, node).1)
    decreases |slice| - i
  {
    if i < |slice| {
      var id := slice[i];
      if i < len { DeletedKnown(q.index, slice, len, i); }
      if Expired(q.index[id], now) {
        if i < len {
          var left := Deleted(slice, len, i);
          ScanDoes(DeadLettered(q, id, LATE).(pending := left[..len - 1]), left, len - 1, i + 1, worker, now, node);
          DropKeeps(q, id, left[..len - 1], Scan(q, slice, len, i, worker, now, node).1);
        }
      } else if q.index[id].status != Pending {
        ScanDoes(q, slice, len, i + 1, worker, now, node);
      } else {
        TakeKeeps(q, id, if i < len then Deleted(slice, len, i)[..len - 1] else q.pending, worker, now, node);
      }
    }
  }

  lemma DeletedIn(s: seq<string>, n: nat, i: nat, x: string)
    requires i < n <= |s| && x in Deleted(s, n, i)
    ensures x in s
  {
  }

  /** A job that was claimed is one of the listed ones, was pending and not expired, and is in processing now. */
  ghost predicate Took(q: Queue, slice: seq<string>, now: int, claim: Claim, r: Queue) {
    claim.Claimed? ==>
      && claim.id in slice && claim.id in q.index
      && q.index[claim.id].status == Pending && !Expired(q.index[claim.id], now)
      && claim.id in r.index && r.index[claim.id].status == Processing
      && r.processing == q.processing + [claim.id]
  }

  lemma TookLater(q: Queue, slice: seq<string>, len: nat, i: nat, pending: seq<string>, now: int, claim: Claim,
      r: Queue)
    requires i < len <= |slice| && slice[i] in q.index
    requires Took(DeadLettered(q, slice[i], LATE).(pending := pending), Deleted(slice, len, i), now, claim, r)
    ensures Took(q, slice, now, claim, r)
  {
    if claim.Claimed? { DeletedIn(slice, len, i, claim.id); }
  }

  lemma TookNow(q: Queue, slice: seq<string>, i: nat, rest: seq<string>, worker: string, now: int, node: string)
    requires i < |slice| && slice[i] in q.index
    requires q.index[slice[i]].status == Pending && !Expired(q.index[slice[i]], now)
    ensures Took(q, slice, now, Claimed(slice[i]), TakenBy(q, slice[i], rest, worker, now, node))
  {
  }

  /** A scan only ever claims a job that is pending and not expired, whatever the lists hold. */
  lemma {:induction false} ScanTakes(q: Queue, slice: seq<string>, len: nat, i: nat, worker: string, now: int,
      node: string)
    requires Known(q.index, slice) && len <= |slice|
    ensures var (claim, r) := Scan(q, slice, len, i, worker, now, node);
            Took(q, slice, now, claim, r)
    decreases |slice| - i
  {
    if i < |slice| {
      var id := slice[i];
      if i < len { DeletedKnown(q.index, slice, len, i); }
      if Expired(q.index[id], now) {
        if i < len {
          var left := Deleted(slice, len, i);
          ScanTakes(DeadLettered(q, id, LATE).(pending := left[..len - 1]), left, len - 1, i + 1, worker, now, node);
          var (claim, r) := Scan(q, slice, len, i, worker, now, node);
          TookLater(q, slice, len, i, left[..len - 1], now, claim, r);
        }
      } else if q.index[id].status != Pending {
        ScanTakes(q, slice, len, i + 1, worker, now, node);
      } else if i < len {
        TookNow(q, slice, i, Deleted(slice, len, i)[..len - 1], worker, now, node);
      }
    }
  }

  function ClaimIn(q: Queue, worker: string, now: int, node: string): (Claim, Queue)
    requires Known(q.index, q.pending)
  {
    Scan(q, q.pending, |q.pending|, 0, worker, now, node)
  }

  // ----- each step keeps a queue loose -----

  lemma ClaimLoose(q: Queue, worker: string, now: int, node: string)
    requires Loose(q)
    ensures Loose(ClaimIn(q, worker, now, node).1)
  {
    var r := ClaimIn(q, worker, now, node).1;
    ScanDoes(q, q.pending, |q.pending|, 0, worker, now, node);
    KeepsLoose(q, r);
  }

  lemma KeepsLoose(q: Queue, r: Queue)
    requires Loose(q) && ScanKeeps(q, r)
    ensures Loose(r)
  {
    forall id | id in r.index ensures r.index[id].timestamp <= r.lamport && IsJobId(id, r.index[id].timestamp) {
      assert id in q.index && IsJobId(id, q.index[id].timestamp);
    }
  }

  lemma EnqueueLoose(q: Queue, job: Job, nanos: int)
    requires Loose(q) && job.timestamp == q.lamport + 1 && job.id == JobId(job.timestamp, nanos)
    ensures Loose(Enqueued(q, job))
  {
    NextIdIsNew(q, nanos);
    EnqueueLogged(q, job, nanos);
  }

  /** A record that takes the place of another under the same identifier, with the same time. */
  lemma WorkedLoose(q: Queue, id: string, job: Job, pending: seq<string>, dead: seq<string>)
    requires Loose(q) && id in q.index && job.timestamp == q.index[id].timestamp
    requires Known(q.index, pending)
    ensures Loose(q.(index := q.index[id := job], processing := RemoveFirst(q.processing, id), pending := pending,
                     dead := dead))
  {
    RemoveFirstDistinct(q.processing, id);
    forall x ensures x in RemoveFirst(q.processing, id) <==> x in q.processing && x != id {
      RemoveFirstHas(q.processing, id, x);
    }
    assert IsJobId(id, q.index[id].timestamp);
    assert q.index[id := job].Keys == q.index.Keys;
  }

  lemma CompleteLoose(q: Queue, id: string, result: string, now: int, node: string)
    requires Loose(q)
    ensures Loose(MarkedComplete(q, id, result, now, node))
  {
    if id in q.index && q.index[id].status == Processing {
      WorkedLoose(q, id, CompletedJob(q.index[id], result, now, node), q.pending, q.dead);
    }
  }

  lemma GivenUpLoose(q: Queue, id: string, failed: Job, text: string)
    requires Loose(q) && id in q.index && failed.timestamp == q.index[id].timestamp
    ensures var kept := RemoveFirst(q.processing, id);
            Loose(DeadLettered(q.(index := q.index[id := failed], processing := kept), id, text))
  {
    var dead := LastOnes(q.dead + [id], DEAD_LETTERS);
    WorkedLoose(q, id, failed.(error := text), q.pending, dead);
    GivenUpIs(q, id, failed, text, dead);
  }

  lemma GivenUpIs(q: Queue, id: string, failed: Job, text: string, dead: seq<string>)
    requires dead == LastOnes(q.dead + [id], DEAD_LETTERS)
    ensures var kept := RemoveFirst(q.processing, id);
            DeadLettered(q.(index := q.index[id := failed], processing := kept), id, text)
            == q.(index := q.index[id := failed.(error := text)], processing := kept, pending := q.pending,
                  dead := dead)
  {
    UpdateTwice(q.index, id, failed, failed.(error := text));
  }

  lemma FailLoose(q: Queue, id: string, error: string, now: int, retryAt: int, node: string)
    requires Loose(q)
    ensures Loose(MarkedFailed(q, id, error, now, retryAt, node))
  {
    if id in q.index {
      var job := FailedOnce(q.index[id], error, now, node);
      if job.retryCount >= job.maxRetries {
        GivenUpLoose(q, id, job.(status := Failed), "max retries exceeded: " + error);
      } else {
        var back := job.(status := Pending, updatedAt := retryAt);
        WorkedLoose(q, id, back, SortIds(q.index[id := back], q.pending + [id]), q.dead);
      }
    }
  }

  lemma SweepLoose(q: Queue, now: int)
    requires Loose(q) && Known(q.index, q.processing)
    ensures Loose(Swept(q, now))
  {
    SweptKeepsKeys(q, now);
    SweptOwn(q, now);
    SweptProcesses(q, now);
  }

  lemma SweptProcesses(q: Queue, now: int)
    requires Loose(q) && Known(q.index, q.processing)
    ensures var r := Swept(q, now);
            Distinct(r.processing) && forall x :: x in r.processing ==> x in r.index && r.index[x].status == Processing
  {
    LateStuck(q, now);
    DeadAllKeeps(q, LateOf(q.index, q.pending, now));
    FiltersDistinct(q.index, q.processing, now);
    forall x ensures x in FreeOf(q.index, q.processing, now) <==> x in q.processing && !Stuck(q.index[x], now)
             ensures x in StuckOf(q.index, q.processing, now) <==> x in q.processing && Stuck(q.index[x], now)
    {
      StuckHas(q.index, q.processing, now, x);
    }
  }

  lemma AgeLoose(q: Queue, now: int, maxAge: int)
    requires Loose(q) && Known(q.index, q.log)
    ensures var r := Aged(q, now, maxAge); Known(r.index, r.pending) ==> Loose(r)
  {
    AgedLogged(q, now, maxAge);
    assert forall id :: id in q.processing ==> !Terminal(LogRecord(q, id));
  }

  lemma CleanupLoose(q: Queue, now: int, maxAge: int)
    requires Loose(q) && Known(q.index, q.processing) && Known(q.index, q.log)
    ensures var r := CleanedUp(q, now, maxAge); Known(r.index, r.pending) ==> Loose(r)
  {
    SweepLoose(q, now);
    SweptKeepsKeys(q, now);
    AgeLoose(Swept(q, now), now, maxAge);
  }

  // ----- runs -----

  /** Only a cleanup that would take the record of a listed job away is held back; whatever comes after that meets a
      missing record. */
  ghost predicate Enabled(s: Settings, q: Queue, op: Op)
    requires Loose(q)
  {
    ProcessingKnown(q);
    op.CleanUp? ==> Known(CleanedUp(q, op.now, s.maxAge).index, CleanedUp(q, op.now, s.maxAge).pending)
  }

  ghost function Effect(s: Settings, q: Queue, op: Op): Queue
    requires Loose(q)
  {
    ProcessingKnown(q);
    match op
    case Enqueue(_, _, _, _, _, _) => Enqueued(q, JobRuns.JobOf(s, q, op))
    case Claim(worker, now) => ClaimIn(q, worker, now, s.node).1
    case Complete(id, result, now) => MarkedComplete(q, id, result, now, s.node)
    case Fail(id, error, now, retryAt) => MarkedFailed(q, id, error, now, retryAt, s.node)
    case CleanUp(now) => CleanedUp(q, now, s.maxAge)
  }

  lemma EffectLoose(s: Settings, q: Queue, op: Op)
    requires Loose(q) && Enabled(s, q, op)
    ensures Loose(Effect(s, q, op))
  {
    match op
    case Enqueue(nanos, _, _, _, _, _) => EnqueueLoose(q, JobRuns.JobOf(s, q, op), nanos);
    case Claim(worker, now) => ClaimLoose(q, worker, now, s.node);
    case Complete(id, result, now) => CompleteLoose(q, id, result, now, s.node);
    case Fail(id, error, now, retryAt) => FailLoose(q, id, error, now, retryAt, s.node);
    case CleanUp(now) =>
      ProcessingKnown(q);
      CleanupLoose(q, now, s.maxAge);
  }

  ghost function Do(s: Settings, q: Queue, op: Op): (r: Queue)
    requires Loose(q)
    ensures Loose(r)
  {
    if Enabled(s, q, op) then
      EffectLoose(s, q, op);
      Effect(s, q, op)
    else q
  }

  /** The queue after a run: the lists may be wrong, but not beyond what Loose says. */
  ghost function After(s: Settings, ops: seq<Op>): (q: Queue)
    ensures Loose(q)
    decreases |ops|
  {
    if ops == [] then EMPTY else Do(s, After(s, ops[..|ops| - 1]), ops[|ops| - 1])
  }

  // ----- exclusive claims -----

  /** The k-th step of a run claims this job. */
  ghost predicate TakesJob(s: Settings, ops: seq<Op>, k: nat, id: string)
    requires k < |ops|
  {
    var q, op := After(s, ops[..k]), ops[k];
    op.Claim? && ClaimIn(q, op.worker, op.now, s.node).0 == Claimed(id)
  }

  /** A step gives a job back: it fails it, or it is a cleanup that finds it stuck. */
  ghost predicate GivesBack(q: Queue, op: Op, id: string) {
    match op
    case Fail(x, _, _, _) => x == id
    case CleanUp(now) => id in q.index && Stuck(q.index[id], now)
    case _ => false
  }

  ghost predicate GivenBackAt(s: Settings, ops: seq<Op>, k: nat, id: string)
    requires k < |ops|
  {
    GivesBack(After(s, ops[..k]), ops[k], id)
  }

  /** Not pending, and never to be made again. */
  ghost predicate Out(q: Queue, id: string, t: int) {
    t <= q.lamport && (id in q.index ==> q.index[id].status != Pending)
  }

  lemma ClaimedIsOut(s: Settings, q: Queue, worker: string, now: int, id: string)
    requires Loose(q) && ClaimIn(q, worker, now, s.node).0 == Claimed(id)
    ensures id in q.index && q.index[id].status == Pending && IsJobId(id, q.index[id].timestamp)
    ensures Out(ClaimIn(q, worker, now, s.node).1, id, q.index[id].timestamp)
  {
    ScanTakes(q, q.pending, |q.pending|, 0, worker, now, s.node);
    ScanDoes(q, q.pending, |q.pending|, 0, worker, now, s.node);
    assert IsJobId(id, q.index[id].timestamp);
  }

  lemma NewIsOther(q: Queue, nanos: int, id: string, t: int)
    requires IsJobId(id, t) && Out(q, id, t)
    ensures JobId(q.lamport + 1, nanos) != id
  {
    var n :| id == JobId(t, n);
    if JobId(q.lamport + 1, nanos) == id { JobIdInjective(q.lamport + 1, nanos, t, n); }
  }

  lemma SweptStatus(q: Queue, now: int, id: string)
    requires Known(q.index, q.pending) && Known(q.index, q.processing) && (id in q.index ==> !Stuck(q.index[id], now))
    ensures var r := Swept(q, now);
            && (id in r.index <==> id in q.index) && r.lamport == q.lamport
            && (id in q.index ==> r.index[id].status == q.index[id].status)
  {
    LateKnown(q.index, q.pending, now);
    DeadAllKeeps(q, LateOf(q.index, q.pending, now));
    SweptKeepsKeys(q, now);
    StuckHas(q.index, q.processing, now, id);
  }

  lemma OutThroughAged(q: Queue, now: int, maxAge: int, id: string, t: int)
    requires Known(q.index, q.log) && Out(q, id, t)
    ensures Out(Aged(q, now, maxAge), id, t)
  {
  }

  lemma OutThroughCleanup(q: Queue, now: int, maxAge: int, id: string, t: int)
    requires Known(q.index, q.pending) && Known(q.index, q.processing) && Known(q.index, q.log)
    requires Out(q, id, t) && (id in q.index ==> !Stuck(q.index[id], now))
    ensures Out(CleanedUp(q, now, maxAge), id, t)
  {
    SweptKeepsKeys(q, now);
    SweptStatus(q, now, id);
    var r := Swept(q, now);
    assert Out(r, id, t);
    OutThroughAged(r, now, maxAge, id, t);
  }

  lemma OutThroughEnqueue(q: Queue, job: Job, id: string, t: int)
    requires Known(q.index, q.pending) && Out(q, id, t) && job.id != id
    ensures Out(Enqueued(q, job), id, t)
  {
  }

  lemma OutThroughWork(q: Queue, x: string, text: string, now: int, retryAt: int, node: string, id: string, t: int)
    requires Known(q.index, q.pending) && Out(q, id, t)
    ensures Out(MarkedComplete(q, x, text, now, node), id, t)
    ensures x != id ==> Out(MarkedFailed(q, x, text, now, retryAt, node), id, t)
  {
  }

  lemma OutThroughClaim(q: Queue, worker: string, now: int, node: string, id: string, t: int)
    requires Known(q.index, q.pending) && Out(q, id, t)
    ensures Out(ClaimIn(q, worker, now, node).1, id, t)
  {
    ScanDoes(q, q.pending, |q.pending|, 0, worker, now, node);
  }

  lemma OutThroughStep(s: Settings, q: Queue, op: Op, id: string, t: int)
    requires Loose(q) && Out(q, id, t) && !GivesBack(q, op, id) && !op.Enqueue? && !op.CleanUp?
    ensures Out(Effect(s, q, op), id, t)
  {
    match op
    case Claim(worker, now) => OutThroughClaim(q, worker, now, s.node, id, t);
    case Complete(x, result, now) => OutThroughWork(q, x, result, now, 0, s.node, id, t);
    case Fail(x, error, now, retryAt) => OutThroughWork(q, x, error, now, retryAt, s.node, id, t);
  }

  lemma OutThroughNew(s: Settings, q: Queue, op: Op, id: string, t: int)
    requires Loose(q) && IsJobId(id, t) && Out(q, id, t) && op.Enqueue?
    ensures Out(Effect(s, q, op), id, t)
  {
    NewIsOther(q, op.nanos, id, t);
    OutThroughEnqueue(q, JobRuns.JobOf(s, q, op), id, t);
  }

  lemma OutThroughRound(s: Settings, q: Queue, op: Op, id: string, t: int)
    requires Loose(q) && Out(q, id, t) && op.CleanUp? && !GivesBack(q, op, id)
    ensures Out(Effect(s, q, op), id, t)
  {
    ProcessingKnown(q);
    OutThroughCleanup(q, op.now, s.maxAge, id, t);
  }

  lemma StaysOut(s: Settings, q: Queue, op: Op, id: string, t: int)
    requires Loose(q) && IsJobId(id, t) && Out(q, id, t) && !GivesBack(q, op, id)
    ensures Out(Effect(s, q, op), id, t)
  {
    if op.Enqueue? {
      OutThroughNew(s, q, op, id, t);
    } else if op.CleanUp? {
      OutThroughRound(s, q, op, id, t);
    } else {
      OutThroughStep(s, q, op, id, t);
    }
  }

  lemma AfterNext(s: Settings, ops: seq<Op>, k: nat)
    requires k < |ops|
    ensures After(s, ops[..k + 1]) == Do(s, After(s, ops[..k]), ops[k])
  {
    assert ops[..k + 1][..k] == ops[..k];
  }

  lemma StaysOutAt(s: Settings, ops: seq<Op>, m: nat, k: nat, id: string, t: int)
    requires k == m + 1 <= |ops| && IsJobId(id, t) && Out(After(s, ops[..m]), id, t) && !GivenBackAt(s, ops, m, id)
    ensures Out(After(s, ops[..k]), id, t)
  {
    AfterNext(s, ops, m);
    StaysOut(s, After(s, ops[..m]), ops[m], id, t);
  }

  lemma {:induction false} OutUntilGivenBack(s: Settings, ops: seq<Op>, j: nat, k: nat, id: string, t: int)
    requires j <= k <= |ops| && IsJobId(id, t) && Out(After(s, ops[..j]), id, t)
    requires forall m :: j <= m < k ==> !GivenBackAt(s, ops, m, id)
    ensures Out(After(s, ops[..k]), id, t)
    decreases k - j
  {
    if j < k {
      var m := k - 1;
      OutUntilGivenBack(s, ops, j, m, id, t);
      assert !GivenBackAt(s, ops, m, id);
      StaysOutAt(s, ops, m, k, id, t);
    }
  }

  /** A job that one worker has claimed is not claimed again, by anyone, before it was failed or found stuck; also in
      runs in which claims have stranded jobs or jobs are listed twice. */
  lemma ClaimsAreExclusive(s: Settings, ops: seq<Op>, j: nat, k: nat, id: string)
    requires j < k < |ops| && TakesJob(s, ops, j, id) && TakesJob(s, ops, k, id)
    ensures exists m :: j < m < k && GivenBackAt(s, ops, m, id)
  {
    var q := After(s, ops[..j]);
    ClaimedIsOut(s, q, ops[j].worker, ops[j].now, id);
    var t := q.index[id].timestamp;
    AfterNext(s, ops, j);
    if forall m :: j < m < k ==> !GivenBackAt(s, ops, m, id) {
      OutUntilGivenBack(s, ops, j + 1, k, id, t);
      ClaimedIsOut(s, After(s, ops[..k]), ops[k].worker, ops[k].now, id);
      assert false;
    }
  }
}
