/** Runs that show what the laws of the queue exclude: a claim that panics and strands a job, one that passes over
    the best job, a failure of a pending job, and a cleanup that drops an active one. */
module JobCases {
  import opened Jobs
  import opened Claims
  import opened ClaimLaws
  import opened JobUpkeep
  import opened JobMerge
  import opened JobRuns

  lemma OneMore(s: Settings, ops: seq<Op>, op: Op)
    ensures After(s, ops + [op]) == Do(s, After(s, ops), op)
  {
    assert (ops + [op])[..|ops|] == ops;
  }

  ghost predicate SamePriority(q: Queue, priority: int) {
    forall id :: id in q.index ==> q.index[id].priority == priority
  }

  /** A job of the same priority as all others goes to the end of the pending list. */
  lemma GoesLast(q: Queue, job: Job, nanos: int)
    requires Sound(q) && SamePriority(q, job.priority) && job.timestamp == q.lamport + 1
    requires job.id == JobId(job.timestamp, nanos)
    ensures Enqueued(q, job).pending == q.pending + [job.id] && job.id !in q.index
  {
    NextIdIsNew(q, nanos);
    var index, ids := q.index[job.id := job], q.pending + [job.id];
    forall i | 0 <= i < |q.pending| ensures q.pending[i] in q.index && index[q.pending[i]].timestamp <= q.lamport {
    }
    assert Ordered(index, ids);
    SortIdsAgain(index, ids);
  }

  /** One more job, at the end of the list. */
  ghost predicate Adds(q: Queue, r: Queue, job: Job) {
    && job.id !in q.index && r.index == q.index[job.id := job] && r.pending == q.pending + [job.id]
    && job.timestamp == q.lamport + 1 == r.lamport && job.status == Pending && job.retryCount == 0
  }

  lemma DoEnqueue(s: Settings, q: Queue, op: Op)
    requires Sound(q) && op.Enqueue? && SamePriority(q, op.priority)
    ensures Adds(q, Do(s, q, op), JobOf(s, q, op)) && SamePriority(Do(s, q, op), op.priority)
  {
    GoesLast(q, JobOf(s, q, op), op.nanos);
    EnqueueEffect(s, q, op);
  }

  ghost function Quick(deadlineAt: int): Op {
    Enqueue(0, "", 0, 3, 0, deadlineAt)
  }

  lemma EnqueuedLast(s: Settings, ops: seq<Op>, deadlineAt: int) returns (job: Job)
    requires SamePriority(After(s, ops), 0)
    ensures Adds(After(s, ops), After(s, ops + [Quick(deadlineAt)]), job) && job.deadlineAt == deadlineAt
    ensures job.maxRetries == 3
    ensures SamePriority(After(s, ops + [Quick(deadlineAt)]), 0) && job.priority == 0
  {
    OneMore(s, ops, Quick(deadlineAt));
    DoEnqueue(s, After(s, ops), Quick(deadlineAt));
    job := JobOf(s, After(s, ops), Quick(deadlineAt));
  }

  // ----- claims -----

  /** A job with an early deadline, then one with a later one. */
  ghost function Two(early: int, later: int): seq<Op> {
    [] + [Quick(early)] + [Quick(later)]
  }

  lemma AddsTwice(q: Queue, m: Queue, r: Queue, a: Job, b: Job)
    requires q.pending == [] && Adds(q, m, a) && Adds(m, r, b)
    ensures r.pending == [a.id, b.id]
    ensures a.id in r.index && b.id in r.index && r.index[a.id] == a && r.index[b.id] == b && b.timestamp == r.lamport
  {
  }

  lemma TwoQueued(s: Settings, early: int, later: int) returns (a: Job, b: Job)
    ensures var q := After(s, Two(early, later));
            && q.pending == [a.id, b.id]
            && a.id in q.index && b.id in q.index && q.index[a.id] == a && q.index[b.id] == b
            && a.deadlineAt == early && b.deadlineAt == later && b.timestamp == q.lamport && SamePriority(q, 0)
  {
    a := EnqueuedLast(s, [], early);
    b := EnqueuedLast(s, [] + [Quick(early)], later);
    AddsTwice(After(s, []), After(s, [] + [Quick(early)]), After(s, Two(early, later)), a, b);
  }

  /** Claimed between the two deadlines, the first job is dropped, the claim panics, and the second is marked as
      claimed but stays pending. */
  lemma ClaimCanPanic(s: Settings, early: int, later: int, worker: string, now: int)
    requires 0 < early < now <= later
    ensures var q := After(s, Two(early, later));
            var (claim, r) := DoClaim(q, worker, now, s.node);
            claim == Panicked && Strands(q, now) && !Listed(r)
  {
    var a, b := TwoQueued(s, early, later);
    var q := After(s, Two(early, later));
    ClaimPanicsIff(q, worker, now, s.node);
    ClaimListedIff(q, worker, now, s.node);
  }

  lemma SkipsSecond(q: Queue, worker: string, now: int, node: string)
    requires Listed(q) && |q.pending| == 3 && Expired(q.index[q.pending[0]], now)
    requires !Expired(q.index[q.pending[1]], now) && !Expired(q.index[q.pending[2]], now)
    ensures DoClaim(q, worker, now, node).0 == Claimed(q.pending[2])
  {
    ClaimsAtIff(q, worker, now, node, 2);
  }

  /** With one more job behind them, the claim takes that one, although the second is unexpired and sooner. */
  lemma ClaimCanPassOver(s: Settings, early: int, later: int, worker: string, now: int)
    requires 0 < early < now <= later
    ensures var q := After(s, Two(early, later) + [Quick(later)]);
            && |q.pending| == 3 && q.pending[1] in q.index && q.pending[2] in q.index
            && !Expired(q.index[q.pending[1]], now) && Sooner(q.index[q.pending[1]], q.index[q.pending[2]])
            && DoClaim(q, worker, now, s.node).0 == Claimed(q.pending[2])
  {
    var a, b := TwoQueued(s, early, later);
    var c := EnqueuedLast(s, Two(early, later), later);
    var q := After(s, Two(early, later) + [Quick(later)]);
    assert q.pending[0] == a.id && q.pending[1] == b.id && q.pending[2] == c.id;
    SkipsSecond(q, worker, now, s.node);
  }

  /** Failing a job nobody has claimed puts it into the pending list twice. */
  lemma PendingCanFail(s: Settings, deadlineAt: int, error: string, now: int, retryAt: int)
    ensures var q := After(s, [] + [Quick(deadlineAt)]);
            |q.pending| == 1 &&
            var r := MarkedFailed(q, q.pending[0], error, now, retryAt, s.node);
            !Listed(r) && |r.pending| == 2
  {
    var a := EnqueuedLast(s, [], deadlineAt);
    FailListedIff(After(s, [] + [Quick(deadlineAt)]), a.id, error, now, retryAt, s.node);
  }

  lemma OddsOfTwo(ids: seq<string>)
    requires |ids| == 2
    ensures Odds(ids) == [ids[1]]
  {
    var last := ids[1..];
    assert last == [ids[1]] && last[1..] == [];
    assert Odds(last[1..]) == [] && Evens(last) == [ids[1]] + Odds(last[1..]);
  }

  lemma StrandedStays(q: Queue, b: string, worker: string, now: int, node: string)
    requires Listed(q) && |q.pending| == 2 && q.pending[1] == b && Strands(q, now)
    ensures var r := DoClaim(q, worker, now, node).1;
            && r.pending == [b] && b in r.index && r.index[b].status == Processing
            && r.superseded == q.superseded && r.log == q.log && r.index.Keys == q.index.Keys
  {
    NoneIffEvensLate(q.index, q.pending, now);
    SweptOutcome(q, worker, now, node);
    AllDroppedKeeps(q);
    OddsOfTwo(q.pending);
  }

  /** A stranded job can still be completed, and when it is old its record is evicted: the pending list then names a
      job that is not there, which the next claim or sort looks up. */
  lemma StrandedCanDangle(s: Settings, early: int, later: int, worker: string, now: int, done: int, cutoff: int)
    requires 0 < early < now <= later && done < cutoff
    ensures var q := After(s, Two(early, later));
            |q.pending| == 2 &&
            var id, r := q.pending[1], DoClaim(q, worker, now, s.node).1;
            var c := MarkedComplete(r, id, "", done, s.node);
            Known(c.index, c.log) && !Known(Evicted(c, cutoff).index, Evicted(c, cutoff).pending)
  {
    var a, b := TwoQueued(s, early, later);
    ClaimCanPanic(s, early, later, worker, now);
    var q := After(s, Two(early, later));
    StrandedStays(q, b.id, worker, now, s.node);
    LogKnown(q);
    var c := MarkedComplete(DoClaim(q, worker, now, s.node).1, b.id, "", done, s.node);
    assert b.id in q.index.Keys;
    InLog(q, b.id);
    assert b.id !in Evicted(c, cutoff).index && Evicted(c, cutoff).pending[0] == b.id;
  }

  lemma InLog(q: Queue, id: string)
    requires Logged(q) && id in q.index
    ensures id in q.log
  {
    assert id in Members(q.log);
  }

  // ----- eviction of an active job -----

  lemma DoTake(s: Settings, q: Queue, worker: string, now: int, job: Job)
    requires Sound(q) && q.pending == [job.id] && job.id in q.index && q.index[job.id] == job && !Expired(job, now)
    ensures var r := Do(s, q, Claim(worker, now));
            r.pending == [] && job.id in r.index && r.index[job.id] == ClaimedBy(job, worker, now, s.node)
  {
    ClaimWithoutExpired(q, worker, now, s.node);
  }

  lemma DoComplete(s: Settings, q: Queue, id: string, now: int)
    requires Sound(q) && q.pending == [] && id in q.index && q.index[id].status == Processing
    ensures var r := Do(s, q, Complete(id, "", now));
            r.pending == [] && id in r.index && r.index[id] == CompletedJob(q.index[id], "", now, s.node)
  {
  }

  lemma Revives(q: Queue, id: string, now: int, retryAt: int, node: string)
    requires Known(q.index, q.pending) && id in q.index && q.index[id].retryCount + 1 < q.index[id].maxRetries
    ensures var r := MarkedFailed(q, id, "", now, retryAt, node);
            && id in r.index && r.index[id].id == q.index[id].id
            && r.index[id].status == Pending && r.index[id].updatedAt == retryAt
  {
  }

  lemma DoRevive(s: Settings, q: Queue, id: string, now: int, retryAt: int)
    requires Sound(q) && q.pending == [] && id in q.index && q.index[id].retryCount + 1 < q.index[id].maxRetries
    ensures var r := Do(s, q, Fail(id, "", now, retryAt));
            && id in r.index && r.index[id].id == q.index[id].id
            && r.index[id].status == Pending && r.index[id].updatedAt == retryAt
  {
    Revives(q, id, now, retryAt, s.node);
    assert Do(s, q, Fail(id, "", now, retryAt)) == MarkedFailed(q, id, "", now, retryAt, s.node);
  }

  /** A job is claimed and completed. */
  ghost function Finished(worker: string, t: int, later: int, id: string): seq<Op> {
    [] + [Quick(later)] + [Claim(worker, t)] + [Complete(id, "", t)]
  }

  lemma AfterQuick(s: Settings, later: int) returns (job: Job)
    ensures var q := After(s, [] + [Quick(later)]);
            && q.pending == [job.id] && job.id in q.index && q.index[job.id] == job
            && job.deadlineAt == later && job.retryCount + 1 < job.maxRetries
  {
    job := EnqueuedLast(s, [], later);
  }

  lemma AfterTaken(s: Settings, worker: string, t: int, later: int, ops: seq<Op>) returns (id: string)
    requires t <= later && ops == [] + [Quick(later)] + [Claim(worker, t)]
    ensures var q := After(s, ops);
            && id in q.index && q.pending == [] && q.index[id].status == Processing
            && q.index[id].retryCount + 1 < q.index[id].maxRetries && q.index[id].id == id
  {
    var first := [] + [Quick(later)];
    var job := AfterQuick(s, later);
    id := job.id;
    OneMore(s, first, Claim(worker, t));
    DoTake(s, After(s, first), worker, t, job);
  }

  lemma AfterFinished(s: Settings, worker: string, t: int, later: int) returns (id: string)
    requires t <= later
    ensures var q := After(s, Finished(worker, t, later, id));
            && id in q.index && q.pending == [] && q.index[id].status == Completed && q.index[id].updatedAt == t
            && q.index[id].retryCount + 1 < q.index[id].maxRetries && q.index[id].id == id
  {
    var ops := [] + [Quick(later)] + [Claim(worker, t)];
    id := AfterTaken(s, worker, t, later, ops);
    OneMore(s, ops, Complete(id, "", t));
    DoComplete(s, After(s, ops), id, t);
  }

  /** A peer hears of the completed job, and then that a late failure report has put it back, and files it as
      pending. Its next cleanup goes by the log, which still says completed, and takes the record of the pending job
      away. */
  lemma EvictionCanDropActive(s: Settings, worker: string, t: int, later: int, retryAt: int,
      cutoff: int) returns (id: string)
    requires t <= later && t < retryAt && t < cutoff
    ensures var done := After(s, Finished(worker, t, later, id));
            var back := After(s, Finished(worker, t, later, id) + [Fail(id, "", t, retryAt)]);
            id in done.index && id in back.index && DropsActive(LogRecord(done, id), LogRecord(back, id), id, cutoff)
  {
    id := AfterFinished(s, worker, t, later);
    var done, late := Finished(worker, t, later, id), Fail(id, "", t, retryAt);
    OneMore(s, done, late);
    DoRevive(s, After(s, done), id, t, retryAt);
    HeardBoth(After(s, done).index[id], After(s, done + [late]).index[id], id, cutoff);
  }

  ghost function Heard(done: Job, back: Job): Queue {
    assert Known(EMPTY.index, EMPTY.pending);
    var q := Merged(EMPTY, [done]);
    MergedAllKnown(EMPTY, [done]);
    SortIdsSorts(MergedAll(EMPTY, [done]).index, MergedAll(EMPTY, [done]).pending);
    Merged(q, [back])
  }

  /** A new node that merges these two versions has the job pending, and loses its record to the eviction. */
  ghost predicate DropsActive(done: Job, back: Job, id: string, cutoff: int) {
    var q := Heard(done, back);
    && Listed(q) && id in q.pending && Known(q.index, q.log)
    && !Listed(Evicted(q, cutoff)) && id !in Evicted(q, cutoff).index
  }

  lemma MergeFirst(done: Job)
    requires done.status == Completed
    ensures Known(EMPTY.index, EMPTY.pending)
    ensures Merged(EMPTY, [done]) == Queue([done.id], map[done.id := done], [], [], [], 0, map[])
  {
    assert [done][..0] == [] && [] + [done.id] == [done.id];
    assert MergedAll(EMPTY, []) == EMPTY;
    assert Adopted(EMPTY, done) == Queue([done.id], map[done.id := done], [], [], [], 0, map[]);
    assert MergedAll(EMPTY, [done]) == Adopted(EMPTY, done);
  }

  lemma HeardBoth(done: Job, back: Job, id: string, cutoff: int)
    requires done.id == back.id == id && done.status == Completed && back.status == Pending
    requires done.updatedAt < back.updatedAt && done.updatedAt < cutoff
    ensures DropsActive(done, back, id, cutoff)
  {
    MergeFirst(done);
    var q := Merged(EMPTY, [done]);
    assert [back][..0] == [];
    assert MergedAll(q, [back]) == Adopted(q, back);
    assert Adopted(q, back) == Queue([id], map[id := back], [id], [], [], 0, map[id := done]);
    var heard := Merged(q, [back]);
    MergeListed(q, [back]);
    SortIdsHas(heard.index, [id], id);
    EvictedListedIff(heard, cutoff);
  }
}
