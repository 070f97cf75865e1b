/** Jobs, the lists a queue files them in, and what each operation does to a queue. */
module Jobs {
  import opened Wrappers
  import opened Numerals

  datatype Status = Pending | Processing | Completed | Failed | Cancelled

  /** Times in milliseconds. */
  datatype Job = Job(id: string, payload: string, status: Status, priority: int, timestamp: int, retryCount: int,
                     maxRetries: int, processedBy: string, result: string, error: string, updatedAt: int,
                     deadlineAt: int, processStarted: int, processEnded: int, node: string)

  /** The log and the lists hold identifiers; `dead` is the dead-letter queue, oldest first. The log shares its
      records with the index, but for those that a merge has superseded in the index only. */
  datatype Queue = Queue(log: seq<string>, index: map<string, Job>, pending: seq<string>, processing: seq<string>,
                         dead: seq<string>, lamport: int, superseded: map<string, Job>)

  const EMPTY := Queue([], map[], [], [], [], 0, map[])
  const DEAD_LETTERS := 10_000
  const PROCESSING_TIMEOUT := 300_000

  function JobId(ts: int, nanos: int): string {
    "job-" + (Decimal(ts) + "-" + Decimal(nanos))
  }

  // ----- lists of identifiers -----

  function RemoveFirst(s: seq<string>, id: string): seq<string> {
    if s == [] then [] else if s[0] == id then s[1..] else [s[0]] + RemoveFirst(s[1..], id)
  }

  lemma {:induction false} RemoveFirstAt(s: seq<string>, id: string, i: nat)
    requires i < |s| && s[i] == id && forall k :: 0 <= k < i ==> s[k] != id
    ensures RemoveFirst(s, id) == s[..i] + s[i + 1..]
  {
    if i > 0 {
      RemoveFirstAt(s[1..], id, i - 1);
      assert s[1..][..i - 1] == s[1..i] && s[1..][i..] == s[i + 1..];
      assert [s[0]] + s[1..i] == s[..i];
    }
  }

  lemma {:induction false} RemoveFirstNone(s: seq<string>, id: string)
    requires forall k :: 0 <= k < |s| ==> s[k] != id
    ensures RemoveFirst(s, id) == s
  {
    if s != [] {
      RemoveFirstNone(s[1..], id);
      assert [s[0]] + s[1..] == s;
    }
  }

  lemma {:induction false} RemoveFirstHas(s: seq<string>, id: string, x: string)
    requires Distinct(s)
    ensures x in RemoveFirst(s, id) <==> x in s && x != id
  {
    if s != [] && s[0] != id {
      RemoveFirstHas(s[1..], id, x);
      assert s == [s[0]] + s[1..];
    }
  }

  lemma {:induction false} RemoveFirstDistinct(s: seq<string>, id: string)
    requires Distinct(s)
    ensures Distinct(RemoveFirst(s, id))
  {
    if s != [] && s[0] != id {
      RemoveFirstDistinct(s[1..], id);
      RemoveFirstHas(s[1..], id, s[0]);
    }
  }

  // ----- the order of pending jobs -----

  /** Before in the queue: higher priority, then older. */
  predicate Sooner(a: Job, b: Job) {
    if a.priority != b.priority then a.priority > b.priority else a.timestamp < b.timestamp
  }

  ghost predicate Known(index: map<string, Job>, ids: seq<string>) {
    forall i :: 0 <= i < |ids| ==> ids[i] in index
  }

  /** Priorities do not rise, and at one priority the times do not fall. */
  ghost predicate Ordered(index: map<string, Job>, ids: seq<string>)
    requires Known(index, ids)
  {
    forall i, j {:trigger ids[i], ids[j]} :: 0 <= i < j < |ids| ==>
      || index[ids[j]].priority < index[ids[i]].priority
      || (index[ids[j]].priority == index[ids[i]].priority && index[ids[i]].timestamp <= index[ids[j]].timestamp)
  }

  function InsertId(index: map<string, Job>, sorted: seq<string>, id: string): seq<string>
    requires Known(index, sorted) && id in index
  {
    if sorted == [] || !Sooner(index[id], index[sorted[|sorted| - 1]]) then sorted + [id]
    else InsertId(index, sorted[..|sorted| - 1], id) + [sorted[|sorted| - 1]]
  }

  function SortIds(index: map<string, Job>, ids: seq<string>): (r: seq<string>)
    requires Known(index, ids)
    ensures Known(index, r) && |r| == |ids|
  {
    if ids == [] then []
    else
      var front := SortIds(index, ids[..|ids| - 1]);
      InsertIdKnown(index, front, ids[|ids| - 1]);
      InsertId(index, front, ids[|ids| - 1])
  }

  lemma {:induction false} InsertIdKnown(index: map<string, Job>, sorted: seq<string>, id: string)
    requires Known(index, sorted) && id in index
    ensures Known(index, InsertId(index, sorted, id)) && |InsertId(index, sorted, id)| == |sorted| + 1
  {
    if sorted != [] && Sooner(index[id], index[sorted[|sorted| - 1]]) {
      InsertIdKnown(index, sorted[..|sorted| - 1], id);
    }
  }

  lemma {:induction false} InsertIdHas(index: map<string, Job>, sorted: seq<string>, id: string, x: string)
    requires Known(index, sorted) && id in index
    ensures x in InsertId(index, sorted, id) <==> x in sorted || x == id
  {
    if sorted != [] && Sooner(index[id], index[sorted[|sorted| - 1]]) {
      InsertIdHas(index, sorted[..|sorted| - 1], id, x);
      assert sorted == sorted[..|sorted| - 1] + [sorted[|sorted| - 1]];
    }
  }

  lemma {:induction false} InsertIdDistinct(index: map<string, Job>, sorted: seq<string>, id: string)
    requires Known(index, sorted) && id in index && Distinct(sorted) && id !in sorted
    ensures Distinct(InsertId(index, sorted, id))
  {
    if sorted != [] && Sooner(index[id], index[sorted[|sorted| - 1]]) {
      var front, last := sorted[..|sorted| - 1], sorted[|sorted| - 1];
      InsertIdDistinct(index, front, id);
      InsertIdHas(index, front, id, last);
      assert forall i :: 0 <= i < |front| ==> front[i] == sorted[i];
    }
  }

  lemma {:induction false} InsertIdOrdered(index: map<string, Job>, sorted: seq<string>, id: string)
    requires Known(index, sorted) && id in index && Ordered(index, sorted)
    ensures Known(index, InsertId(index, sorted, id)) && Ordered(index, InsertId(index, sorted, id))
  {
    InsertIdKnown(index, sorted, id);
    if sorted != [] && Sooner(index[id], index[sorted[|sorted| - 1]]) {
      var front, last := sorted[..|sorted| - 1], sorted[|sorted| - 1];
      InsertIdOrdered(index, front, id);
      var r := InsertId(index, front, id);
      forall i | 0 <= i < |r| ensures !Sooner(index[last], index[r[i]]) {
        InsertIdHas(index, front, id, r[i]);
      }
    }
  }

  lemma InFrontOrLast(ids: seq<string>, x: string)
    requires ids != []
    ensures x in ids <==> x in ids[..|ids| - 1] || x == ids[|ids| - 1]
  {
    assert ids == ids[..|ids| - 1] + [ids[|ids| - 1]];
  }

  lemma {:induction false} SortIdsHas(index: map<string, Job>, ids: seq<string>, x: string)
    requires Known(index, ids)
    ensures x in SortIds(index, ids) <==> x in ids
  {
    if ids != [] {
      var front, last := ids[..|ids| - 1], ids[|ids| - 1];
      SortIdsHas(index, front, x);
      InsertIdHas(index, SortIds(index, front), last, x);
      InFrontOrLast(ids, x);
    }
  }

  lemma {:induction false} SortIdsSorts(index: map<string, Job>, ids: seq<string>)
    requires Known(index, ids)
    ensures Ordered(index, SortIds(index, ids))
    ensures Distinct(ids) ==> Distinct(SortIds(index, ids))
  {
    if ids != [] {
      var front, last := ids[..|ids| - 1], ids[|ids| - 1];
      SortIdsSorts(index, front);
      InsertIdOrdered(index, SortIds(index, front), last);
      if Distinct(ids) {
        SortIdsHas(index, front, last);
        InsertIdDistinct(index, SortIds(index, front), last);
      }
    }
  }

  /** The list in order holds the same identifiers. */
  lemma SortedMeaning(index: map<string, Job>, ids: seq<string>)
    requires Known(index, ids)
    ensures Ordered(index, SortIds(index, ids))
    ensures forall x :: x in SortIds(index, ids) <==> x in ids
  {
    SortIdsSorts(index, ids);
    forall x ensures x in SortIds(index, ids) <==> x in ids { SortIdsHas(index, ids, x); }
  }

  /** Sorting what is in order already changes nothing. */
  lemma {:induction false} SortIdsAgain(index: map<string, Job>, ids: seq<string>)
    requires Known(index, ids) && Ordered(index, ids)
    ensures SortIds(index, ids) == ids
  {
    if ids != [] {
      var front, last := ids[..|ids| - 1], ids[|ids| - 1];
      assert front + [last] == ids;
      SortIdsAgain(index, front);
      InsertsLast(index, front, last, ids);
    }
  }

  lemma InsertsLast(index: map<string, Job>, front: seq<string>, last: string, ids: seq<string>)
    requires ids == front + [last] && Known(index, ids) && Ordered(index, ids)
    ensures Known(index, front) && last in index && InsertId(index, front, last) == ids
  {
    assert ids[|front|] == last && forall i :: 0 <= i < |front| ==> front[i] == ids[i];
    if front != [] { assert ids[|front| - 1] == front[|front| - 1]; }
  }

  // ----- what each operation does -----

  predicate Expired(job: Job, now: int) {
    job.deadlineAt > 0 && now > job.deadlineAt
  }

  function LastOnes(s: seq<string>, n: nat): seq<string> {
    if |s| > n then s[|s| - n..] else s
  }

  /** The dead letters are the 10,000 latest. */
  lemma LatestDead(dead: seq<string>, id: string)
    ensures LastOnes(dead + [id], DEAD_LETTERS) ==
            if |dead| < 10_000 then dead + [id] else dead[|dead| - 9_999..] + [id]
  {
  }

  function DeadLettered(q: Queue, id: string, reason: string): Queue
    requires id in q.index
  {
    q.(index := q.index[id := q.index[id].(error := reason)], dead := LastOnes(q.dead + [id], DEAD_LETTERS))
  }

  function NewJob(ts: int, nanos: int, payload: string, priority: int, maxRetries: int, now: int, deadlineAt: int,
      node: string): Job {
    Job(JobId(ts, nanos), payload, Pending, priority, ts, 0, maxRetries, "", "", "", now, deadlineAt, 0, 0, node)
  }

  function Enqueued(q: Queue, job: Job): Queue
    requires Known(q.index, q.pending)
  {
    var index := q.index[job.id := job];
    Queue(q.log + [job.id], index, SortIds(index, q.pending + [job.id]), q.processing, q.dead, q.lamport + 1,
          q.superseded)
  }

  function ClaimedBy(job: Job, worker: string, now: int, node: string): Job {
    job.(status := Processing, processedBy := worker, processStarted := now, updatedAt := now, node := node)
  }

  function CompletedJob(job: Job, result: string, now: int, node: string): Job {
    job.(status := Completed, result := result, processEnded := now, updatedAt := now, node := node)
  }

  /** Completing is only for jobs in processing. */
  function MarkedComplete(q: Queue, id: string, result: string, now: int, node: string): Queue {
    if id !in q.index || q.index[id].status != Processing then q
    else q.(index := q.index[id := CompletedJob(q.index[id], result, now, node)],
            processing := RemoveFirst(q.processing, id))
  }

  function FailedOnce(job: Job, error: string, now: int, node: string): Job {
    job.(error := error, retryCount := job.retryCount + 1, processEnded := now, updatedAt := now, node := node)
  }

  /** Failing takes any known job, whatever its status: back to pending, or to the dead letters after the
      last retry. */
  function MarkedFailed(q: Queue, id: string, error: string, now: int, retryAt: int, node: string): Queue
    requires Known(q.index, q.pending)
  {
    if id !in q.index then q
    else
      var job := FailedOnce(q.index[id], error, now, node);
      var processing := RemoveFirst(q.processing, id);
      if job.retryCount >= job.maxRetries then
        DeadLettered(q.(index := q.index[id := job.(status := Failed)], processing := processing), id,
                     "max retries exceeded: " + error)
      else
        var index := q.index[id := job.(status := Pending, updatedAt := retryAt)];
        q.(index := index, processing := processing, pending := SortIds(index, q.pending + [id]))
  }

  // ----- what every queue keeps -----

  ghost predicate PendingListed(index: map<string, Job>, pending: seq<string>) {
    && Distinct(pending) && Known(index, pending) && Ordered(index, pending)
    && forall id :: id in pending ==> id in index && index[id].status == Pending
  }

  ghost predicate ProcessingListed(index: map<string, Job>, processing: seq<string>) {
    && Distinct(processing)
    && (forall id :: id in processing ==> id in index && index[id].status == Processing)
    && (forall id :: id in index && index[id].status == Processing ==> id in processing)
  }

  ghost predicate Named(index: map<string, Job>) {
    forall id :: id in index ==> index[id].id == id
  }

  /** The pending list holds pending jobs only, once each and in order; the processing list holds exactly the
      jobs in processing, once each. */
  ghost predicate Listed(q: Queue) {
    PendingListed(q.index, q.pending) && ProcessingListed(q.index, q.processing) && Named(q.index)
  }

  ghost function Members(ids: seq<string>): set<string> {
    set id | id in ids
  }

  ghost predicate Logged(q: Queue) {
    Distinct(q.log) && Members(q.log) == q.index.Keys
  }

  ghost predicate IsJobId(id: string, ts: int) {
    exists nanos :: id == JobId(ts, nanos)
  }

  /** Every job was made here, under a time of this queue's clock. */
  ghost predicate Own(q: Queue) {
    forall id :: id in q.index ==> q.index[id].timestamp <= q.lamport && IsJobId(id, q.index[id].timestamp)
  }

  ghost predicate Sound(q: Queue) {
    Listed(q) && Logged(q) && Own(q) && q.superseded == map[]
  }

  /** An identifier is printed as "job-%d-%d". */
  lemma JobIdPrinted(ts: int, nanos: int)
    ensures JobId(ts, nanos) == "job-" + Decimal(ts) + "-" + Decimal(nanos)
  {
    assert "job-" + (Decimal(ts) + "-" + Decimal(nanos)) == ("job-" + Decimal(ts) + "-") + Decimal(nanos);
  }

  lemma JobIdInjective(t: int, n: int, t': int, n': int)
    requires JobId(t, n) == JobId(t', n')
    ensures t == t' && n == n'
  {
    assert JobId(t, n)[4..] == Decimal(t) + "-" + Decimal(n);
    assert JobId(t', n')[4..] == Decimal(t') + "-" + Decimal(n');
    DecimalRead(t, Decimal(n), t', Decimal(n'));
    DecimalAlone(n, n');
  }

  lemma DecimalAlone(n: int, m: int)
    requires Decimal(n) == Decimal(m)
    ensures n == m
  {
    DecimalRead(n, "", m, "");
  }

  /** The next identifier is new: its time is. */
  lemma NextIdIsNew(q: Queue, nanos: int)
    requires Own(q)
    ensures JobId(q.lamport + 1, nanos) !in q.index
  {
    var id := JobId(q.lamport + 1, nanos);
    if id in q.index {
      var n :| id == JobId(q.index[id].timestamp, n);
      JobIdInjective(q.lamport + 1, nanos, q.index[id].timestamp, n);
      assert false;
    }
  }

  /** A record that stands for the same job in the lists. */
  ghost predicate SameForLists(a: Job, b: Job) {
    && a.id == b.id && a.status == b.status && a.priority == b.priority && a.timestamp == b.timestamp
    && a.deadlineAt == b.deadlineAt && a.processStarted == b.processStarted
  }

  /** The pending list only looks at status, priority and timestamp. */
  lemma PendingStays(index: map<string, Job>, index': map<string, Job>, pending: seq<string>)
    requires PendingListed(index, pending)
    requires forall id :: id in pending ==> id in index' && SameForLists(index'[id], index[id])
    ensures PendingListed(index', pending)
  {
    forall i | 0 <= i < |pending| ensures pending[i] in index' && SameForLists(index'[pending[i]], index[pending[i]]) {
      assert pending[i] in pending;
    }
  }

  lemma PendingAdds(index: map<string, Job>, pending: seq<string>, id: string)
    requires PendingListed(index, pending) && id !in pending && id in index && index[id].status == Pending
    ensures Known(index, pending + [id]) && PendingListed(index, SortIds(index, pending + [id]))
    ensures forall x :: x in SortIds(index, pending + [id]) <==> x in pending || x == id
  {
    SortIdsSorts(index, pending + [id]);
    forall x ensures x in SortIds(index, pending + [id]) <==> x in pending || x == id {
      SortIdsHas(index, pending + [id], x);
    }
  }

  lemma ProcessingStays(index: map<string, Job>, processing: seq<string>, id: string, job: Job)
    requires ProcessingListed(index, processing) && job.status != Processing
    ensures ProcessingListed(index[id := job], RemoveFirst(processing, id))
  {
    RemoveFirstDistinct(processing, id);
    forall x ensures x in RemoveFirst(processing, id) <==> x in processing && x != id {
      RemoveFirstHas(processing, id, x);
    }
  }

  lemma EnqueueListed(q: Queue, job: Job)
    requires Listed(q) && job.id !in q.index && job.status == Pending
    ensures Listed(Enqueued(q, job))
  {
    var index := q.index[job.id := job];
    PendingStays(q.index, index, q.pending);
    PendingAdds(index, q.pending, job.id);
  }

  lemma EnqueuedSound(q: Queue, job: Job, nanos: int)
    requires Sound(q) && job.status == Pending
    requires job.timestamp == q.lamport + 1 && job.id == JobId(q.lamport + 1, nanos)
    ensures Sound(Enqueued(q, job))
  {
    NextIdIsNew(q, nanos);
    EnqueueListed(q, job);
    EnqueueLogged(q, job, nanos);
  }

  lemma EnqueueSound(q: Queue, nanos: int, payload: string, priority: int, maxRetries: int, now: int,
      deadlineAt: int, node: string)
    requires Sound(q)
    ensures Sound(Enqueued(q, NewJob(q.lamport + 1, nanos, payload, priority, maxRetries, now, deadlineAt, node)))
  {
    EnqueuedSound(q, NewJob(q.lamport + 1, nanos, payload, priority, maxRetries, now, deadlineAt, node), nanos);
  }

  lemma EnqueueLogged(q: Queue, job: Job, nanos: int)
    requires Known(q.index, q.pending) && Logged(q) && Own(q) && job.id !in q.index && job.timestamp == q.lamport + 1
          && job.id == JobId(job.timestamp, nanos)
    ensures Logged(Enqueued(q, job)) && Own(Enqueued(q, job))
  {
    assert IsJobId(job.id, job.timestamp);
  }

  lemma CompleteListed(q: Queue, id: string, result: string, now: int, node: string)
    requires Listed(q)
    ensures Listed(MarkedComplete(q, id, result, now, node))
  {
    if id in q.index && q.index[id].status == Processing {
      var job := CompletedJob(q.index[id], result, now, node);
      ProcessingStays(q.index, q.processing, id, job);
      PendingStays(q.index, q.index[id := job], q.pending);
    }
  }

  /** Failing a job keeps the lists right exactly when the job is not in the pending list. */
  lemma FailListedIff(q: Queue, id: string, error: string, now: int, retryAt: int, node: string)
    requires Listed(q) && id in q.index
    ensures Listed(MarkedFailed(q, id, error, now, retryAt, node)) <==> id !in q.pending
  {
    var job := FailedOnce(q.index[id], error, now, node);
    if job.retryCount >= job.maxRetries {
      var failed := job.(status := Failed).(error := "max retries exceeded: " + error);
      assert MarkedFailed(q, id, error, now, retryAt, node).index == q.index[id := failed];
      ProcessingStays(q.index, q.processing, id, failed);
      if id !in q.pending { PendingStays(q.index, q.index[id := failed], q.pending); }
    } else {
      var back := job.(status := Pending, updatedAt := retryAt);
      var index := q.index[id := back];
      ProcessingStays(q.index, q.processing, id, back);
      if id !in q.pending {
        PendingStays(q.index, index, q.pending);
        PendingAdds(index, q.pending, id);
      } else {
        TwiceIsDuplicate(index, q.pending, id);
      }
    }
  }

  lemma {:induction false} DistinctCard(s: seq<string>)
    requires Distinct(s)
    ensures |(set x | x in s)| == |s|
  {
    if s != [] {
      DistinctCard(s[1..]);
      assert (set x | x in s) == {s[0]} + (set x | x in s[1..]);
    }
  }

  lemma TwiceIsDuplicate(index: map<string, Job>, pending: seq<string>, id: string)
    requires Distinct(pending) && id in pending && Known(index, pending + [id])
    ensures !Distinct(SortIds(index, pending + [id]))
  {
    var r := SortIds(index, pending + [id]);
    DistinctCard(pending);
    forall x ensures x in r <==> x in pending { SortIdsHas(index, pending + [id], x); }
    assert (set x | x in r) == (set x | x in pending);
    if Distinct(r) {
      DistinctCard(r);
      assert false;
    }
  }
}
