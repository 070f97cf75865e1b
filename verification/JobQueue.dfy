/** The job queue, updated in place by one operation at a time. */
module JobQueues {
  import opened Wrappers
  import opened Order
  import opened Jobs
  import opened Claims
  import opened ClaimLaws
  import opened JobUpkeep
  import opened JobMerge

  /** The queue when the first i pending jobs have been looked at, and the expired ones are dead letters. */
  ghost function LateUpTo(q: Queue, now: int, i: nat): Queue
    requires Known(q.index, q.pending) && i <= |q.pending|
  {
    LateKnown(q.index, q.pending[..i], now);
    DeadAll(q, LateOf(q.index, q.pending[..i], now))
  }

  lemma LateNext(q: Queue, now: int, i: nat)
    requires Known(q.index, q.pending) && i < |q.pending|
    ensures var id, s := q.pending[i], LateUpTo(q, now, i);
            && id in s.index && s.pending == q.pending && (Expired(s.index[id], now) <==> Expired(q.index[id], now))
            && LateUpTo(q, now, i + 1) == (if Expired(q.index[id], now) then DeadLettered(s, id, LATE) else s)
            && TimelyOf(q.index, q.pending[..i + 1], now) ==
               TimelyOf(q.index, q.pending[..i], now) + (if Expired(q.index[id], now) then [] else [id])
  {
    var late := LateOf(q.index, q.pending[..i], now);
    LateMore(q.index, q.pending, now, i);
    LateKnown(q.index, q.pending[..i], now);
    DeadAllKeeps(q, late);
    DeadAllMore(q, late, q.pending[i]);
  }

  lemma LateEnds(q: Queue, now: int)
    requires Known(q.index, q.pending)
    ensures Known(q.index, LateOf(q.index, q.pending, now)) && LateUpTo(q, now, 0) == q
    ensures LateUpTo(q, now, |q.pending|) == DeadAll(q, LateOf(q.index, q.pending, now))
    ensures TimelyOf(q.index, q.pending[..|q.pending|], now) == TimelyOf(q.index, q.pending, now)
  {
    LateKnown(q.index, q.pending, now);
    assert q.pending[..|q.pending|] == q.pending;
  }

  lemma PrefixKnown(index: map<string, Job>, ids: seq<string>, m: nat)
    requires Known(index, ids) && m <= |ids|
    ensures Known(index, ids[..m]) && Known(index, Evens(ids[..m])) && Known(index, Odds(ids[..m]))
  {
    EvensKnown(index, ids[..m]);
  }

  /** The queue when the scan has dropped i expired entries. */
  ghost function Scanned(q: Queue, i: nat): Queue
    requires Known(q.index, q.pending) && q.pending != [] && i <= |q.pending|
  {
    Dropped(q, i).(pending := Left(q.pending, i))
  }

  ghost function Dropped(q: Queue, i: nat): Queue
    requires Known(q.index, q.pending) && q.pending != [] && i <= |q.pending|
  {
    var m := Least(2 * i, |q.pending|);
    PrefixKnown(q.index, q.pending, m);
    DeadAll(q, Evens(q.pending[..m]))
  }

  /** The slice itself, without what is beyond its end. */
  ghost function Left(ids: seq<string>, i: nat): seq<string>
    requires ids != [] && i <= |ids|
  {
    Backing(ids, i)[..|ids| - i]
  }

  lemma ScannedStart(q: Queue)
    requires Known(q.index, q.pending) && q.pending != []
    ensures Scanned(q, 0) == q && Backing(q.pending, 0) == q.pending
  {
    assert q.pending[..0] == [] && q.pending[0..] == q.pending;
    assert Backing(q.pending, 0) == q.pending;
  }

  /** The scan is at its i-th step, and every entry it has read so far was expired. */
  ghost predicate ScanAt(q: Queue, now: int, i: nat)
    requires Known(q.index, q.pending)
  {
    2 * i <= |q.pending| + 1 && i <= |q.pending|
          && FirstEven(q.index, q.pending, now, 0) == FirstEven(q.index, q.pending, now, 2 * i)
  }

  lemma ScannedKeeps(q: Queue, i: nat)
    requires Known(q.index, q.pending) && q.pending != [] && i <= |q.pending|
    ensures var r := Scanned(q, i);
            && r.index.Keys == q.index.Keys && r.processing == q.processing
            && forall id :: id in q.index ==> SameForLists(r.index[id], q.index[id])
  {
    var m := Least(2 * i, |q.pending|);
    PrefixKnown(q.index, q.pending, m);
    DeadAllKeeps(q, Evens(q.pending[..m]));
  }

  lemma ScanGoesOn(q: Queue, now: int, i: nat)
    requires Known(q.index, q.pending) && ScanAt(q, now, i) && 2 * i < |q.pending|
    requires Expired(q.index[q.pending[2 * i]], now)
    ensures ScanAt(q, now, i + 1)
  {
    assert FirstEven(q.index, q.pending, now, 2 * i) == FirstEven(q.index, q.pending, now, 2 * i + 2);
  }

  lemma ScannedDrops(q: Queue, i: nat)
    requires Known(q.index, q.pending) && 2 * i < |q.pending|
    ensures q.pending[2 * i] in Scanned(q, i).index
    ensures Scanned(q, i + 1) == DeadLettered(Scanned(q, i), q.pending[2 * i], LATE).(pending := Left(q.pending, i + 1))
  {
    DroppedMore(q, i);
  }

  /** An expired entry is dropped, and the next one is skipped. */
  lemma ScanDrops(q: Queue, now: int, i: nat)
    requires Known(q.index, q.pending) && ScanAt(q, now, i) && 2 * i < |q.pending|
    requires Expired(q.index[q.pending[2 * i]], now)
    ensures ScanAt(q, now, i + 1) && q.pending[2 * i] in Scanned(q, i).index
    ensures Scanned(q, i + 1) == DeadLettered(Scanned(q, i), q.pending[2 * i], LATE).(pending := Left(q.pending, i + 1))
  {
    ScanGoesOn(q, now, i);
    ScannedDrops(q, i);
  }

  lemma DroppedMore(q: Queue, i: nat)
    requires Known(q.index, q.pending) && 2 * i < |q.pending|
    ensures q.pending[2 * i] in Dropped(q, i).index
          && Dropped(q, i + 1) == DeadLettered(Dropped(q, i), q.pending[2 * i], LATE)
  {
    var ids := q.pending;
    ScannedMore(ids, i);
    PrefixKnown(q.index, ids, 2 * i);
    DeadAllMore(q, Evens(ids[..2 * i]), ids[2 * i]);
  }

  lemma ScanClaims(q: Queue, worker: string, now: int, node: string, i: nat)
    requires Known(q.index, q.pending) && ScanAt(q, now, i) && 2 * i < |q.pending|
    requires !Expired(q.index[q.pending[2 * i]], now)
    ensures q.pending[2 * i] in Scanned(q, i).index
    ensures DoClaim(q, worker, now, node) ==
            (Claimed(q.pending[2 * i]),
             TakenBy(Scanned(q, i), q.pending[2 * i], Left(q.pending, i + 1), worker, now, node))
  {
    assert FirstEven(q.index, q.pending, now, 0) == Some(2 * i);
    DoClaimAt(q, worker, now, node, 2 * i);
    assert Dropped(q, i) == DeadAll(q, Evens(q.pending[..2 * i]));
    RestAfter(q.pending, i);
  }

  lemma RestAfter(ids: seq<string>, i: nat)
    requires 2 * i < |ids|
    ensures Left(ids, i + 1) == Odds(ids[..2 * i]) + ids[2 * i + 1..]
  {
    BackingNext(ids, i);
    BackingParts(ids, i);
    var b, n := Backing(ids, i), |ids|;
    assert Deleted(b, n - i, i)[..n - i - 1] == b[..i] + b[i + 1..n - i];
    assert b[i..n - i][1..] == b[i + 1..n - i] == ids[2 * i + 1..];
  }

  /** Nothing at an even position is left: what a scan of one entry, and of several, comes to. */
  lemma ScanPast(q: Queue, worker: string, now: int, node: string, i: nat)
    requires Known(q.index, q.pending) && ScanAt(q, now, i) && |q.pending| <= 2 * i && 0 < |q.pending|
    ensures FirstEven(q.index, q.pending, now, 0) == None
    ensures Scanned(q, i) == AllDropped(q)
    ensures |Backing(q.pending, i)| == |q.pending|
    ensures i < |q.pending| ==> 2 <= |q.pending| && Backing(q.pending, i)[i] == q.pending[|q.pending| - 1]
    ensures i == |q.pending| ==> |q.pending| == 1
  {
    var ids := q.pending;
    assert ids[..|ids|] == ids;
    PrefixKnown(q.index, ids, |ids|);
    EvensOdds(ids, "");
    assert |Odds(ids)| == |ids| - i;
    if i < |ids| { BackingPast(ids, i); } else { assert Backing(ids, i)[..0] == Odds(ids); }
  }

  /** The slice and the queue at the i-th step of a scan. */
  ghost predicate At(q: Queue, now: int, i: nat, slice: seq<string>, s: Queue) {
    && Listed(q) && i <= |q.pending| == |slice| && 0 < |slice|
    && ScanAt(q, now, i) && slice == Backing(q.pending, i) && s == Scanned(q, i)
  }

  lemma AtStart(q: Queue, now: int)
    requires Listed(q) && q.pending != []
    ensures At(q, now, 0, q.pending, q)
  {
    ScannedStart(q);
  }

  lemma ReadsPending(q: Queue, now: int, i: nat, slice: seq<string>, s: Queue)
    requires At(q, now, i, slice, s) && i < |slice|
    ensures slice[i] in s.index && s.index[slice[i]].status == Pending
  {
    ScannedKeeps(q, i);
    if 2 * i < |slice| { BackingNext(q.pending, i); } else { ScanPast(q, "", now, "", i); }
    assert slice[i] in q.pending;
  }

  lemma ReadsExpired(q: Queue, now: int, i: nat, slice: seq<string>, s: Queue)
    requires At(q, now, i, slice, s) && i + 1 <= |slice| - i && slice[i] in s.index && Expired(s.index[slice[i]], now)
    ensures var left := Deleted(slice, |slice| - i, i);
            At(q, now, i + 1, left, DeadLettered(s, slice[i], LATE).(pending := left[..|slice| - i - 1]))
  {
    ReadsInside(q, "", now, "", i);
  }

  lemma ReadsLive(q: Queue, worker: string, now: int, node: string, i: nat, slice: seq<string>, s: Queue)
    requires At(q, now, i, slice, s) && i + 1 <= |slice| - i && slice[i] in s.index && !Expired(s.index[slice[i]], now)
    ensures var left := Deleted(slice, |slice| - i, i);
            DoClaim(q, worker, now, node) ==
              (Claimed(slice[i]), TakenBy(s, slice[i], left[..|slice| - i - 1], worker, now, node))
  {
    ReadsInside(q, worker, now, node, i);
  }

  lemma ReadsPast(q: Queue, worker: string, now: int, node: string, i: nat, slice: seq<string>, s: Queue)
    requires At(q, now, i, slice, s) && |slice| - i < i + 1 && i < |slice| && slice[i] in s.index
    ensures DoClaim(q, worker, now, node) == (Panicked, Stumbled(s, slice[i], worker, now, node))
  {
    ScanPast(q, worker, now, node, i);
  }

  lemma ScanEnds(q: Queue, worker: string, now: int, node: string, slice: seq<string>, s: Queue)
    requires At(q, now, |slice|, slice, s)
    ensures DoClaim(q, worker, now, node) == (NothingClaimable, s)
  {
    ScanPast(q, worker, now, node, |slice|);
  }

  lemma ReadsInside(q: Queue, worker: string, now: int, node: string, i: nat)
    requires Listed(q) && ScanAt(q, now, i) && 2 * i < |q.pending|
    ensures |Backing(q.pending, i)| == |q.pending| && Backing(q.pending, i)[i] == q.pending[2 * i]
          && q.pending[2 * i] in Scanned(q, i).index
    ensures var id, s := q.pending[2 * i], Scanned(q, i);
            && Deleted(Backing(q.pending, i), |q.pending| - i, i) == Backing(q.pending, i + 1)
            && (Expired(s.index[id], now) ==>
                  ScanAt(q, now, i + 1)
                        && Scanned(q, i + 1) == DeadLettered(s, id, LATE).(pending := Left(q.pending, i + 1)))
            && (!Expired(s.index[id], now) ==>
                  DoClaim(q, worker, now, node) ==
                    (Claimed(id), TakenBy(s, id, Left(q.pending, i + 1), worker, now, node)))
  {
    ScannedKeeps(q, i);
    BackingNext(q.pending, i);
    if Expired(q.index[q.pending[2 * i]], now) { ScanDrops(q, now, i); } else { ScanClaims(q, worker, now, node, i); }
  }

  lemma {:induction false} ScanFromAt(q: Queue, worker: string, now: int, node: string, i: nat, slice: seq<string>,
      s: Queue, len: nat)
    requires At(q, now, i, slice, s) && len == |slice| - i
    ensures Known(s.index, slice) && Scan(s, slice, len, i, worker, now, node) == DoClaim(q, worker, now, node)
    decreases |slice| - i
  {
    SliceKnown(q, now, i, slice, s);
    if i == |slice| {
      ScanEnds(q, worker, now, node, slice, s);
    } else {
      ReadsPending(q, now, i, slice, s);
      if len < i + 1 {
        ReadsPast(q, worker, now, node, i, slice, s);
      } else if Expired(s.index[slice[i]], now) {
        ReadsExpired(q, now, i, slice, s);
        var left := Deleted(slice, len, i);
        var t := DeadLettered(s, slice[i], LATE).(pending := left[..len - 1]);
        ScanFromAt(q, worker, now, node, i + 1, left, t, len - 1);
      } else {
        ReadsLive(q, worker, now, node, i, slice, s);
      }
    }
  }

  lemma BackingKnown(index: map<string, Job>, ids: seq<string>, i: nat)
    requires Known(index, ids) && ids != []
    ensures Known(index, Backing(ids, i))
  {
    var m := Least(2 * i, |ids|);
    PrefixKnown(index, ids, m);
    var o, r, c := Odds(ids[..m]), ids[m..], Copies(ids[|ids| - 1], i);
    assert Known(index, r) && Known(index, c);
    assert Known(index, o + r + c);
  }

  lemma SliceKnown(q: Queue, now: int, i: nat, slice: seq<string>, s: Queue)
    requires At(q, now, i, slice, s)
    ensures Known(s.index, slice)
  {
    ScannedKeeps(q, i);
    BackingKnown(q.index, q.pending, i);
  }

  /** When the lists are right, the scan comes to what DoClaim says. */
  lemma ScanIsClaim(q: Queue, worker: string, now: int, node: string)
    requires Listed(q)
    ensures Scan(q, q.pending, |q.pending|, 0, worker, now, node) == DoClaim(q, worker, now, node)
  {
    if q.pending == [] {
      EmptyClaim(q, worker, now, node);
    } else {
      AtStart(q, now);
      ScanFromAt(q, worker, now, node, 0, q.pending, q, |q.pending|);
    }
  }

  lemma EmptyClaim(q: Queue, worker: string, now: int, node: string)
    requires q.pending == []
    ensures Scan(q, q.pending, |q.pending|, 0, worker, now, node) == DoClaim(q, worker, now, node)
  {
    assert q.(pending := []) == q;
  }

  class JobQueue {
    const nodeId: string
    const maxAge: int
    var log: seq<string>
    var index: map<string, Job>
    var pending: seq<string>
    var processing: seq<string>
    var dead: seq<string>
    var lamport: int
    var superseded: map<string, Job>

    function State(): Queue
      reads this
    {
      Queue(log, index, pending, processing, dead, lamport, superseded)
    }

    constructor (nodeId: string, maxAge: int)
      ensures State() == EMPTY && Sound(State()) && this.nodeId == nodeId && this.maxAge == maxAge
    {
      this.nodeId, this.maxAge := nodeId, maxAge;
      log, index, pending, processing, dead, lamport, superseded := [], map[], [], [], [], 0, map[];
    }

    method MoveToDeadLetter(id: string, reason: string)
      requires id in index
      modifies this`index, this`dead
      ensures State() == DeadLettered(old(State()), id, reason)
    {
      index := index[id := index[id].(error := reason)];
      dead := dead + [id];
      if |dead| > DEAD_LETTERS {
        dead := dead[|dead| - DEAD_LETTERS..];
      }
    }

    /** Moves an expired entry to the dead letters and deletes it from the slice, if it is inside. */
    method Drop(backing: array<string>, len: nat, i: nat, id: string) returns (panicked: bool)
      requires id in index && len <= backing.Length
      modifies this`index, this`dead, this`pending, backing
      ensures panicked <==> i + 1 > len
      ensures panicked ==> State() == DeadLettered(old(State()), id, LATE)
      ensures !panicked ==> backing[..] == Deleted(old(backing[..]), len, i)
      ensures !panicked ==> State() == DeadLettered(old(State()), id, LATE).(pending := backing[..len - 1])
    {
      MoveToDeadLetter(id, LATE);
      if i + 1 > len { return true; }
      DeleteAt(backing, len, i);
      pending := backing[..len - 1];
      return false;
    }

    /** Takes an entry for a worker and moves it to the processing list, if it is inside the slice. */
    method Take(backing: array<string>, len: nat, i: nat, id: string, worker: string, now: int) returns (panicked: bool)
      requires id in index && len <= backing.Length
      modifies this`index, this`processing, this`pending, backing
      ensures panicked <==> i + 1 > len
      ensures panicked ==>
                State() == old(State()).(index := old(index)[id := ClaimedBy(old(index)[id], worker, now, nodeId)])
      ensures !panicked ==> backing[..] == Deleted(old(backing[..]), len, i)
      ensures !panicked ==> State() == TakenBy(old(State()), id, backing[..len - 1], worker, now, nodeId)
    {
      index := index[id := ClaimedBy(index[id], worker, now, nodeId)];
      if i + 1 > len { return true; }
      DeleteAt(backing, len, i);
      pending := backing[..len - 1];
      processing := processing + [id];
      return false;
    }

    /** Claims a job for a worker; what the scan comes to when the lists are right is DoClaim. */
    method GetNextJob(worker: string, now: int) returns (claim: Claim)
      requires Known(index, pending)
      modifies this`index, this`pending, this`processing, this`dead
      ensures (claim, State()) == Scan(old(State()), old(pending), |old(pending)|, 0, worker, now, nodeId)
      ensures old(Listed(State())) ==> (claim, State()) == DoClaim(old(State()), worker, now, nodeId)
      ensures claim.Claimed? ==>
                var id := claim.id;
                && id in old(pending) && id in old(index) && old(index)[id].status == Pending
                && (old(index)[id].deadlineAt <= 0 || now <= old(index)[id].deadlineAt)
                && id in index && processing == old(processing) + [id]
                && index[id] == old(index)[id].(status := Processing, processedBy := worker, processStarted := now,
                                                updatedAt := now, node := nodeId)
      ensures old(Listed(State())) && 0 < |old(pending)|
              && (forall k :: 0 <= k < |old(pending)| ==>
                    || old(index)[old(pending)[k]].deadlineAt <= 0
                    || now <= old(index)[old(pending)[k]].deadlineAt) ==>
                && claim.Claimed? && claim.id in old(index) && pending == old(pending)[1..]
                && forall k :: 0 <= k < |old(pending)| ==>
                     var job, best := old(index)[old(pending)[k]], old(index)[claim.id];
                     job.priority < best.priority || (job.priority == best.priority && best.timestamp <= job.timestamp)
    {
      ghost var q := State();
      if Listed(q) { ScanIsClaim(q, worker, now, nodeId); }
      ScanClaimed(q, q.pending, |q.pending|, 0, worker, now, nodeId);
      if Listed(q) && q.pending != [] && (forall k :: 0 <= k < |q.pending| ==> !Expired(q.index[q.pending[k]], now)) {
        ClaimWithoutExpired(q, worker, now, nodeId);
      }
      if |pending| == 0 { return NothingClaimable; }
      var n := |pending|;
      var ids := pending;
      var backing := new string[n](k requires 0 <= k < |ids| => ids[k]);
      assert backing[..] == pending;
      claim := ScanSlice(backing, worker, now);
    }

    /** Looks at entry i, and drops it or takes it. */
    method ScanStep(backing: array<string>, len: nat, i: nat, worker: string, now: int)
      returns (done: bool, claim: Claim, left: nat)
      requires Known(index, backing[..]) && len <= backing.Length && i < backing.Length
      modifies this`index, this`pending, this`processing, this`dead, backing
      ensures done ==> (claim, State()) == old(Scan(State(), backing[..], len, i, worker, now, nodeId))
      ensures !done ==> left <= backing.Length && Known(index, backing[..])
      ensures !done ==> Scan(State(), backing[..], left, i + 1, worker, now, nodeId) ==
                        old(Scan(State(), backing[..], len, i, worker, now, nodeId))
    {
      var id := backing[i];
      assert id == backing[..][i];
      if Expired(index[id], now) {
        if i < len { DeletedKnown(index, backing[..], len, i); }
        var panicked := Drop(backing, len, i, id);
        return panicked, Panicked, if panicked then len else len - 1;
      }
      if index[id].status == Pending {
        var panicked := Take(backing, len, i, id, worker, now);
        return true, if panicked then Panicked else Claimed(id), len;
      }
      return false, NothingClaimable, len;
    }

    /** Goes over the entries that were there at the start, deleting from the slice on the way. */
    method ScanSlice(backing: array<string>, worker: string, now: int) returns (claim: Claim)
      requires Known(index, backing[..])
      modifies this`index, this`pending, this`processing, this`dead, backing
      ensures (claim, State()) == old(Scan(State(), backing[..], backing.Length, 0, worker, now, nodeId))
    {
      var len, i := backing.Length, 0;
      while i < backing.Length
        invariant i <= backing.Length && 0 <= len <= backing.Length && Known(index, backing[..])
        invariant Scan(State(), backing[..], len, i, worker, now, nodeId) ==
                  old(Scan(State(), backing[..], backing.Length, 0, worker, now, nodeId))
      {
        var done, c, left := ScanStep(backing, len, i, worker, now);
        if done { return c; }
        len, i := left, i + 1;
      }
      return NothingClaimable;
    }

    method SortPendingJobs()
      requires Known(index, pending)
      modifies this`pending
      ensures pending == SortIds(index, old(pending)) && |pending| == |old(pending)|
      ensures Known(index, pending) && Ordered(index, pending)
      ensures forall id :: id in pending <==> id in old(pending)
    {
      SortedMeaning(index, pending);
      pending := SortIds(index, pending);
    }

    /** Adds a job under the next time of the clock; the identifier must not be in use, as it never is
        without merges and restarts. */
    method Enqueue(nanos: int, payload: string, priority: int, maxRetries: int, now: int,
        deadlineAt: int) returns (job: Job)
      requires Known(index, pending) && JobId(lamport + 1, nanos) !in index
      modifies this
      ensures job == NewJob(old(lamport) + 1, nanos, payload, priority, maxRetries, now, deadlineAt, nodeId)
      ensures job.id == JobId(lamport, nanos) && job.timestamp == lamport == old(lamport) + 1
      ensures job.payload == payload && job.priority == priority && job.maxRetries == maxRetries
      ensures job.status == Pending && job.retryCount == 0 && job.deadlineAt == deadlineAt
      ensures job.processStarted == 0 && job.updatedAt == now && job.node == nodeId
      ensures State() == Enqueued(old(State()), job)
      ensures log == old(log) + [job.id] && index == old(index)[job.id := job]
      ensures processing == old(processing) && dead == old(dead)
      ensures Known(index, pending) && Ordered(index, pending) && |pending| == |old(pending)| + 1
      ensures forall id :: id in pending <==> id in old(pending) || id == job.id
    {
      lamport := lamport + 1;
      job := NewJob(lamport, nanos, payload, priority, maxRetries, now, deadlineAt, nodeId);
      log := log + [job.id];
      index := index[job.id := job];
      pending := pending + [job.id];
      SortPendingJobs();
    }

    method RemoveFromPending(id: string)
      modifies this`pending
      ensures pending == RemoveFirst(old(pending), id)
    {
      var i := 0;
      while i < |pending|
        invariant i <= |pending| && pending == old(pending) && forall k :: 0 <= k < i ==> pending[k] != id
      {
        if pending[i] == id {
          RemoveFirstAt(pending, id, i);
          pending := pending[..i] + pending[i + 1..];
          return;
        }
        i := i + 1;
      }
      RemoveFirstNone(pending, id);
    }

    method RemoveFromProcessing(id: string)
      modifies this`processing
      ensures processing == RemoveFirst(old(processing), id)
    {
      var i := 0;
      while i < |processing|
        invariant i <= |processing| && processing == old(processing) && forall k :: 0 <= k < i ==> processing[k] != id
      {
        if processing[i] == id {
          RemoveFirstAt(processing, id, i);
          processing := processing[..i] + processing[i + 1..];
          return;
        }
        i := i + 1;
      }
      RemoveFirstNone(processing, id);
    }

    method MarkComplete(id: string, result: string, now: int) returns (ok: bool)
      modifies this`index, this`processing
      ensures ok <==> id in old(index) && old(index)[id].status == Processing
      ensures State() == MarkedComplete(old(State()), id, result, now, nodeId)
      ensures ok ==> index == old(index)[id := old(index)[id].(status := Completed, result := result,
                                                             processEnded := now, updatedAt := now, node := nodeId)]
      ensures ok ==> processing == RemoveFirst(old(processing), id)
      ensures !ok ==> index == old(index) && processing == old(processing)
    {
      if id !in index { return false; }
      if index[id].status != Processing { return false; }
      index := index[id := CompletedJob(index[id], result, now, nodeId)];
      RemoveFromProcessing(id);
      return true;
    }

    /** Takes a failed job back for a retry, or gives it up. */
    method MarkFailed(id: string, error: string, now: int, retryAt: int) returns (ok: bool)
      requires Known(index, pending)
      modifies this`index, this`processing, this`pending, this`dead
      ensures ok <==> id in old(index)
      ensures State() == MarkedFailed(old(State()), id, error, now, retryAt, nodeId)
      ensures !ok ==> State() == old(State())
      ensures ok ==> processing == RemoveFirst(old(processing), id)
      ensures ok && old(index)[id].retryCount + 1 < old(index)[id].maxRetries ==>
                && index == old(index)[id := old(index)[id].(status := Pending, error := error,
                                                             retryCount := old(index)[id].retryCount + 1,
                                                             processEnded := now, updatedAt := retryAt, node := nodeId)]
                && dead == old(dead) && Known(index, pending) && Ordered(index, pending)
                && |pending| == |old(pending)| + 1 && forall x :: x in pending <==> x in old(pending) || x == id
      ensures ok && old(index)[id].retryCount + 1 >= old(index)[id].maxRetries ==>
                && index == old(index)[id := old(index)[id].(status := Failed,
                                                             error := "max retries exceeded: " + error,
                                                             retryCount := old(index)[id].retryCount + 1,
                                                             processEnded := now, updatedAt := now, node := nodeId)]
                && pending == old(pending)
                && (|old(dead)| < 10_000 ==> dead == old(dead) + [id])
                && (|old(dead)| >= 10_000 ==> dead == old(dead)[|old(dead)| - 9_999..] + [id])
    {
      if id !in index { return false; }
      var job := FailedOnce(index[id], error, now, nodeId);
      index := index[id := job];
      RemoveFromProcessing(id);
      if job.retryCount >= job.maxRetries {
        index := index[id := job.(status := Failed)];
        assert index == old(index)[id := job.(status := Failed)];
        LatestDead(dead, id);
        MoveToDeadLetter(id, "max retries exceeded: " + error);
        return true;
      }
      index := index[id := job.(status := Pending, updatedAt := retryAt)];
      assert index == old(index)[id := job.(status := Pending, updatedAt := retryAt)];
      pending := pending + [id];
      SortPendingJobs();
      return true;
    }

    /** The records of the log, for a peer. */
    method Snapshot() returns (jobs: seq<Job>)
      requires Known(index, log)
      ensures jobs == Passed(State())
    {
      jobs := [];
      for i := 0 to |log|
        invariant |jobs| == i && forall k :: 0 <= k < i ==> jobs[k] == LogRecord(State(), log[k])
      {
        jobs := jobs + [LogRecord(State(), log[i])];
      }
    }

    method MergeOne(peer: Job)
      modifies this`log, this`index, this`pending, this`processing, this`superseded
      ensures State() == MergedOne(old(State()), peer)
    {
      var id := peer.id;
      if id in index && !VersionLess(index[id].updatedAt, index[id].node, peer.updatedAt, peer.node) { return; }
      if id !in index {
        log := log + [id];
        superseded := superseded - {id};
      } else {
        RemoveFromPending(id);
        RemoveFromProcessing(id);
        if id !in superseded { superseded := superseded[id := index[id]]; }
      }
      index := index[id := peer];
      if peer.status == Pending {
        pending := pending + [id];
      } else if peer.status == Processing {
        processing := processing + [id];
      }
    }

    /** Adopts the newer versions of a peer's jobs. */
    method MergeSnapshot(peers: seq<Job>)
      requires Known(index, pending)
      modifies this`log, this`index, this`pending, this`processing, this`superseded
      ensures State() == Merged(old(State()), peers)
      ensures Known(index, pending) && Ordered(index, pending)
      ensures old(log) <= log && dead == old(dead) && lamport == old(lamport)
      ensures forall k :: 0 <= k < |peers| && peers[k].id !in old(index) ==> peers[k].id in log
      ensures forall k :: 0 <= k < |peers| ==>
                && peers[k].id in index && peers[k].updatedAt <= index[peers[k].id].updatedAt
                && (peers[k].updatedAt == index[peers[k].id].updatedAt ==>
                      !LexLess(index[peers[k].id].node, peers[k].node))
      ensures old(InLists(State())) ==> Listed(State())
    {
      ghost var q := State();
      for i := 0 to |peers|
        invariant State() == MergedAll(q, peers[..i])
      {
        assert peers[..i + 1][..i] == peers[..i];
        MergeOne(peers[i]);
      }
      assert peers[..|peers|] == peers;
      MergedAllKnown(q, peers);
      SortPendingJobs();
      if InLists(q) { MergeListed(q, peers); }
      MergedLogs(q, peers, "");
      forall k | 0 <= k < |peers| && peers[k].id !in q.index ensures peers[k].id in log {
        assert OffersId(peers, peers[k].id);
        MergedLogs(q, peers, peers[k].id);
      }
      forall k | 0 <= k < |peers|
        ensures && peers[k].id in index && peers[k].updatedAt <= index[peers[k].id].updatedAt
                && (peers[k].updatedAt == index[peers[k].id].updatedAt ==>
                      !LexLess(index[peers[k].id].node, peers[k].node))
      {
        MergeAdoptsNewest(q, peers, peers[k].id);
        assert OffersId(peers, peers[k].id);
        NewestMeaning(q, peers, peers[k].id);
      }
    }

    // ----- cleanup -----

    /** Moves a job to the dead letters if it is expired. */
    method DropIfLate(id: string, now: int) returns (late: bool)
      requires id in index
      modifies this`index, this`dead
      ensures late == Expired(old(index)[id], now)
      ensures State() == if late then DeadLettered(old(State()), id, LATE) else old(State())
    {
      late := Expired(index[id], now);
      if late { MoveToDeadLetter(id, LATE); }
    }

    /** Dead-letters the expired pending jobs. */
    method SweepExpired(now: int) returns (timely: seq<string>)
      requires Known(index, pending)
      modifies this`index, this`dead
      ensures Known(old(index), LateOf(old(index), pending, now))
      ensures State() == DeadAll(old(State()), LateOf(old(index), pending, now))
            && timely == TimelyOf(old(index), pending, now)
    {
      ghost var q := State();
      LateEnds(q, now);
      timely := [];
      for i := 0 to |pending|
        invariant State() == LateUpTo(q, now, i) && timely == TimelyOf(q.index, q.pending[..i], now)
        invariant pending == q.pending
      {
        LateNext(q, now, i);
        var late := DropIfLate(pending[i], now);
        if !late { timely := timely + [pending[i]]; }
      }
    }

    /** Takes a job back if it is stuck. */
    method RequeueIfStuck(id: string, now: int) returns (stuck: bool)
      requires id in index
      modifies this`index
      ensures stuck == Stuck(old(index)[id], now)
      ensures index == if stuck then old(index)[id := Requeued(old(index)[id])] else old(index)
    {
      stuck := Stuck(index[id], now);
      if stuck { index := index[id := Requeued(index[id])]; }
    }

    /** Takes back the jobs that have been in processing for too long. */
    method SweepStuck(now: int) returns (stuck: seq<string>, free: seq<string>)
      requires Known(index, processing) && Distinct(processing)
      modifies this`index
      ensures stuck == StuckOf(old(index), processing, now) && free == FreeOf(old(index), processing, now)
      ensures index == RequeuedAll(old(index), stuck)
    {
      ghost var before := index;
      stuck, free := [], [];
      StuckEnds(before, processing, now, index, stuck, free);
      for i := 0 to |processing|
        invariant StuckAt(before, processing, now, i, index, stuck, free)
      {
        StuckNext(before, processing, now, i, index, stuck, free);
        var isStuck := RequeueIfStuck(processing[i], now);
        if isStuck { stuck := stuck + [processing[i]]; } else { free := free + [processing[i]]; }
      }
      StuckEnds(before, processing, now, index, stuck, free);
    }

    method Evict(cutoff: int)
      requires Known(index, log) && Distinct(log)
      modifies this`log, this`index
      ensures State() == Evicted(old(State()), cutoff)
    {
      ghost var q := State();
      var kept := [];
      EvictEnds(q, cutoff);
      for i := 0 to |log|
        invariant log == q.log && EvictedTo(q, i, cutoff, kept, index)
      {
        EvictNext(q, i, cutoff, kept, index);
        if Terminal(LogRecord(State(), log[i])) && LogRecord(State(), log[i]).updatedAt < cutoff {
          index := index - {log[i]};
        } else {
          kept := kept + [log[i]];
        }
      }
      log := kept;
    }

    /** The first two passes of a cleanup. */
    method Sweep(now: int)
      requires Known(index, pending) && Known(index, processing) && Distinct(processing)
      modifies this`index, this`pending, this`processing, this`dead
      ensures State() == Swept(old(State()), now)
    {
      ghost var q := State();
      var newPending := SweepExpired(now);
      LateStuck(q, now);
      var stuck, newProcessing := SweepStuck(now);
      processing := newProcessing;
      pending := newPending + stuck;
      SweptParts(q, now, newPending, stuck, State());
      SortPendingJobs();
    }

    /** One round of the background cleanup. */
    method CleanUp(now: int)
      requires Known(index, pending) && Known(index, processing) && Distinct(processing)
      requires Known(index, log) && Distinct(log)
      modifies this`log, this`index, this`pending, this`processing, this`dead
      ensures State() == CleanedUp(old(State()), now, maxAge)
      ensures forall i, j :: 0 <= i < j < |pending| && pending[i] in index && pending[j] in index ==>
                var a, b := index[pending[i]], index[pending[j]];
                b.priority < a.priority || (b.priority == a.priority && a.timestamp <= b.timestamp)
    {
      ghost var q := State();
      CleanedOrdered(q, now, maxAge);
      Sweep(now);
      CleanedIs(q, now, maxAge, State());
      if maxAge > 0 { Evict(now - maxAge); }
    }
  }
}
