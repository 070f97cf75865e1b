/** The cleanup of a queue: expired jobs, stuck jobs, and finished jobs past their age. */
module JobUpkeep {
  import opened Wrappers
  import opened Jobs
  import opened Claims

  predicate Stuck(job: Job, now: int) {
    job.processStarted > 0 && now - job.processStarted > PROCESSING_TIMEOUT
  }

  predicate Terminal(job: Job) {
    job.status == Completed || job.status == Failed || job.status == Cancelled
  }

  /** The identifiers whose jobs are expired, in order, and the others. */
  function LateOf(index: map<string, Job>, ids: seq<string>, now: int): seq<string>
    requires Known(index, ids)
  {
    if ids == [] then []
    else
      var last := ids[|ids| - 1];
      LateOf(index, ids[..|ids| - 1], now) + (if Expired(index[last], now) then [last] else [])
  }

  function TimelyOf(index: map<string, Job>, ids: seq<string>, now: int): seq<string>
    requires Known(index, ids)
  {
    if ids == [] then []
    else
      var last := ids[|ids| - 1];
      TimelyOf(index, ids[..|ids| - 1], now) + (if Expired(index[last], now) then [] else [last])
  }

  function StuckOf(index: map<string, Job>, ids: seq<string>, now: int): seq<string>
    requires Known(index, ids)
  {
    if ids == [] then []
    else
      var last := ids[|ids| - 1];
      StuckOf(index, ids[..|ids| - 1], now) + (if Stuck(index[last], now) then [last] else [])
  }

  function FreeOf(index: map<string, Job>, ids: seq<string>, now: int): seq<string>
    requires Known(index, ids)
  {
    if ids == [] then []
    else
      var last := ids[|ids| - 1];
      FreeOf(index, ids[..|ids| - 1], now) + (if Stuck(index[last], now) then [] else [last])
  }

  function Requeued(job: Job): Job {
    job.(status := Pending, processedBy := "")
  }

  function RequeuedAll(index: map<string, Job>, ids: seq<string>): (r: map<string, Job>)
    ensures r.Keys == index.Keys
  {
    map k | k in index :: if k in ids then Requeued(index[k]) else index[k]
  }

  lemma {:induction false} LateHas(index: map<string, Job>, ids: seq<string>, now: int, x: string)
    requires Known(index, ids)
    ensures x in LateOf(index, ids, now) <==> x in ids && Expired(index[x], now)
    ensures x in TimelyOf(index, ids, now) <==> x in ids && !Expired(index[x], now)
  {
    if ids != [] {
      LateHas(index, ids[..|ids| - 1], now, x);
      assert ids == ids[..|ids| - 1] + [ids[|ids| - 1]];
    }
  }

  lemma {:induction false} StuckHas(index: map<string, Job>, ids: seq<string>, now: int, x: string)
    requires Known(index, ids)
    ensures x in StuckOf(index, ids, now) <==> x in ids && Stuck(index[x], now)
    ensures x in FreeOf(index, ids, now) <==> x in ids && !Stuck(index[x], now)
  {
    if ids != [] {
      StuckHas(index, ids[..|ids| - 1], now, x);
      assert ids == ids[..|ids| - 1] + [ids[|ids| - 1]];
    }
  }

  lemma {:induction false} FiltersDistinct(index: map<string, Job>, ids: seq<string>, now: int)
    requires Known(index, ids) && Distinct(ids)
    ensures Distinct(TimelyOf(index, ids, now)) && Distinct(StuckOf(index, ids, now))
    ensures Distinct(FreeOf(index, ids, now))
  {
    if ids != [] {
      var front, last := ids[..|ids| - 1], ids[|ids| - 1];
      FiltersDistinct(index, front, now);
      LateHas(index, front, now, last);
      StuckHas(index, front, now, last);
      assert forall i :: 0 <= i < |front| ==> front[i] == ids[i] != last;
    }
  }

  /** The passes go through the lists in order, and each job counts by itself. */
  lemma {:induction false} LateConcat(index: map<string, Job>, a: seq<string>, b: seq<string>, now: int)
    requires Known(index, a) && Known(index, b) && Known(index, a + b)
    ensures LateOf(index, a + b, now) == LateOf(index, a, now) + LateOf(index, b, now)
    decreases |b|
  {
    if b == [] {
      assert a + b == a;
    } else {
      FrontOfBoth(a, b);
      LateConcat(index, a, b[..|b| - 1], now);
    }
  }

  lemma LateOne(index: map<string, Job>, id: string, now: int)
    requires id in index
    ensures LateOf(index, [id], now) ==
            if index[id].deadlineAt > 0 && now > index[id].deadlineAt then [id] else []
  {
    assert [id][..0] == [];
    assert LateOf(index, [], now) == [];
  }

  lemma {:induction false} FreeConcat(index: map<string, Job>, a: seq<string>, b: seq<string>, now: int)
    requires Known(index, a) && Known(index, b) && Known(index, a + b)
    ensures FreeOf(index, a + b, now) == FreeOf(index, a, now) + FreeOf(index, b, now)
    decreases |b|
  {
    if b == [] {
      assert a + b == a;
    } else {
      FrontOfBoth(a, b);
      FreeConcat(index, a, b[..|b| - 1], now);
    }
  }

  lemma FreeOne(index: map<string, Job>, id: string, now: int)
    requires id in index
    ensures FreeOf(index, [id], now) ==
            if index[id].processStarted > 0 && now - index[id].processStarted > 300_000 then [] else [id]
  {
    assert [id][..0] == [];
    assert FreeOf(index, [], now) == [];
  }

  /** Expired pending jobs go to the dead letters, still with status pending; jobs in processing for too long
      go back to the pending list. */
  function Swept(q: Queue, now: int): Queue
    requires Known(q.index, q.pending) && Known(q.index, q.processing)
  {
    LateKnown(q.index, q.pending, now);
    var dropped := DeadAll(q, LateOf(q.index, q.pending, now));
    var stuck := StuckOf(q.index, q.processing, now);
    var index := RequeuedAll(dropped.index, stuck);
    SweptKnown(q.index, q.pending, q.processing, now, index);
    dropped.(index := index, pending := SortIds(index, TimelyOf(q.index, q.pending, now) + stuck),
             processing := FreeOf(q.index, q.processing, now))
  }

  lemma LateKnown(index: map<string, Job>, ids: seq<string>, now: int)
    requires Known(index, ids)
    ensures Known(index, LateOf(index, ids, now))
  {
    forall x | x in LateOf(index, ids, now) ensures x in index { LateHas(index, ids, now, x); }
  }

  lemma SweptKnown(index: map<string, Job>, pending: seq<string>, processing: seq<string>, now: int,
      index': map<string, Job>)
    requires Known(index, pending) && Known(index, processing) && index'.Keys == index.Keys
    ensures Known(index', TimelyOf(index, pending, now) + StuckOf(index, processing, now))
  {
    var ids := TimelyOf(index, pending, now) + StuckOf(index, processing, now);
    forall x | x in ids ensures x in index {
      LateHas(index, pending, now, x);
      StuckHas(index, processing, now, x);
    }
  }

  /** The record that the log holds for an identifier. */
  function LogRecord(q: Queue, id: string): Job
    requires id in q.index
  {
    if id in q.superseded then q.superseded[id] else q.index[id]
  }

  predicate Evictable(q: Queue, id: string, cutoff: int)
    requires id in q.index
  {
    Terminal(LogRecord(q, id)) && LogRecord(q, id).updatedAt < cutoff
  }

  function KeptOf(q: Queue, ids: seq<string>, cutoff: int): seq<string>
    requires Known(q.index, ids)
  {
    if ids == [] then []
    else
      var last := ids[|ids| - 1];
      KeptOf(q, ids[..|ids| - 1], cutoff) + (if Evictable(q, last, cutoff) then [] else [last])
  }

  /** Finished jobs that were last updated before the cutoff leave the log and the index. */
  function Evicted(q: Queue, cutoff: int): Queue
    requires Known(q.index, q.log)
  {
    q.(log := KeptOf(q, q.log, cutoff), index := EvictedIndex(q, q.log, cutoff))
  }

  function EvictedIndex(q: Queue, ids: seq<string>, cutoff: int): map<string, Job> {
    map k | k in q.index && !(k in ids && Evictable(q, k, cutoff)) :: q.index[k]
  }

  // ----- the sweeps, entry by entry -----

  lemma LateMore(index: map<string, Job>, ids: seq<string>, now: int, i: nat)
    requires Known(index, ids) && i < |ids|
    ensures var late := LateOf(index, ids[..i], now);
            LateOf(index, ids[..i + 1], now) == if Expired(index[ids[i]], now) then late + [ids[i]] else late
    ensures var timely := TimelyOf(index, ids[..i], now);
            TimelyOf(index, ids[..i + 1], now) == if Expired(index[ids[i]], now) then timely else timely + [ids[i]]
  {
    assert ids[..i + 1][..i] == ids[..i];
  }

  lemma NotYetStuck(index: map<string, Job>, ids: seq<string>, now: int, i: nat)
    requires Known(index, ids) && Distinct(ids) && i < |ids|
    ensures var stuck, id := StuckOf(index, ids[..i], now), ids[i];
            && RequeuedAll(index, stuck)[id] == index[id]
            && RequeuedAll(index, stuck + [id]) == RequeuedAll(index, stuck)[id := Requeued(index[id])]
  {
    var stuck, id := StuckOf(index, ids[..i], now), ids[i];
    StuckHas(index, ids[..i], now, id);
    forall k ensures k in stuck + [id] <==> k in stuck || k == id {
    }
  }

  lemma {:induction false} StuckSame(index: map<string, Job>, index': map<string, Job>, ids: seq<string>, now: int)
    requires Known(index, ids) && Known(index', ids)
    requires forall k :: k in index && k in index' ==> index'[k].processStarted == index[k].processStarted
    ensures StuckOf(index', ids, now) == StuckOf(index, ids, now) && FreeOf(index', ids, now) == FreeOf(index, ids, now)
  {
    if ids != [] { StuckSame(index, index', ids[..|ids| - 1], now); }
  }

  /** The first i jobs in processing have been looked at, and the stuck ones are taken back. */
  ghost predicate StuckAt(index: map<string, Job>, ids: seq<string>, now: int, i: nat, r: map<string, Job>,
      stuck: seq<string>, free: seq<string>)
    requires Known(index, ids) && i <= |ids|
  {
    && stuck == StuckOf(index, ids[..i], now) && free == FreeOf(index, ids[..i], now)
    && r == RequeuedAll(index, stuck)
  }

  lemma StuckNext(index: map<string, Job>, ids: seq<string>, now: int, i: nat, r: map<string, Job>,
      stuck: seq<string>, free: seq<string>)
    requires Known(index, ids) && Distinct(ids) && i < |ids| && StuckAt(index, ids, now, i, r, stuck, free)
    ensures ids[i] in r
    ensures if Stuck(r[ids[i]], now)
            then StuckAt(index, ids, now, i + 1, r[ids[i] := Requeued(r[ids[i]])], stuck + [ids[i]], free)
            else StuckAt(index, ids, now, i + 1, r, stuck, free + [ids[i]])
  {
    assert ids[..i + 1][..i] == ids[..i];
    NotYetStuck(index, ids, now, i);
  }

  lemma StuckEnds(index: map<string, Job>, ids: seq<string>, now: int, r: map<string, Job>, stuck: seq<string>,
      free: seq<string>)
    requires Known(index, ids)
    ensures StuckAt(index, ids, now, 0, index, [], [])
    ensures StuckAt(index, ids, now, |ids|, r, stuck, free) ==>
              stuck == StuckOf(index, ids, now) && free == FreeOf(index, ids, now) && r == RequeuedAll(index, stuck)
  {
    assert ids[..|ids|] == ids;
  }

  /** Dead-lettering expired jobs makes none stuck. */
  lemma LateStuck(q: Queue, now: int)
    requires Known(q.index, q.pending) && Known(q.index, q.processing)
    ensures Known(q.index, LateOf(q.index, q.pending, now))
    ensures var d := DeadAll(q, LateOf(q.index, q.pending, now));
            && d.processing == q.processing && d.pending == q.pending && d.index.Keys == q.index.Keys
            && StuckOf(d.index, q.processing, now) == StuckOf(q.index, q.processing, now)
            && FreeOf(d.index, q.processing, now) == FreeOf(q.index, q.processing, now)
  {
    LateKnown(q.index, q.pending, now);
    DeadAllKeeps(q, LateOf(q.index, q.pending, now));
    StuckSame(q.index, DeadAll(q, LateOf(q.index, q.pending, now)).index, q.processing, now);
  }

  /** The parts of a sweep put together. */
  lemma SweptParts(q: Queue, now: int, timely: seq<string>, stuck: seq<string>, r: Queue)
    requires Known(q.index, q.pending) && Known(q.index, q.processing)
    requires timely == TimelyOf(q.index, q.pending, now) && stuck == StuckOf(q.index, q.processing, now)
    requires Known(q.index, LateOf(q.index, q.pending, now))
    requires var d := DeadAll(q, LateOf(q.index, q.pending, now));
             r ==
               d.(index := RequeuedAll(d.index, stuck), pending := timely + stuck,
                  processing := FreeOf(q.index, q.processing, now))
    ensures Known(r.index, r.pending) && Swept(q, now) == r.(pending := SortIds(r.index, r.pending))
  {
    SweptKnown(q.index, q.pending, q.processing, now, r.index);
  }

  lemma NotYetEvicted(q: Queue, i: nat, cutoff: int)
    requires Known(q.index, q.log) && Distinct(q.log) && i < |q.log|
    ensures var now, id := EvictedIndex(q, q.log[..i], cutoff), q.log[i];
            && id in now && now[id] == q.index[id]
            && EvictedIndex(q, q.log[..i + 1], cutoff) == if Evictable(q, id, cutoff) then now - {id} else now
  {
    assert q.log[..i + 1] == q.log[..i] + [q.log[i]];
  }

  /** The first i entries of the log have been looked at. */
  ghost predicate EvictedTo(q: Queue, i: nat, cutoff: int, kept: seq<string>, index: map<string, Job>) {
    && Known(q.index, q.log) && i <= |q.log| && Known(q.index, q.log[..i])
    && kept == KeptOf(q, q.log[..i], cutoff) && index == EvictedIndex(q, q.log[..i], cutoff)
  }

  lemma EvictNext(q: Queue, i: nat, cutoff: int, kept: seq<string>, index: map<string, Job>)
    requires EvictedTo(q, i, cutoff, kept, index) && i < |q.log| && Distinct(q.log)
    ensures q.log[i] in index && LogRecord(q.(index := index), q.log[i]) == LogRecord(q, q.log[i])
    ensures if Evictable(q, q.log[i], cutoff) then EvictedTo(q, i + 1, cutoff, kept, index - {q.log[i]})
            else EvictedTo(q, i + 1, cutoff, kept + [q.log[i]], index)
  {
    NotYetEvicted(q, i, cutoff);
    assert q.log[..i + 1][..i] == q.log[..i];
  }

  lemma EvictEnds(q: Queue, cutoff: int)
    requires Known(q.index, q.log)
    ensures EvictedTo(q, 0, cutoff, [], q.index)
    ensures forall kept, index :: EvictedTo(q, |q.log|, cutoff, kept, index) ==>
              q.(log := kept, index := index) == Evicted(q, cutoff)
  {
    assert q.log[..|q.log|] == q.log;
    assert EvictedIndex(q, [], cutoff) == q.index;
  }

  function CleanedUp(q: Queue, now: int, maxAge: int): Queue
    requires Known(q.index, q.pending) && Known(q.index, q.processing) && Known(q.index, q.log)
  {
    SweptKeepsKeys(q, now);
    Aged(Swept(q, now), now, maxAge)
  }

  function Aged(q: Queue, now: int, maxAge: int): Queue
    requires Known(q.index, q.log)
  {
    if maxAge > 0 then Evicted(q, now - maxAge) else q
  }

  lemma CleanedIs(q: Queue, now: int, maxAge: int, s: Queue)
    requires Known(q.index, q.pending) && Known(q.index, q.processing) && Known(q.index, q.log) && s == Swept(q, now)
    ensures s.log == q.log && Known(s.index, s.log)
    ensures CleanedUp(q, now, maxAge) == if maxAge > 0 then Evicted(s, now - maxAge) else s
  {
    SweptKeepsKeys(q, now);
  }

  lemma SweptKeepsKeys(q: Queue, now: int)
    requires Known(q.index, q.pending) && Known(q.index, q.processing)
    ensures Swept(q, now).index.Keys == q.index.Keys && Swept(q, now).log == q.log
          && Swept(q, now).superseded == q.superseded
  {
    LateKnown(q.index, q.pending, now);
    DeadAllKeeps(q, LateOf(q.index, q.pending, now));
  }

  // ----- what cleanup comes to -----

  /** A job is late when it has a deadline and that has passed, and timed out when it was started more than
      five minutes ago. */
  lemma {:induction false} SweptLists(q: Queue, now: int, id: string)
    requires Known(q.index, q.pending) && Known(q.index, q.processing) && id in q.index
    ensures var late := id in q.pending && q.index[id].deadlineAt > 0 && now > q.index[id].deadlineAt;
            var timedOut := id in q.processing && q.index[id].processStarted > 0
                            && now - q.index[id].processStarted > 300_000;
            && (id in Swept(q, now).pending <==> (id in q.pending && !late) || timedOut)
            && (id in Swept(q, now).processing <==> id in q.processing && !timedOut)
  {
    LateHas(q.index, q.pending, now, id);
    StuckHas(q.index, q.processing, now, id);
    LateKnown(q.index, q.pending, now);
    var index := Swept(q, now).index;
    SweptKeepsKeys(q, now);
    SweptKnown(q.index, q.pending, q.processing, now, index);
    SortIdsHas(index, TimelyOf(q.index, q.pending, now) + StuckOf(q.index, q.processing, now), id);
  }

  /** A late job is marked so, and one that has timed out is pending again and no worker's. */
  lemma SweptRecord(q: Queue, now: int, id: string)
    requires Known(q.index, q.pending) && Known(q.index, q.processing) && id in q.index
    ensures id in Swept(q, now).index
    ensures var was, job := q.index[id], Swept(q, now).index[id];
            var late := id in q.pending && was.deadlineAt > 0 && now > was.deadlineAt;
            var timedOut := id in q.processing && was.processStarted > 0 && now - was.processStarted > 300_000;
            job == was.(error := if late then "deadline exceeded" else was.error,
                        status := if timedOut then Pending else was.status,
                        processedBy := if timedOut then "" else was.processedBy)
  {
    LateHas(q.index, q.pending, now, id);
    StuckHas(q.index, q.processing, now, id);
    LateKnown(q.index, q.pending, now);
    DeadAllErrors(q, LateOf(q.index, q.pending, now), id);
  }

  /** The dead letters are the 10,000 latest of the old ones and the late jobs. */
  lemma SweptDead(q: Queue, now: int, maxAge: int)
    requires Known(q.index, q.pending) && Known(q.index, q.processing) && Known(q.index, q.log) && |q.dead| <= 10_000
    ensures var all := q.dead + LateOf(q.index, q.pending, now);
            CleanedUp(q, now, maxAge).dead == if |all| > 10_000 then all[|all| - 10_000..] else all
  {
    LateKnown(q.index, q.pending, now);
    DeadAllDead(q, LateOf(q.index, q.pending, now));
    CleanedIs(q, now, maxAge, Swept(q, now));
  }

  lemma SweptOrdered(q: Queue, now: int)
    requires Known(q.index, q.pending) && Known(q.index, q.processing)
    ensures Known(Swept(q, now).index, Swept(q, now).pending) && Ordered(Swept(q, now).index, Swept(q, now).pending)
  {
    LateKnown(q.index, q.pending, now);
    var index := Swept(q, now).index;
    SweptKeepsKeys(q, now);
    SweptKnown(q.index, q.pending, q.processing, now, index);
    SortIdsSorts(index, TimelyOf(q.index, q.pending, now) + StuckOf(q.index, q.processing, now));
  }

  /** Eviction removes exactly the jobs that the log has as completed, failed or cancelled and last updated longer
      ago than the age allows. */
  lemma AgedMeaning(q: Queue, now: int, maxAge: int, id: string)
    requires Known(q.index, q.log) && id in q.index
    ensures var r := Aged(q, now, maxAge);
            var logged := if id in q.superseded then q.superseded[id] else q.index[id];
            var aged := maxAge > 0 && logged.updatedAt < now - maxAge
                        && (logged.status == Completed || logged.status == Failed || logged.status == Cancelled);
            && r.pending == q.pending && r.processing == q.processing
            && (id in r.log <==> id in q.log && !aged) && (id in r.index <==> !(id in q.log && aged))
            && (id in r.index ==> r.index[id] == q.index[id])
  {
    if maxAge > 0 { KeptHas(q, q.log, now - maxAge, id); }
  }

  /** What a cleanup does to a job in the lists: it is late when its deadline has passed, and has timed out when it
      was started more than five minutes ago. */
  lemma CleanedLists(q: Queue, now: int, maxAge: int, id: string)
    requires Known(q.index, q.pending) && Known(q.index, q.processing) && Known(q.index, q.log) && id in q.index
    ensures var r, was := CleanedUp(q, now, maxAge), q.index[id];
            var late := id in q.pending && was.deadlineAt > 0 && now > was.deadlineAt;
            var timedOut := id in q.processing && was.processStarted > 0 && now - was.processStarted > 300_000;
            && (id in r.pending <==> (id in q.pending && !late) || timedOut)
            && (id in r.processing <==> id in q.processing && !timedOut)
  {
    SweptLists(q, now, id);
    SweptKeepsKeys(q, now);
    AgedMeaning(Swept(q, now), now, maxAge, id);
  }

  /** And to its record, which goes when the log's record of it is finished and too old. */
  lemma CleanedRecord(q: Queue, now: int, maxAge: int, id: string)
    requires Known(q.index, q.pending) && Known(q.index, q.processing) && Known(q.index, q.log) && id in q.index
    ensures var r, was := CleanedUp(q, now, maxAge), q.index[id];
            var late := id in q.pending && was.deadlineAt > 0 && now > was.deadlineAt;
            var timedOut := id in q.processing && was.processStarted > 0 && now - was.processStarted > 300_000;
            var job := was.(error := if late then "deadline exceeded" else was.error,
                            status := if timedOut then Pending else was.status,
                            processedBy := if timedOut then "" else was.processedBy);
            var logged := if id in q.superseded then q.superseded[id] else job;
            var aged := maxAge > 0 && logged.updatedAt < now - maxAge
                        && (logged.status == Completed || logged.status == Failed || logged.status == Cancelled);
            && (id in r.log <==> id in q.log && !aged) && (id in r.index <==> !(id in q.log && aged))
            && (id in r.index ==> r.index[id] == job)
  {
    SweptRecord(q, now, id);
    SweptKeepsKeys(q, now);
    AgedMeaning(Swept(q, now), now, maxAge, id);
  }

  /** The pending jobs that are left are in order. */
  lemma CleanedOrdered(q: Queue, now: int, maxAge: int)
    requires Known(q.index, q.pending) && Known(q.index, q.processing) && Known(q.index, q.log)
    ensures var r := CleanedUp(q, now, maxAge);
            forall i, j :: 0 <= i < j < |r.pending| && r.pending[i] in r.index && r.pending[j] in r.index ==>
              var a, b := r.index[r.pending[i]], r.index[r.pending[j]];
              b.priority < a.priority || (b.priority == a.priority && a.timestamp <= b.timestamp)
  {
    SweptOrdered(q, now);
    SweptKeepsKeys(q, now);
  }

  // ----- what cleanup keeps -----

  lemma SweptPending(q: Queue, now: int, index: map<string, Job>)
    requires Listed(q) && index.Keys == q.index.Keys
    requires forall k :: k in index ==>
               index[k].status == if k in StuckOf(q.index, q.processing, now) then Pending else q.index[k].status
    ensures var ids := TimelyOf(q.index, q.pending, now) + StuckOf(q.index, q.processing, now);
            Known(index, ids) && PendingListed(index, SortIds(index, ids))
  {
    var ids := TimelyOf(q.index, q.pending, now) + StuckOf(q.index, q.processing, now);
    SweptKnown(q.index, q.pending, q.processing, now, index);
    SweptApart(q, now);
    forall x | x in ids ensures index[x].status == Pending {
      LateHas(q.index, q.pending, now, x);
      StuckHas(q.index, q.processing, now, x);
    }
    SortedListed(index, ids);
  }

  lemma SweptApart(q: Queue, now: int)
    requires Listed(q)
    ensures Distinct(TimelyOf(q.index, q.pending, now) + StuckOf(q.index, q.processing, now))
  {
    var timely, stuck := TimelyOf(q.index, q.pending, now), StuckOf(q.index, q.processing, now);
    FiltersDistinct(q.index, q.pending, now);
    FiltersDistinct(q.index, q.processing, now);
    forall x | x in timely ensures x !in stuck {
      LateHas(q.index, q.pending, now, x);
      StuckHas(q.index, q.processing, now, x);
    }
    DistinctConcat(timely, stuck);
  }

  lemma SortedListed(index: map<string, Job>, ids: seq<string>)
    requires Known(index, ids) && Distinct(ids) && forall x :: x in ids ==> index[x].status == Pending
    ensures PendingListed(index, SortIds(index, ids))
  {
    SortIdsSorts(index, ids);
    forall x | x in SortIds(index, ids) ensures x in index && index[x].status == Pending { SortIdsHas(index, ids, x); }
  }

  lemma SweptProcessing(q: Queue, now: int, index: map<string, Job>)
    requires Listed(q) && index.Keys == q.index.Keys
    requires forall k :: k in index ==>
               index[k].status == if k in StuckOf(q.index, q.processing, now) then Pending else q.index[k].status
    ensures ProcessingListed(index, FreeOf(q.index, q.processing, now))
  {
    FiltersDistinct(q.index, q.processing, now);
    forall x ensures x in FreeOf(q.index, q.processing, now) <==> x in q.processing && !Stuck(q.index[x], now)
             ensures x in StuckOf(q.index, q.processing, now) <==> x in q.processing && Stuck(q.index[x], now)
    {
      StuckHas(q.index, q.processing, now, x);
    }
  }

  /** Neither expiry nor the timeout upsets the lists. */
  lemma SweptListed(q: Queue, now: int)
    requires Listed(q)
    ensures Listed(Swept(q, now))
  {
    LateKnown(q.index, q.pending, now);
    DeadAllKeeps(q, LateOf(q.index, q.pending, now));
    var d := DeadAll(q, LateOf(q.index, q.pending, now));
    var index := RequeuedAll(d.index, StuckOf(q.index, q.processing, now));
    forall k | k in index
      ensures index[k].status == (if k in StuckOf(q.index, q.processing, now) then Pending else q.index[k].status)
    {
      assert SameForLists(d.index[k], q.index[k]);
    }
    SweptPending(q, now, index);
    SweptProcessing(q, now, index);
  }

  lemma {:induction false} KeptHas(q: Queue, ids: seq<string>, cutoff: int, x: string)
    requires Known(q.index, ids)
    ensures x in KeptOf(q, ids, cutoff) <==> x in ids && !Evictable(q, x, cutoff)
  {
    if ids != [] {
      KeptHas(q, ids[..|ids| - 1], cutoff, x);
      assert ids == ids[..|ids| - 1] + [ids[|ids| - 1]];
    }
  }

  /** The log that is left keeps its order. */
  lemma {:induction false} KeptConcat(q: Queue, a: seq<string>, b: seq<string>, cutoff: int)
    requires Known(q.index, a) && Known(q.index, b) && Known(q.index, a + b)
    ensures KeptOf(q, a + b, cutoff) == KeptOf(q, a, cutoff) + KeptOf(q, b, cutoff)
    decreases |b|
  {
    if b == [] {
      assert a + b == a;
    } else {
      FrontOfBoth(a, b);
      KeptConcat(q, a, b[..|b| - 1], cutoff);
    }
  }

  lemma KeptOne(q: Queue, id: string, cutoff: int)
    requires id in q.index
    ensures var job := if id in q.superseded then q.superseded[id] else q.index[id];
            KeptOf(q, [id], cutoff) ==
              if job.updatedAt < cutoff
                 && (job.status == Completed || job.status == Failed || job.status == Cancelled) then [] else [id]
  {
    assert [id][..0] == [];
    assert KeptOf(q, [], cutoff) == [];
  }

  lemma {:induction false} KeptDistinct(q: Queue, ids: seq<string>, cutoff: int)
    requires Known(q.index, ids) && Distinct(ids)
    ensures Distinct(KeptOf(q, ids, cutoff))
  {
    if ids != [] {
      var front, last := ids[..|ids| - 1], ids[|ids| - 1];
      KeptDistinct(q, front, cutoff);
      KeptHas(q, front, cutoff, last);
      assert forall i :: 0 <= i < |front| ==> front[i] == ids[i] != last;
    }
  }

  /** Eviction keeps the lists right exactly when the log's record of no active job is finished and old; it
      decides by the log's record, which a merge may have superseded. */
  lemma EvictedListedIff(q: Queue, cutoff: int)
    requires Listed(q) && Known(q.index, q.log)
    ensures Listed(Evicted(q, cutoff)) <==>
            forall id :: id in q.log && (id in q.pending || id in q.processing) ==> !Evictable(q, id, cutoff)
  {
    var r := Evicted(q, cutoff);
    if forall id :: id in q.log && (id in q.pending || id in q.processing) ==> !Evictable(q, id, cutoff) {
      PendingStays(q.index, r.index, q.pending);
    } else {
      var id :| id in q.log && (id in q.pending || id in q.processing) && Evictable(q, id, cutoff);
      assert id !in r.index;
    }
  }

  lemma SweptOwn(q: Queue, now: int)
    requires Known(q.index, q.pending) && Known(q.index, q.processing) && Own(q)
    ensures Own(Swept(q, now))
  {
    LateKnown(q.index, q.pending, now);
    DeadAllKeeps(q, LateOf(q.index, q.pending, now));
    SweptKeepsKeys(q, now);
    var s := Swept(q, now);
    forall id | id in s.index ensures s.index[id].timestamp <= s.lamport && IsJobId(id, s.index[id].timestamp) {
      assert s.index[id].timestamp == q.index[id].timestamp;
    }
  }

  lemma SweptSound(q: Queue, now: int)
    requires Sound(q)
    ensures Sound(Swept(q, now))
  {
    SweptListed(q, now);
    SweptKeepsKeys(q, now);
    SweptOwn(q, now);
    SameNamesSound(q, Swept(q, now));
  }

  lemma SameNamesSound(q: Queue, r: Queue)
    requires Sound(q) && Listed(r) && Own(r)
    requires r.log == q.log && r.index.Keys == q.index.Keys && r.superseded == q.superseded
    ensures Sound(r)
  {
  }

  lemma LogKnown(q: Queue)
    requires Logged(q)
    ensures Known(q.index, q.log)
  {
    assert forall i :: 0 <= i < |q.log| ==> q.log[i] in q.log;
  }

  lemma EvictedLogged(q: Queue, cutoff: int)
    requires Logged(q) && Known(q.index, q.log)
    ensures Logged(Evicted(q, cutoff))
  {
    KeptDistinct(q, q.log, cutoff);
    forall x ensures x in KeptOf(q, q.log, cutoff) <==> x in q.log && !Evictable(q, x, cutoff) {
      KeptHas(q, q.log, cutoff, x);
    }
  }

  lemma AgedLogged(q: Queue, now: int, maxAge: int)
    requires Logged(q) && Known(q.index, q.log)
    ensures Logged(Aged(q, now, maxAge))
  {
    if maxAge > 0 { EvictedLogged(q, now - maxAge); }
  }

  lemma AgedListed(q: Queue, now: int, maxAge: int)
    requires Listed(q) && Known(q.index, q.log) && q.superseded == map[]
    ensures Listed(Aged(q, now, maxAge))
  {
    if maxAge > 0 { EvictedListedIff(q, now - maxAge); }
  }

  lemma AgedSound(q: Queue, now: int, maxAge: int)
    requires Sound(q)
    ensures Known(q.index, q.log) && Sound(Aged(q, now, maxAge))
  {
    LogKnown(q);
    AgedListed(q, now, maxAge);
    AgedLogged(q, now, maxAge);
  }

  /** Without merges no record is superseded, and cleanup keeps everything. */
  lemma CleanupSound(q: Queue, now: int, maxAge: int)
    requires Sound(q)
    ensures Known(q.index, q.log) && Sound(CleanedUp(q, now, maxAge))
  {
    LogKnown(q);
    SweptSound(q, now);
    AgedSound(Swept(q, now), now, maxAge);
    CleanedIs(q, now, maxAge, Swept(q, now));
  }
}
