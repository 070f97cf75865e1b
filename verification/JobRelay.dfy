/** What a node tells its peers of a job once a merge has superseded the log's record of it. */
module JobRelay {
  import opened Jobs
  import opened JobUpkeep
  import opened JobMerge
  import FreeRuns
  import JobRuns

  type Settings = JobRuns.Settings

  datatype Step = Local(op: JobRuns.Op) | Merge(peers: seq<Job>)

  /** What a step needs: every listed and logged job is known, a new job's identifier is not in use, and a cleanup does
      not evict the job under consideration. */
  ghost predicate Possible(s: Settings, q: Queue, step: Step, id: string) {
    && Known(q.index, q.pending) && Known(q.index, q.processing) && Known(q.index, q.log)
    && match step
       case Merge(_) => true
       case Local(op) =>
         && (op.Enqueue? ==> JobRuns.JobOf(s, q, op).id !in q.index)
         && (op.CleanUp? ==> id in CleanedUp(q, op.now, s.maxAge).index)
  }

  ghost function Effect(s: Settings, q: Queue, step: Step, id: string): Queue
    requires Possible(s, q, step, id)
  {
    match step
    case Merge(peers) => Merged(q, peers)
    case Local(op) =>
      match op
      case Enqueue(_, _, _, _, _, _) => Enqueued(q, JobRuns.JobOf(s, q, op))
      case Claim(worker, now) => FreeRuns.ClaimIn(q, worker, now, s.node).1
      case Complete(x, result, now) => MarkedComplete(q, x, result, now, s.node)
      case Fail(x, error, now, retryAt) => MarkedFailed(q, x, error, now, retryAt, s.node)
      case CleanUp(now) => CleanedUp(q, now, s.maxAge)
  }

  ghost function After(s: Settings, q: Queue, steps: seq<Step>, id: string): Queue
    decreases |steps|
  {
    if steps == [] then q
    else
      var before, step := After(s, q, steps[..|steps| - 1], id), steps[|steps| - 1];
      if Possible(s, before, step, id) then Effect(s, before, step, id) else before
  }

  /** The job is still known, under a log record that a merge has superseded. */
  ghost predicate Superseded(q: Queue, id: string, record: Job) {
    id in q.index && id in q.superseded && q.superseded[id] == record
  }

  lemma CleanedUpStays(s: Settings, q: Queue, now: int, id: string, record: Job)
    requires Known(q.index, q.pending) && Known(q.index, q.processing) && Known(q.index, q.log)
    requires Superseded(q, id, record) && id in CleanedUp(q, now, s.maxAge).index
    ensures Superseded(CleanedUp(q, now, s.maxAge), id, record)
  {
    SweptKeepsKeys(q, now);
  }

  lemma StepStays(s: Settings, q: Queue, step: Step, id: string, record: Job)
    requires Possible(s, q, step, id) && Superseded(q, id, record)
    ensures Superseded(Effect(s, q, step, id), id, record)
  {
    match step
    case Merge(peers) =>
      MergedAllKnown(q, peers);
      SupersededStays(q, peers, id, record);
    case Local(op) =>
      match op
      case Enqueue(_, _, _, _, _, _) =>
      case Claim(worker, now) => FreeRuns.ScanDoes(q, q.pending, |q.pending|, 0, worker, now, s.node);
      case Complete(_, _, _) =>
      case Fail(_, _, _, _) =>
      case CleanUp(now) => CleanedUpStays(s, q, now, id, record);
  }

  lemma {:induction false} SupersededStays(q: Queue, peers: seq<Job>, id: string, record: Job)
    requires Superseded(q, id, record)
    ensures Superseded(MergedAll(q, peers), id, record)
    decreases |peers|
  {
    if peers != [] { SupersededStays(q, peers[..|peers| - 1], id, record); }
  }

  /** Once superseded in the log, a job is sent as the log has it for as long as no cleanup evicts it: through claims,
      completions, failures, sweeps, later merges and all that is done to other jobs. */
  lemma SentAsItWas(s: Settings, q: Queue, steps: seq<Step>, id: string)
    requires id in q.index && id in q.superseded
    ensures var r := After(s, q, steps, id);
            && id in r.index && LogRecord(r, id) == LogRecord(q, id)
            && (Known(r.index, r.log) ==>
                  forall k :: 0 <= k < |r.log| && r.log[k] == id ==> Passed(r)[k] == LogRecord(q, id))
  {
    Stays(s, q, steps, id);
  }

  lemma {:induction false} Stays(s: Settings, q: Queue, steps: seq<Step>, id: string)
    requires id in q.index && id in q.superseded
    ensures Superseded(After(s, q, steps, id), id, q.superseded[id])
    decreases |steps|
  {
    if steps != [] {
      var front := steps[..|steps| - 1];
      Stays(s, q, front, id);
      var before, step := After(s, q, front, id), steps[|steps| - 1];
      if Possible(s, before, step, id) { StepStays(s, before, step, id, q.superseded[id]); }
    }
  }

  /** A node that adopts a newer version of a job it had logged goes on sending the version from before that merge,
      whatever the peers and it itself make of the job. */
  lemma OldVersionSent(s: Settings, q: Queue, peers: seq<Job>, steps: seq<Step>, id: string)
    requires Known(q.index, q.pending) && id in q.index && id !in q.superseded && !NoneNewer(peers, id, q.index[id])
    ensures var r := After(s, Merged(q, peers), steps, id);
            && id in r.index && LogRecord(r, id) == q.index[id]
            && (Known(r.index, r.log) ==>
                  forall k :: 0 <= k < |r.log| && r.log[k] == id ==> Passed(r)[k] == q.index[id])
  {
    MergedAllKnown(q, peers);
    LogRecordStays(q, peers, id);
    LogCurrentIff(q, peers, id);
    SentAsItWas(s, Merged(q, peers), steps, id);
  }
}
