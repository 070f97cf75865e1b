/** Merging a peer's jobs: the newest version of each job by (updatedAt, node), filed where its status demands. */
module JobMerge {
  import opened Wrappers
  import opened Order
  import opened Jobs
  import opened JobUpkeep

  predicate Newer(peer: Job, local: Job) {
    VersionLess(local.updatedAt, local.node, peer.updatedAt, peer.node)
  }

  function Filed(s: seq<string>, id: string, file: bool): seq<string> {
    if file then s + [id] else s
  }

  /** A job that is unknown here is logged too; otherwise the log keeps the record it has. */
  function Adopted(q: Queue, peer: Job): Queue {
    var id := peer.id;
    if id in q.index then
      Queue(q.log, q.index[id := peer], Filed(RemoveFirst(q.pending, id), id, peer.status == Pending),
            Filed(RemoveFirst(q.processing, id), id, peer.status == Processing), q.dead, q.lamport,
            if id in q.superseded then q.superseded else q.superseded[id := q.index[id]])
    else
      Queue(q.log + [id], q.index[id := peer], Filed(q.pending, id, peer.status == Pending),
            Filed(q.processing, id, peer.status == Processing), q.dead, q.lamport, q.superseded - {id})
  }

  function MergedOne(q: Queue, peer: Job): Queue {
    if peer.id in q.index && !Newer(peer, q.index[peer.id]) then q else Adopted(q, peer)
  }

  function MergedAll(q: Queue, peers: seq<Job>): Queue
    decreases |peers|
  {
    if peers == [] then q else MergedOne(MergedAll(q, peers[..|peers| - 1]), peers[|peers| - 1])
  }

  /** The lists as Listed asks for them, but for the order of the pending list. */
  ghost predicate InLists(q: Queue) {
    && Distinct(q.pending) && (forall id :: id in q.pending ==> id in q.index && q.index[id].status == Pending)
    && ProcessingListed(q.index, q.processing) && Named(q.index)
  }

  lemma InListsKnown(q: Queue)
    requires InLists(q)
    ensures Known(q.index, q.pending)
  {
    assert forall i :: 0 <= i < |q.pending| ==> q.pending[i] in q.pending;
  }

  lemma {:induction false} RemoveFirstIn(s: seq<string>, id: string, x: string)
    requires x in RemoveFirst(s, id)
    ensures x in s
  {
    if s != [] && s[0] != id && x != s[0] { RemoveFirstIn(s[1..], id, x); }
  }

  lemma {:induction false} MergedAllKnown(q: Queue, peers: seq<Job>)
    requires Known(q.index, q.pending)
    ensures Known(MergedAll(q, peers).index, MergedAll(q, peers).pending)
    decreases |peers|
  {
    if peers != [] {
      MergedAllKnown(q, peers[..|peers| - 1]);
      AdoptedKnown(MergedAll(q, peers[..|peers| - 1]), peers[|peers| - 1]);
    }
  }

  lemma AdoptedKnown(q: Queue, peer: Job)
    requires Known(q.index, q.pending)
    ensures Known(Adopted(q, peer).index, Adopted(q, peer).pending)
  {
    var r := Adopted(q, peer);
    forall i | 0 <= i < |r.pending| ensures r.pending[i] in r.index {
      var x := r.pending[i];
      if x != peer.id {
        if peer.id in q.index && x in RemoveFirst(q.pending, peer.id) { RemoveFirstIn(q.pending, peer.id, x); }
        assert x in q.pending;
      }
    }
  }

  ghost function Merged(q: Queue, peers: seq<Job>): Queue
    requires Known(q.index, q.pending)
  {
    MergedAllKnown(q, peers);
    var m := MergedAll(q, peers);
    m.(pending := SortIds(m.index, m.pending))
  }

  lemma FiledHas(s: seq<string>, id: string, file: bool)
    requires Distinct(s) && id !in s
    ensures Distinct(Filed(s, id, file)) && forall x :: x in Filed(s, id, file) <==> x in s || (file && x == id)
  {
  }

  /** Out of both lists, and then into the one the status demands. */
  lemma RefiledHas(s: seq<string>, id: string, file: bool)
    requires Distinct(s)
    ensures Distinct(Filed(RemoveFirst(s, id), id, file))
    ensures forall x :: x in Filed(RemoveFirst(s, id), id, file) <==> (if x == id then file else x in s)
  {
    RemoveFirstDistinct(s, id);
    forall x ensures x in RemoveFirst(s, id) <==> x in s && x != id { RemoveFirstHas(s, id, x); }
    FiledHas(RemoveFirst(s, id), id, file);
  }

  lemma AdoptedFiles(q: Queue, peer: Job)
    requires InLists(q)
    ensures var r := Adopted(q, peer);
            && Distinct(r.pending) && Distinct(r.processing)
            && (forall x :: x in r.pending <==> if x == peer.id then peer.status == Pending else x in q.pending)
            && (forall x :: x in r.processing <==>
                  if x == peer.id then peer.status == Processing else x in q.processing)
  {
    if peer.id in q.index {
      RefiledHas(q.pending, peer.id, peer.status == Pending);
      RefiledHas(q.processing, peer.id, peer.status == Processing);
    } else {
      FiledHas(q.pending, peer.id, peer.status == Pending);
      FiledHas(q.processing, peer.id, peer.status == Processing);
    }
  }

  lemma AdoptedInLists(q: Queue, peer: Job)
    requires InLists(q)
    ensures InLists(Adopted(q, peer))
  {
    AdoptedFiles(q, peer);
    var r := Adopted(q, peer);
    assert r.index == q.index[peer.id := peer];
  }

  lemma {:induction false} MergedAllInLists(q: Queue, peers: seq<Job>)
    requires InLists(q)
    ensures InLists(MergedAll(q, peers))
    decreases |peers|
  {
    if peers != [] {
      MergedAllInLists(q, peers[..|peers| - 1]);
      AdoptedInLists(MergedAll(q, peers[..|peers| - 1]), peers[|peers| - 1]);
    }
  }

  /** A merge keeps the lists right, whatever the peer sent. */
  lemma MergeListed(q: Queue, peers: seq<Job>)
    requires InLists(q)
    ensures Known(q.index, q.pending) && Listed(Merged(q, peers))
  {
    InListsKnown(q);
    MergedAllInLists(q, peers);
    var m := MergedAll(q, peers);
    InListsKnown(m);
    SortIdsSorts(m.index, m.pending);
    forall x ensures x in SortIds(m.index, m.pending) <==> x in m.pending { SortIdsHas(m.index, m.pending, x); }
  }

  // ----- which version is adopted -----

  ghost predicate Offered(peers: seq<Job>, job: Job) {
    exists k :: 0 <= k < |peers| && peers[k] == job
  }

  ghost predicate OffersId(peers: seq<Job>, id: string) {
    exists k :: 0 <= k < |peers| && peers[k].id == id
  }

  ghost predicate NoneNewer(peers: seq<Job>, id: string, job: Job) {
    forall k :: 0 <= k < |peers| && peers[k].id == id ==> !Newer(peers[k], job)
  }

  /** The record of an identifier after a merge: one of the local and the peer's records, and none of them is newer. */
  ghost predicate IsNewest(q: Queue, peers: seq<Job>, id: string, job: Job) {
    && ((id in q.index && job == q.index[id]) || (job.id == id && Offered(peers, job)))
    && (id in q.index ==> !Newer(q.index[id], job))
    && NoneNewer(peers, id, job)
  }

  lemma NewerOrder(a: Job, b: Job, c: Job)
    ensures !Newer(a, a)
    ensures !Newer(b, a) && Newer(c, a) ==> !Newer(b, c)
    ensures !Newer(a, b) || !Newer(b, a)
  {
    VersionTotal(a.updatedAt, a.node, a.updatedAt, a.node);
    VersionTotal(a.updatedAt, a.node, b.updatedAt, b.node);
    VersionTotal(b.updatedAt, b.node, c.updatedAt, c.node);
    if Newer(c, a) && Newer(b, c) {
      VersionTransitive(a.updatedAt, a.node, c.updatedAt, c.node, b.updatedAt, b.node);
    }
  }

  /** Of all the records of a job, offered and local, the one held after a merge has the latest time of update, and
      at that time the greatest node. */
  lemma NewestMeaning(q: Queue, peers: seq<Job>, id: string)
    requires Known(q.index, q.pending) && id in Merged(q, peers).index
    ensures var job := Merged(q, peers).index[id];
            && ((id in q.index && job == q.index[id])
                || exists k :: 0 <= k < |peers| && peers[k] == job && peers[k].id == id)
            && (id in q.index ==>
                  || q.index[id].updatedAt < job.updatedAt
                  || (q.index[id].updatedAt == job.updatedAt && !LexLess(job.node, q.index[id].node)))
            && forall k :: 0 <= k < |peers| && peers[k].id == id ==>
                 || peers[k].updatedAt < job.updatedAt
                 || (peers[k].updatedAt == job.updatedAt && !LexLess(job.node, peers[k].node))
  {
    MergeAdoptsNewest(q, peers, id);
    var job := Merged(q, peers).index[id];
    forall k | 0 <= k < |peers| && peers[k].id == id ensures !Newer(peers[k], job) {
      assert NoneNewer(peers, id, job);
    }
  }

  lemma OfferedMore(peers: seq<Job>, last: Job, job: Job, id: string)
    ensures Offered(peers + [last], job) <==> Offered(peers, job) || job == last
    ensures OffersId(peers + [last], id) <==> OffersId(peers, id) || last.id == id
    ensures NoneNewer(peers + [last], id, job) <==> NoneNewer(peers, id, job) && (last.id == id ==> !Newer(last, job))
  {
    var more := peers + [last];
    assert more[|peers|] == last && forall k :: 0 <= k < |peers| ==> more[k] == peers[k];
  }

  /** Per identifier the merge adopts the newest version, whatever the order of the peer's records. */
  lemma {:induction false} MergeAdoptsNewest(q: Queue, peers: seq<Job>, id: string)
    ensures id in MergedAll(q, peers).index <==> id in q.index || OffersId(peers, id)
    ensures id in MergedAll(q, peers).index ==> IsNewest(q, peers, id, MergedAll(q, peers).index[id])
    decreases |peers|
  {
    if peers == [] {
      if id in q.index { NewerOrder(q.index[id], q.index[id], q.index[id]); }
    } else {
      var front, last := peers[..|peers| - 1], peers[|peers| - 1];
      MergeAdoptsNewest(q, front, id);
      NewestStep(q, front, last, MergedAll(q, front), id);
      assert front + [last] == peers;
    }
  }

  lemma NewestStep(q: Queue, front: seq<Job>, last: Job, m: Queue, id: string)
    requires id in m.index <==> id in q.index || OffersId(front, id)
    requires id in m.index ==> IsNewest(q, front, id, m.index[id])
    ensures id in MergedOne(m, last).index <==> id in q.index || OffersId(front + [last], id)
    ensures id in MergedOne(m, last).index ==> IsNewest(q, front + [last], id, MergedOne(m, last).index[id])
  {
    OfferedMore(front, last, last, id);
    NewerOrder(last, last, last);
    if id in MergedOne(m, last).index { OfferedMore(front, last, MergedOne(m, last).index[id], id); }
    if id in m.index && last.id == id && Newer(last, m.index[id]) {
      if id in q.index { NewerOrder(m.index[id], q.index[id], last); }
      forall k | 0 <= k < |front| && front[k].id == id ensures !Newer(front[k], last) {
        NewerOrder(m.index[id], front[k], last);
      }
    }
  }

  /** Every adopted job is in exactly the list its status demands; every other job stays where it was. */
  lemma {:induction false} MergeFiles(q: Queue, peers: seq<Job>, id: string)
    requires InLists(q) && id in MergedAll(q, peers).index
    ensures FilesRight(q, MergedAll(q, peers), id)
    decreases |peers|
  {
    if peers != [] {
      var front, last := peers[..|peers| - 1], peers[|peers| - 1];
      var m := MergedAll(q, front);
      MergeAdoptsNewest(q, front, id);
      if id in m.index { MergeFiles(q, front, id); }
      MergedAllInLists(q, front);
      FilesStep(q, m, last, id);
    }
  }

  ghost predicate FilesRight(q: Queue, r: Queue, id: string)
    requires id in r.index
  {
    if id in q.index && r.index[id] == q.index[id]
    then (id in r.pending <==> id in q.pending) && (id in r.processing <==> id in q.processing)
    else
      && (id in r.pending <==> r.index[id].status == Pending)
      && (id in r.processing <==> r.index[id].status == Processing)
  }

  lemma FilesStep(q: Queue, m: Queue, last: Job, id: string)
    requires InLists(m) && (id in q.index ==> id in m.index && !Newer(q.index[id], m.index[id]))
    requires id in m.index ==> FilesRight(q, m, id)
    requires id in MergedOne(m, last).index
    ensures FilesRight(q, MergedOne(m, last), id)
  {
    AdoptedFiles(m, last);
  }

  lemma MergedFiles(q: Queue, peers: seq<Job>, id: string)
    requires InLists(q) && Known(q.index, q.pending) && id in Merged(q, peers).index
    ensures FilesRight(q, Merged(q, peers), id)
  {
    MergeFiles(q, peers, id);
    MergedAllInLists(q, peers);
    InListsKnown(MergedAll(q, peers));
    SortIdsHas(MergedAll(q, peers).index, MergedAll(q, peers).pending, id);
  }

  // ----- what is passed on -----

  /** A merge leaves the log's records of known jobs as they are, and in their places. */
  lemma {:induction false} LogRecordStays(q: Queue, peers: seq<Job>, id: string)
    requires id in q.index
    ensures var m := MergedAll(q, peers);
            id in m.index && LogRecord(m, id) == LogRecord(q, id) && q.log <= m.log
    decreases |peers|
  {
    if peers != [] { LogRecordStays(q, peers[..|peers| - 1], id); }
  }

  lemma {:induction false} NoneNewerStays(q: Queue, peers: seq<Job>, id: string)
    requires id in q.index && NoneNewer(peers, id, q.index[id])
    ensures id in MergedAll(q, peers).index && MergedAll(q, peers).index[id] == q.index[id]
    decreases |peers|
  {
    if peers != [] {
      var front, last := peers[..|peers| - 1], peers[|peers| - 1];
      assert peers == front + [last];
      OfferedMore(front, last, q.index[id], id);
      NoneNewerStays(q, front, id);
    }
  }

  /** The log keeps the record it had, so after a merge it is current for a job exactly when the peer had no
      newer version of it. */
  lemma LogCurrentIff(q: Queue, peers: seq<Job>, id: string)
    requires id in q.index && id !in q.superseded
    ensures id in MergedAll(q, peers).index
    ensures LogRecord(MergedAll(q, peers), id) == MergedAll(q, peers).index[id] <==> NoneNewer(peers, id, q.index[id])
  {
    LogRecordStays(q, peers, id);
    MergeAdoptsNewest(q, peers, id);
    if NoneNewer(peers, id, q.index[id]) { NoneNewerStays(q, peers, id); }
  }

  /** The records of the log, which are what a node sends to its peers. */
  function Passed(q: Queue): (r: seq<Job>)
    requires Known(q.index, q.log)
    ensures |r| == |q.log|
  {
    seq(|q.log|, i requires 0 <= i < |q.log| => LogRecord(q, q.log[i]))
  }

  lemma {:induction false} MergedLogKnown(q: Queue, peers: seq<Job>)
    requires Known(q.index, q.log)
    ensures Known(MergedAll(q, peers).index, MergedAll(q, peers).log) && q.log <= MergedAll(q, peers).log
    decreases |peers|
  {
    if peers != [] { MergedLogKnown(q, peers[..|peers| - 1]); }
  }

  /** A node passes on for each job it knew what it passed on before the merge, whatever it has adopted since;
      that is the version it holds exactly when the peer had none that is newer. */
  lemma PassesOnIff(q: Queue, peers: seq<Job>, i: nat)
    requires Known(q.index, q.pending) && Known(q.index, q.log) && i < |q.log|
    ensures var r, id := Merged(q, peers), q.log[i];
            && Known(r.index, r.log) && i < |r.log| && r.log[i] == id
            && Passed(r)[i] == Passed(q)[i]
            && (id !in q.superseded ==> (Passed(r)[i] == r.index[id] <==> NoneNewer(peers, id, q.index[id])))
  {
    MergedLogKnown(q, peers);
    LogRecordStays(q, peers, q.log[i]);
    if q.log[i] !in q.superseded { LogCurrentIff(q, peers, q.log[i]); }
  }

  /** A merge logs exactly the jobs that are new here, after those that are logged, and touches neither the dead
      letters nor the clock. */
  lemma {:induction false} MergedLogs(q: Queue, peers: seq<Job>, id: string)
    ensures var m := MergedAll(q, peers);
            && q.log <= m.log && m.dead == q.dead && m.lamport == q.lamport
            && (id in m.index <==> id in q.index || OffersId(peers, id))
            && (id in m.log <==> id in q.log || (id !in q.index && OffersId(peers, id)))
    decreases |peers|
  {
    if peers != [] {
      var front, last := peers[..|peers| - 1], peers[|peers| - 1];
      MergedLogs(q, front, id);
      MergedLogs(q, front, last.id);
      OfferedMore(front, last, last, id);
      OfferedMore(front, last, last, last.id);
      assert front + [last] == peers;
      OneLogs(MergedAll(q, front), last, id);
    }
  }

  lemma OneLogs(m: Queue, last: Job, id: string)
    ensures var r := MergedOne(m, last);
            && m.log <= r.log && r.dead == m.dead && r.lamport == m.lamport
            && (id in r.index <==> id in m.index || last.id == id)
            && (id in r.log <==> id in m.log || (last.id == id && id !in m.index))
  {
  }

  // ----- once more -----

  lemma {:induction false} NothingNewer(q: Queue, peers: seq<Job>)
    requires forall k :: 0 <= k < |peers| ==> peers[k].id in q.index && !Newer(peers[k], q.index[peers[k].id])
    ensures MergedAll(q, peers) == q
    decreases |peers|
  {
    if peers != [] { NothingNewer(q, peers[..|peers| - 1]); }
  }

  /** Merging the same snapshot again changes nothing. */
  lemma MergeTwice(q: Queue, peers: seq<Job>)
    requires Known(q.index, q.pending)
    ensures Known(Merged(q, peers).index, Merged(q, peers).pending)
    ensures Merged(Merged(q, peers), peers) == Merged(q, peers)
  {
    MergedAllKnown(q, peers);
    var m, r := MergedAll(q, peers), Merged(q, peers);
    SortIdsSorts(m.index, m.pending);
    forall k | 0 <= k < |peers| ensures peers[k].id in r.index && !Newer(peers[k], r.index[peers[k].id]) {
      MergeAdoptsNewest(q, peers, peers[k].id);
      assert OffersId(peers, peers[k].id);
    }
    NothingNewer(r, peers);
    SortIdsAgain(r.index, r.pending);
  }
}
