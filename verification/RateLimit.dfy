/** How far a limit can be overrun: N nodes that each admit against their own view admit at most N times
    the limit, and can admit that many. */
module RateLimit {
  import opened Wrappers
  import opened Crdt
  import opened MeshNode
  import opened Recovery
  import opened Mesh

  /** Requests for `key` admitted in a run, over all nodes and through all crashes. */
  ghost function Admitted(ids: seq<string>, ops: seq<Op>, key: string): nat
    decreases |ops|
  {
    if ops == [] then 0
    else Admitted(ids, ops[..|ops| - 1], key)
         + (if IsAdmission(After(ids, ops[..|ops| - 1]), ops[|ops| - 1], key) then 1 else 0)
  }

  ghost predicate IsAdmission(c: Cluster, op: Op, key: string) {
    Enabled(c, op) && op.Consume? && op.key == key && Admits(c.nodes[op.node].live, key, op.limit)
  }

  /** What the first m nodes count for themselves. */
  ghost function OwnCounts(ids: seq<string>, nodes: seq<Node>, key: string, m: nat): nat
    requires m <= |ids| == |nodes|
  {
    if m == 0 then 0 else OwnCounts(ids, nodes, key, m - 1) + SlotOf(nodes[m - 1].live, key, ids[m - 1])
  }

  ghost predicate LimitsWithin(ops: seq<Op>, key: string, limit: nat) {
    forall i :: 0 <= i < |ops| && ops[i].Consume? && ops[i].key == key ==> ops[i].limit <= limit
  }

  /** A step adds one to the acting node's own count when it admits, and otherwise leaves it. */
  lemma OwnCountStep(ids: seq<string>, c: Cluster, op: Op, key: string)
    requires Sound(ids, c) && Enabled(c, op)
    ensures SlotOf(Effect(ids, c, op).live, key, ids[op.node]) ==
            SlotOf(c.nodes[op.node].live, key, ids[op.node]) + (if IsAdmission(c, op, key) then 1 else 0)
  {
    match op
    case Deliver(i, k, order) => DeliverOwn(ids, c, op, key);
    case Crash(i) => assert SameSlots(Recovered(ids[i], c.nodes[i].disk).limiters, c.nodes[i].live.limiters, ids[i]);
    case _ =>
  }

  lemma DeliverOwn(ids: seq<string>, c: Cluster, op: Op, key: string)
    requires Sound(ids, c) && Enabled(c, op) && op.Deliver?
    ensures SlotOf(Effect(ids, c, op).live, key, ids[op.node]) == SlotOf(c.nodes[op.node].live, key, ids[op.node])
  {
    var n, self, peer := c.nodes[op.node], ids[op.node], c.sent[op.message];
    assert Slot(CountsOf(peer.limiters, key), self) <= Slot(CountsOf(n.live.limiters, key), self);
    MergeCountsDurable(self, n, peer);
    AdoptAllDurable(self, n.(live := MergedSets(n.live, peer)), peer, op.order);
  }

  lemma {:induction false} OwnCountsUpdate(ids: seq<string>, nodes: seq<Node>, i: nat, n: Node, key: string, m: nat)
    requires m <= |ids| == |nodes| && i < |ids|
    ensures OwnCounts(ids, nodes[i := n], key, m) ==
            OwnCounts(ids, nodes, key, m)
            + (if i < m then SlotOf(n.live, key, ids[i]) - SlotOf(nodes[i].live, key, ids[i]) else 0)
  {
    if m > 0 { OwnCountsUpdate(ids, nodes, i, n, key, m - 1); }
  }

  lemma {:induction false} NothingCounted(ids: seq<string>, key: string, m: nat)
    requires m <= |ids|
    ensures OwnCounts(ids, Empty(ids).nodes, key, m) == 0
  {
    if m > 0 { NothingCounted(ids, key, m - 1); }
  }

  /** The nodes' own counts together are exactly the admissions: none is lost or made up by merges, stale
      states, checkpoints or crashes. */
  lemma {:induction false} AdmittedIsCounted(ids: seq<string>, ops: seq<Op>, key: string)
    requires Distinct(ids)
    ensures Admitted(ids, ops, key) == OwnCounts(ids, After(ids, ops).nodes, key, |ids|)
    decreases |ops|
  {
    if ops == [] {
      NothingCounted(ids, key, |ids|);
    } else {
      var front, op := ops[..|ops| - 1], ops[|ops| - 1];
      AdmittedIsCounted(ids, front, key);
      AlwaysSound(ids, front);
      var c := After(ids, front);
      if Enabled(c, op) {
        OwnCountStep(ids, c, op, key);
        OwnCountsUpdate(ids, c.nodes, op.node, Effect(ids, c, op), key, |ids|);
      }
    }
  }

  lemma {:induction false} OwnCountWithin(ids: seq<string>, ops: seq<Op>, key: string, limit: nat, i: nat)
    requires Distinct(ids) && LimitsWithin(ops, key, limit) && i < |ids|
    ensures SlotOf(After(ids, ops).nodes[i].live, key, ids[i]) <= limit
    decreases |ops|
  {
    if ops != [] {
      var front, op := ops[..|ops| - 1], ops[|ops| - 1];
      OwnCountWithin(ids, front, key, limit, i);
      AlwaysSound(ids, front);
      var c := After(ids, front);
      if Enabled(c, op) && op.node == i {
        OwnCountStep(ids, c, op, key);
        SlotAtMostTotal(CountsOf(c.nodes[i].live.limiters, key), ids[i]);
      }
    }
  }

  lemma {:induction false} OwnCountsWithin(ids: seq<string>, nodes: seq<Node>, key: string, limit: nat, m: nat)
    requires m <= |ids| == |nodes| && forall i :: 0 <= i < |ids| ==> SlotOf(nodes[i].live, key, ids[i]) <= limit
    ensures OwnCounts(ids, nodes, key, m) <= m * limit
  {
    if m > 0 { OwnCountsWithin(ids, nodes, key, limit, m - 1); }
  }

  /** The bound: whatever is delivered to whom and whoever crashes, N nodes with limit L admit at most
      N * L requests for a key. */
  lemma AdmissionsBounded(ids: seq<string>, ops: seq<Op>, key: string, limit: nat)
    requires Distinct(ids) && LimitsWithin(ops, key, limit)
    ensures Admitted(ids, ops, key) <= |ids| * limit
  {
    AdmittedIsCounted(ids, ops, key);
    forall i | 0 <= i < |ids| ensures SlotOf(After(ids, ops).nodes[i].live, key, ids[i]) <= limit {
      OwnCountWithin(ids, ops, key, limit, i);
    }
    OwnCountsWithin(ids, After(ids, ops).nodes, key, limit, |ids|);
  }

  // ----- a snapshot of an earlier copy -----

  lemma AfterMore(ids: seq<string>, ops: seq<Op>, more: seq<Op>)
    requires more != []
    ensures After(ids, ops + more) == Do(ids, After(ids, ops + more[..|more| - 1]), more[|more| - 1])
  {
    FrontOfBoth(ops, more);
  }

  /** Requests for `key` that node i admits in the second part of a run. */
  ghost function AdmittedSince(ids: seq<string>, ops: seq<Op>, more: seq<Op>, key: string, i: nat): nat
    decreases |more|
  {
    if more == [] then 0
    else
      var front, op := more[..|more| - 1], more[|more| - 1];
      AdmittedSince(ids, ops, front, key, i)
      + (if op.node == i && IsAdmission(After(ids, ops + front), op, key) then 1 else 0)
  }

  lemma {:induction false} OwnCountSince(ids: seq<string>, ops: seq<Op>, more: seq<Op>, key: string, i: nat)
    requires Distinct(ids) && i < |ids|
    ensures SlotOf(After(ids, ops + more).nodes[i].live, key, ids[i]) ==
            SlotOf(After(ids, ops).nodes[i].live, key, ids[i]) + AdmittedSince(ids, ops, more, key, i)
    decreases |more|
  {
    if more == [] {
      assert ops + more == ops;
    } else {
      var front, op := more[..|more| - 1], more[|more| - 1];
      OwnCountSince(ids, ops, front, key, i);
      AfterMore(ids, ops, more);
      AlwaysSound(ids, ops + front);
      if Enabled(After(ids, ops + front), op) { OwnCountStep(ids, After(ids, ops + front), op, key); }
    }
  }

  /** A snapshot that is stamped after its copy was taken is short by exactly what the node admitted in between,
      whatever else happened there. */
  lemma StaleCopyLoses(ids: seq<string>, ops: seq<Op>, more: seq<Op>, i: nat, at: int, key: string)
    requires Distinct(ids) && i < |ids| && After(ids, ops + more).nodes[i].clock < at
    ensures var copy, n := After(ids, ops).nodes[i].live, After(ids, ops + more).nodes[i];
            SlotOf(n.live, key, ids[i]) ==
            SlotOf(Recovered(ids[i], DoSnapshot(n, copy, at).disk), key, ids[i]) + AdmittedSince(ids, ops, more, key, i)
  {
    OwnCountSince(ids, ops, more, key, i);
    AlwaysSound(ids, ops + more);
    ReplayNone(OnWire(After(ids, ops).nodes[i].live), ids[i], After(ids, ops + more).nodes[i].disk.wal, at);
  }

  /** So the node's count of a key survives such a snapshot exactly when it admitted nothing for the key between copy
      and stamp. */
  lemma SnapshotKeepsCountIff(ids: seq<string>, ops: seq<Op>, more: seq<Op>, i: nat, at: int, key: string)
    requires Distinct(ids) && i < |ids| && After(ids, ops + more).nodes[i].clock < at
    ensures var copy, n := After(ids, ops).nodes[i].live, After(ids, ops + more).nodes[i];
            SlotOf(Recovered(ids[i], DoSnapshot(n, copy, at).disk), key, ids[i]) == SlotOf(n.live, key, ids[i])
            <==> forall k :: 0 <= k < |more| && more[k].node == i ==>
                               !IsAdmission(After(ids, ops + more[..k]), more[k], key)
  {
    StaleCopyLoses(ids, ops, more, i, at, key);
    NoneSince(ids, ops, more, key, i);
  }

  lemma {:induction false} NoneSince(ids: seq<string>, ops: seq<Op>, more: seq<Op>, key: string, i: nat)
    ensures AdmittedSince(ids, ops, more, key, i) == 0
            <==> forall k :: 0 <= k < |more| && more[k].node == i ==>
                               !IsAdmission(After(ids, ops + more[..k]), more[k], key)
    decreases |more|
  {
    if more != [] {
      var front := more[..|more| - 1];
      NoneSince(ids, ops, front, key, i);
      assert forall k :: 0 <= k < |front| ==> front[k] == more[k] && front[..k] == more[..k];
    }
  }

  // ----- the bound is reached -----

  /** The run in which, without hearing from one another, the first m nodes each use up the limit and node
      m has admitted k requests. */
  ghost function Apart(key: string, limit: nat, m: nat, k: nat): seq<Op>
    decreases m, k
  {
    if k > 0 then Apart(key, limit, m, k - 1) + [Op.Consume(m, key, limit, MILLI + k)]
    else if m > 0 then Apart(key, limit, m - 1, limit)
    else []
  }

  /** Node m has admitted k requests, and the nodes after it are new. */
  ghost predicate ApartAt(nodes: seq<Node>, key: string, m: nat, k: nat) {
    && m < |nodes| && (forall i :: m < i < |nodes| ==> nodes[i] == NEW_NODE)
    && !nodes[m].rotating && nodes[m].clock == MILLI + k && Total(CountsOf(nodes[m].live.limiters, key)) == k
  }

  lemma ApartStep(ids: seq<string>, c: Cluster, key: string, limit: nat, m: nat, k: nat)
    requires |c.nodes| == |ids| && 0 < k <= limit && ApartAt(c.nodes, key, m, k - 1)
    ensures var op := Op.Consume(m, key, limit, MILLI + k);
            ApartAt(Do(ids, c, op).nodes, key, m, k) && IsAdmission(c, op, key)
  {
    IncrementAddsOne(CountsOf(c.nodes[m].live.limiters, key), ids[m]);
  }

  lemma OneMore(ids: seq<string>, ops: seq<Op>, op: Op, key: string)
    ensures After(ids, ops + [op]) == Do(ids, After(ids, ops), op)
    ensures Admitted(ids, ops + [op], key) ==
            Admitted(ids, ops, key) + (if IsAdmission(After(ids, ops), op, key) then 1 else 0)
  {
    assert (ops + [op])[..|ops|] == ops;
  }

  lemma ApartNext(ids: seq<string>, front: seq<Op>, key: string, limit: nat, m: nat, k: nat)
    requires 0 < k <= limit && ApartAt(After(ids, front).nodes, key, m, k - 1)
    ensures var ops := front + [Op.Consume(m, key, limit, MILLI + k)];
            ApartAt(After(ids, ops).nodes, key, m, k) && Admitted(ids, ops, key) == Admitted(ids, front, key) + 1
  {
    OneMore(ids, front, Op.Consume(m, key, limit, MILLI + k), key);
    ApartStep(ids, After(ids, front), key, limit, m, k);
  }

  lemma TimesNext(m: nat, limit: nat)
    ensures (m + 1) * limit == m * limit + limit
  {
  }

  lemma NothingYet(ids: seq<string>, key: string)
    requires ids != []
    ensures ApartAt(After(ids, []).nodes, key, 0, 0) && Admitted(ids, [], key) == 0
  {
    assert Empty(ids).nodes[0] == NEW_NODE;
  }

  lemma {:induction false} ApartLimits(key: string, limit: nat, m: nat, k: nat)
    ensures LimitsWithin(Apart(key, limit, m, k), key, limit)
    decreases m, k
  {
    if k > 0 {
      ApartLimits(key, limit, m, k - 1);
    } else if m > 0 {
      ApartLimits(key, limit, m - 1, limit);
    }
  }

  /** After some run, node m has admitted k requests and each node before it the limit. */
  ghost predicate ApartDone(ids: seq<string>, ops: seq<Op>, key: string, limit: nat, m: nat, k: nat) {
    Admitted(ids, ops, key) == m * limit + k && ApartAt(After(ids, ops).nodes, key, m, k)
  }

  lemma ApartMore(ids: seq<string>, front: seq<Op>, key: string, limit: nat, m: nat, k: nat)
    requires 0 < k <= limit && ApartDone(ids, front, key, limit, m, k - 1)
    ensures ApartDone(ids, front + [Op.Consume(m, key, limit, MILLI + k)], key, limit, m, k)
  {
    ApartNext(ids, front, key, limit, m, k);
  }

  /** With node m - 1 at the limit, the next one is new. */
  lemma ApartShift(ids: seq<string>, ops: seq<Op>, key: string, limit: nat, m: nat)
    requires 0 < m < |ids| && ApartDone(ids, ops, key, limit, m - 1, limit)
    ensures ApartDone(ids, ops, key, limit, m, 0)
  {
    TimesNext(m - 1, limit);
    assert After(ids, ops).nodes[m] == NEW_NODE;
  }

  lemma {:induction false} ApartAdmits(ids: seq<string>, key: string, limit: nat, m: nat, k: nat)
    requires m < |ids| && k <= limit
    ensures ApartDone(ids, Apart(key, limit, m, k), key, limit, m, k)
    decreases m, k
  {
    if k > 0 {
      ApartAdmits(ids, key, limit, m, k - 1);
      ApartMore(ids, Apart(key, limit, m, k - 1), key, limit, m, k);
    } else if m > 0 {
      ApartAdmits(ids, key, limit, m - 1, limit);
      ApartShift(ids, Apart(key, limit, m - 1, limit), key, limit, m);
    } else {
      NothingYet(ids, key);
    }
  }

  /** N * L is attained. */
  lemma AdmissionsReachBound(ids: seq<string>, key: string, limit: nat) returns (ops: seq<Op>)
    ensures LimitsWithin(ops, key, limit) && Admitted(ids, ops, key) == |ids| * limit
  {
    if ids == [] {
      ops := [];
    } else {
      var m := |ids| - 1;
      ops := Apart(key, limit, m, limit);
      ApartLimits(key, limit, m, limit);
      ApartAdmits(ids, key, limit, m, limit);
      TimesNext(m, limit);
    }
  }
}
