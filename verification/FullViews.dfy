/** What gossip is for: at a node that has heard of every admission the limit is the limit itself, as if there were one
    counter for all nodes. */
module FullViews {
  import opened Wrappers
  import opened Crdt
  import opened MeshNode
  import opened Mesh
  import opened RateLimit

  // ----- only nodes of the mesh are counted -----

  ghost predicate CountsNodes(ids: seq<string>, limiters: map<string, Counts>) {
    forall key, n :: n in CountsOf(limiters, key) ==> n in ids
  }

  ghost predicate NodeCounts(ids: seq<string>, n: Node) {
    CountsNodes(ids, n.live.limiters) && CountsNodes(ids, Base(n.disk).state.limiters)
  }

  ghost predicate OnlyNodes(ids: seq<string>, c: Cluster) {
    && |c.nodes| == |ids| && (forall i :: 0 <= i < |ids| ==> NodeCounts(ids, c.nodes[i]))
    && (forall k :: 0 <= k < |c.sent| ==> CountsNodes(ids, c.sent[k].limiters))
  }

  lemma ChargedNodes(ids: seq<string>, s: Live, self: string, key: string)
    requires CountsNodes(ids, s.limiters) && self in ids
    ensures CountsNodes(ids, Charged(s, self, key).limiters)
  {
    var r := Charged(s, self, key).limiters;
    forall k, n | n in CountsOf(r, k) ensures n in ids {
      assert n in CountsOf(s.limiters, k) || n == self;
    }
  }

  /** Looking a counter up creates it, and counts nothing. */
  lemma LookedUpNodes(ids: seq<string>, limiters: map<string, Counts>, key: string)
    requires CountsNodes(ids, limiters)
    ensures CountsNodes(ids, limiters[key := CountsOf(limiters, key)])
  {
    var r := limiters[key := CountsOf(limiters, key)];
    forall k, n | n in CountsOf(r, k) ensures n in ids {
      assert n in CountsOf(limiters, k);
    }
  }

  lemma MergedNodes(ids: seq<string>, mine: map<string, Counts>, peer: map<string, Counts>)
    requires CountsNodes(ids, mine) && CountsNodes(ids, peer)
    ensures CountsNodes(ids, MergedLimiters(mine, peer))
  {
    forall key, n | n in CountsOf(MergedLimiters(mine, peer), key) ensures n in ids {
      assert n in MergedCounts(CountsOf(mine, key), CountsOf(peer, key));
    }
  }

  lemma {:induction false} ReplayNodes(ids: seq<string>, s: Live, self: string, wal: seq<Log>, after: int)
    requires CountsNodes(ids, s.limiters) && self in ids
    ensures CountsNodes(ids, Replay(s, self, wal, after).limiters)
    decreases |wal|
  {
    if wal != [] {
      var front, last := wal[..|wal| - 1], wal[|wal| - 1];
      ReplayNodes(ids, s, self, front, after);
      if last.Consume? { ChargedNodes(ids, Replay(s, self, front, after), self, last.key); }
    }
  }

  lemma ConsumeNodes(ids: seq<string>, n: Node, self: string, key: string, limit: int, at: int)
    requires NodeCounts(ids, n) && self in ids
    ensures NodeCounts(ids, DoConsume(n, self, key, limit, at))
  {
    ChargedNodes(ids, n.live, self, key);
    LookedUpNodes(ids, n.live.limiters, key);
  }

  lemma DeliverNodes(ids: seq<string>, n: Node, peer: Live, order: seq<(Key, int)>)
    requires NodeCounts(ids, n) && CountsNodes(ids, peer.limiters)
    ensures NodeCounts(ids, DoMerge(n, peer, order))
  {
    AdoptAllKeeps(n.(live := MergedSets(n.live, peer)), peer, order);
    MergedNodes(ids, n.live.limiters, peer.limiters);
  }

  lemma EffectNodes(ids: seq<string>, c: Cluster, op: Op)
    requires OnlyNodes(ids, c) && Possible(c, op)
    ensures NodeCounts(ids, Effect(ids, c, op))
  {
    var n, self := c.nodes[op.node], ids[op.node];
    assert NodeCounts(ids, n) && self in ids;
    match op
    case Consume(_, key, limit, at) => ConsumeNodes(ids, n, self, key, limit, at);
    case Deliver(_, k, order) => DeliverNodes(ids, n, c.sent[k], order);
    case Crash(_) => ReplayNodes(ids, Base(n.disk).state, self, n.disk.wal, Base(n.disk).at);
    case _ =>
  }

  lemma StepNodes(ids: seq<string>, c: Cluster, op: Op)
    requires OnlyNodes(ids, c)
    ensures OnlyNodes(ids, Do(ids, c, op))
  {
    if Enabled(c, op) {
      EffectNodes(ids, c, op);
      var r := Do(ids, c, op);
      assert NodeCounts(ids, c.nodes[op.node]);
      forall k | 0 <= k < |r.sent| ensures CountsNodes(ids, r.sent[k].limiters) {
        if k < |c.sent| { assert r.sent[k] == c.sent[k]; }
      }
    }
  }

  lemma {:induction false} AlwaysOnlyNodes(ids: seq<string>, ops: seq<Op>)
    ensures OnlyNodes(ids, After(ids, ops))
    decreases |ops|
  {
    if ops != [] {
      AlwaysOnlyNodes(ids, ops[..|ops| - 1]);
      StepNodes(ids, After(ids, ops[..|ops| - 1]), ops[|ops| - 1]);
    }
  }

  // ----- a total is the sum over the nodes -----

  ghost function SlotSum(ids: seq<string>, counts: Counts, m: nat): nat
    requires m <= |ids|
  {
    if m == 0 then 0 else SlotSum(ids, counts, m - 1) + Slot(counts, ids[m - 1])
  }

  lemma {:induction false} SlotSumWithout(ids: seq<string>, counts: Counts, m: nat, id: string)
    requires m <= |ids| && forall i :: 0 <= i < m ==> ids[i] != id
    ensures SlotSum(ids, counts - {id}, m) == SlotSum(ids, counts, m)
  {
    if m > 0 { SlotSumWithout(ids, counts, m - 1, id); }
  }

  lemma {:induction false} TotalIsSlotSum(ids: seq<string>, counts: Counts, m: nat)
    requires Distinct(ids) && m <= |ids| && forall n :: n in counts ==> n in ids[..m]
    ensures Total(counts) == SlotSum(ids, counts, m)
  {
    if m == 0 {
      assert counts.Keys == {};
    } else {
      var id := ids[m - 1];
      var rest := counts - {id};
      forall n | n in rest ensures n in ids[..m - 1] {
        assert ids[..m] == ids[..m - 1] + [id];
      }
      TotalIsSlotSum(ids, rest, m - 1);
      SlotSumWithout(ids, counts, m - 1, id);
      if id in counts { TotalTakes(counts, id); } else { assert rest == counts; }
    }
  }

  // ----- full views -----

  /** This node's view of the key has every node's own count. */
  ghost predicate FullView(ids: seq<string>, c: Cluster, i: nat, key: string)
    requires i < |c.nodes| == |ids|
  {
    forall j :: 0 <= j < |ids| ==> SlotOf(c.nodes[i].live, key, ids[j]) == SlotOf(c.nodes[j].live, key, ids[j])
  }

  lemma {:induction false} SlotSumIsOwn(ids: seq<string>, c: Cluster, i: nat, key: string, m: nat)
    requires i < |c.nodes| == |ids| && m <= |ids| && FullView(ids, c, i, key)
    ensures SlotSum(ids, CountsOf(c.nodes[i].live.limiters, key), m) == OwnCounts(ids, c.nodes, key, m)
  {
    if m > 0 { SlotSumIsOwn(ids, c, i, key, m - 1); }
  }

  /** In every run a full view's total is the number of requests admitted so far, wherever they were. */
  lemma FullViewCountsAll(ids: seq<string>, ops: seq<Op>, i: nat, key: string)
    requires Distinct(ids) && i < |ids| && FullView(ids, After(ids, ops), i, key)
    ensures Total(CountsOf(After(ids, ops).nodes[i].live.limiters, key)) == Admitted(ids, ops, key)
  {
    var c := After(ids, ops);
    var counts := CountsOf(c.nodes[i].live.limiters, key);
    AlwaysOnlyNodes(ids, ops);
    assert NodeCounts(ids, c.nodes[i]);
    assert ids[..|ids|] == ids;
    TotalIsSlotSum(ids, counts, |ids|);
    SlotSumIsOwn(ids, c, i, key, |ids|);
    AdmittedIsCounted(ids, ops, key);
  }

  /** So a request that comes to such a node is admitted exactly when fewer than its limit have been admitted in
      all, and is then counted; the node decides as a single counter would. */
  lemma FullViewDecides(ids: seq<string>, ops: seq<Op>, op: Op)
    requires Distinct(ids) && op.Consume? && Enabled(After(ids, ops), op)
    requires FullView(ids, After(ids, ops), op.node, op.key)
    ensures Admitted(ids, ops + [op], op.key) ==
            Admitted(ids, ops, op.key) + (if Admitted(ids, ops, op.key) < op.limit then 1 else 0)
  {
    FullViewCountsAll(ids, ops, op.node, op.key);
    Snoc(ops, op);
  }

  /** When every admission of a run is made on a full view, the nodes together admit no more than the limit. */
  lemma {:induction false} LimitKept(ids: seq<string>, ops: seq<Op>, key: string, limit: nat)
    requires Distinct(ids) && LimitsWithin(ops, key, limit)
    requires forall k :: 0 <= k < |ops| && IsAdmission(After(ids, ops[..k]), ops[k], key) ==>
                           FullView(ids, After(ids, ops[..k]), ops[k].node, key)
    ensures Admitted(ids, ops, key) <= limit
    decreases |ops|
  {
    if ops != [] {
      var front, last := ops[..|ops| - 1], |ops| - 1;
      forall k | 0 <= k < |front| ensures front[k] == ops[k] && front[..k] == ops[..k] {
      }
      LimitKept(ids, front, key, limit);
      assert ops[..last] == front;
      if IsAdmission(After(ids, front), ops[last], key) {
        FullViewCountsAll(ids, front, ops[last].node, key);
      }
    }
  }
}
