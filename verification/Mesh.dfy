/** The mesh as a step system: nodes that admit requests, record nonces, write and clean their caches,
    exchange stale, repeated or reordered states, take checkpoints, crash and recover. */
module Mesh {
  import opened Wrappers
  import opened Crdt
  import opened MeshNode
  import opened Recovery

  datatype Op =
    | Consume(node: nat, key: string, limit: int, at: int)
    | See(node: nat, nonce: string, at: int)
    | Set(node: nat, name: Key, value: string, ttl: int, t: int, e: int, w: int)
    | Commit(node: nat, name: Key, value: string, t: int, w: int)
    | Cleanup(node: nat, now: int)
    | Publish(node: nat)
    | Deliver(node: nat, message: nat, order: seq<(Key, int)>)
    | Checkpoint(node: nat, at: int)
    | Rotate(node: nat)
    | Crash(node: nat)

  datatype Cluster = Cluster(nodes: seq<Node>, sent: seq<Live>)

  ghost function Empty(ids: seq<string>): Cluster {
    Cluster(seq(|ids|, i => NEW_NODE), [])
  }

  /** Clocks rise strictly, and only what was sent is delivered. */
  ghost predicate Possible(c: Cluster, op: Op) {
    op.node < |c.nodes| &&
    var n := c.nodes[op.node];
    match op
    case Consume(_, _, _, at) => n.clock < at
    case See(_, _, at) => n.clock < at
    case Set(_, _, _, ttl, t, e, w) => SetTimes(n.clock, ttl, t, e, w)
    case Commit(_, _, _, t, w) => n.clock < t < w
    case Cleanup(_, now) => n.clock < now
    case Deliver(_, k, order) => k < |c.sent| && Ticks(n.clock, order)
    case Checkpoint(_, at) => n.clock < at
    case _ => true
  }

  /** A node writes nothing between its snapshot and its log rotation. */
  ghost predicate Undisturbed(n: Node, op: Op) {
    if op.Rotate? then n.rotating
    else op.Cleanup? || op.Publish? || op.Crash? || !n.rotating
  }

  ghost predicate Enabled(c: Cluster, op: Op) {
    Possible(c, op) && Undisturbed(c.nodes[op.node], op)
  }

  ghost function Effect(ids: seq<string>, c: Cluster, op: Op): Node
    requires Possible(c, op) && |c.nodes| == |ids|
  {
    var n, self := c.nodes[op.node], ids[op.node];
    match op
    case Consume(_, key, limit, at) => DoConsume(n, self, key, limit, at)
    case See(_, nonce, at) => DoSee(n, nonce, at)
    case Set(_, name, value, ttl, t, e, w) => DoSet(n, self, name, value, ttl, t, e, w)
    case Commit(_, name, value, t, w) => DoCommit(n, self, name, value, t, w)
    case Cleanup(_, now) => DoCleanup(n, now)
    case Publish(_) => n
    case Deliver(_, k, order) => DoMerge(n, c.sent[k], order)
    case Checkpoint(_, at) => DoSnapshot(n, n.live, at)
    case Rotate(_) => DoRotate(n)
    case Crash(_) => DoCrash(n, self)
  }

  ghost function Do(ids: seq<string>, c: Cluster, op: Op): (r: Cluster)
    requires |c.nodes| == |ids|
    ensures |r.nodes| == |ids|
  {
    if !Enabled(c, op) then c
    else Cluster(c.nodes[op.node := Effect(ids, c, op)],
                 if op.Publish? then c.sent + [OnWire(c.nodes[op.node].live)] else c.sent)
  }

  ghost function After(ids: seq<string>, ops: seq<Op>): (c: Cluster)
    ensures |c.nodes| == |ids|
    decreases |ops|
  {
    if ops == [] then Empty(ids) else Do(ids, After(ids, ops[..|ops| - 1]), ops[|ops| - 1])
  }

  // ----- the invariant of every run -----

  /** No count in `limiters` is ahead of its own node's. */
  ghost predicate Behind(ids: seq<string>, nodes: seq<Node>, limiters: map<string, Counts>)
    requires |nodes| == |ids|
  {
    forall j :: 0 <= j < |ids| ==> ViewWithin(limiters, nodes[j].live.limiters, ids[j])
  }

  ghost predicate Sound(ids: seq<string>, c: Cluster) {
    && |c.nodes| == |ids|
    && (forall i :: 0 <= i < |ids| ==>
          && Timed(c.nodes[i]) && Durable(ids[i], c.nodes[i])
          && Behind(ids, c.nodes, c.nodes[i].live.limiters)
          && Behind(ids, c.nodes, Base(c.nodes[i].disk).state.limiters))
    && (forall k :: 0 <= k < |c.sent| ==> Behind(ids, c.nodes, c.sent[k].limiters) && Versioned(c.sent[k]))
  }

  /** A node's own counts never shrink. */
  ghost predicate Grown(self: string, n: Node, n': Node) {
    ViewWithin(n.live.limiters, n'.live.limiters, self)
  }

  lemma {:induction false} ReplayOthers(s: Live, self: string, wal: seq<Log>, after: int, key: string, other: string)
    requires other != self
    ensures SlotOf(Replay(s, self, wal, after), key, other) == SlotOf(s, key, other)
    decreases |wal|
  {
    if wal != [] { ReplayOthers(s, self, wal[..|wal| - 1], after, key, other); }
  }

  lemma EffectDurable(ids: seq<string>, c: Cluster, op: Op)
    requires Sound(ids, c) && Enabled(c, op)
    ensures Timed(Effect(ids, c, op)) && Durable(ids[op.node], Effect(ids, c, op))
  {
    var n, self := c.nodes[op.node], ids[op.node];
    match op
    case Consume(_, key, limit, at) => ConsumeDurable(self, n, key, limit, at);
    case See(_, nonce, at) => SeeDurable(self, n, nonce, at);
    case Set(_, name, value, ttl, t, e, w) => SetDurable(self, n, name, value, ttl, t, e, w);
    case Commit(_, name, value, t, w) => CommitDurable(self, n, name, value, t, w);
    case Cleanup(_, now) => CleanupDurable(self, n, now);
    case Publish(_) =>
    case Deliver(_, k, order) => MergeDurable(self, n, c.sent[k], order);
    case Checkpoint(_, at) => SnapshotDurable(self, n, at);
    case Rotate(_) => RotateDurable(self, n);
    case Crash(_) => CrashDurable(self, n);
  }

  ghost predicate BehindOthers(ids: seq<string>, nodes: seq<Node>, i: nat, limiters: map<string, Counts>)
    requires |nodes| == |ids|
  {
    forall j :: 0 <= j < |ids| && j != i ==> ViewWithin(limiters, nodes[j].live.limiters, ids[j])
  }

  /** A node keeps its own counts or adds to them, and learns of no count its owner does not have. */
  ghost predicate CountsKept(ids: seq<string>, nodes: seq<Node>, i: nat, n: Node)
    requires |nodes| == |ids| && i < |ids|
  {
    && Grown(ids[i], nodes[i], n)
    && BehindOthers(ids, nodes, i, n.live.limiters) && BehindOthers(ids, nodes, i, Base(n.disk).state.limiters)
    && ViewWithin(Base(n.disk).state.limiters, n.live.limiters, ids[i])
  }

  lemma EffectCounts(ids: seq<string>, c: Cluster, op: Op)
    requires Distinct(ids) && Sound(ids, c) && Enabled(c, op)
    ensures CountsKept(ids, c.nodes, op.node, Effect(ids, c, op))
  {
    var n := c.nodes[op.node];
    assert Behind(ids, c.nodes, n.live.limiters) && Behind(ids, c.nodes, Base(n.disk).state.limiters);
    match op
    case Consume(_, key, limit, at) => ConsumeCounts(ids, c.nodes, op.node, key, limit, at);
    case See(_, nonce, at) => SameCounts(ids, c.nodes, op.node, Effect(ids, c, op));
    case Set(_, name, value, ttl, t, e, w) => SameCounts(ids, c.nodes, op.node, Effect(ids, c, op));
    case Commit(_, name, value, t, w) => SameCounts(ids, c.nodes, op.node, Effect(ids, c, op));
    case Cleanup(_, now) => SameCounts(ids, c.nodes, op.node, Effect(ids, c, op));
    case Publish(_) => SameCounts(ids, c.nodes, op.node, Effect(ids, c, op));
    case Deliver(_, k, order) => DeliverCounts(ids, c, op);
    case Checkpoint(_, at) => SameCounts(ids, c.nodes, op.node, Effect(ids, c, op));
    case Rotate(_) => SameCounts(ids, c.nodes, op.node, Effect(ids, c, op));
    case Crash(_) => CrashCounts(ids, c, op);
  }

  lemma SameCounts(ids: seq<string>, nodes: seq<Node>, i: nat, n: Node)
    requires |nodes| == |ids| && i < |ids|
    requires Behind(ids, nodes, nodes[i].live.limiters) && Behind(ids, nodes, Base(nodes[i].disk).state.limiters)
    requires n.live.limiters == nodes[i].live.limiters
    requires || Base(n.disk).state.limiters == nodes[i].live.limiters
             || Base(n.disk).state.limiters == Base(nodes[i].disk).state.limiters
    ensures CountsKept(ids, nodes, i, n)
  {
  }

  lemma ConsumeCounts(ids: seq<string>, nodes: seq<Node>, i: nat, key: string, limit: int, at: int)
    requires |nodes| == |ids| && i < |ids| && Distinct(ids)
    requires Behind(ids, nodes, nodes[i].live.limiters) && Behind(ids, nodes, Base(nodes[i].disk).state.limiters)
    ensures CountsKept(ids, nodes, i, DoConsume(nodes[i], ids[i], key, limit, at))
  {
    var n, m := nodes[i], DoConsume(nodes[i], ids[i], key, limit, at);
    assert Base(m.disk) == Base(n.disk);
    forall j, k | 0 <= j < |ids| && j != i
      ensures Slot(CountsOf(m.live.limiters, k), ids[j]) == Slot(CountsOf(n.live.limiters, k), ids[j])
    {
      assert ids[j] != ids[i];
    }
    forall k ensures Slot(CountsOf(n.live.limiters, k), ids[i]) <= Slot(CountsOf(m.live.limiters, k), ids[i]) {
    }
  }

  lemma MergedBehind(self: string, mine: map<string, Counts>, peer: map<string, Counts>, owner: map<string, Counts>)
    requires ViewWithin(mine, owner, self) && ViewWithin(peer, owner, self)
    ensures ViewWithin(MergedLimiters(mine, peer), owner, self)
  {
    var m := MergedLimiters(mine, peer);
    forall key ensures Slot(CountsOf(m, key), self) <= Slot(CountsOf(owner, key), self) {
      assert CountsOf(m, key) == MergedCounts(CountsOf(mine, key), CountsOf(peer, key));
      assert Slot(CountsOf(mine, key), self) <= Slot(CountsOf(owner, key), self);
      assert Slot(CountsOf(peer, key), self) <= Slot(CountsOf(owner, key), self);
    }
  }

  lemma MergedGrows(self: string, mine: map<string, Counts>, peer: map<string, Counts>, view: map<string, Counts>)
    requires ViewWithin(view, mine, self)
    ensures ViewWithin(view, MergedLimiters(mine, peer), self)
  {
    var m := MergedLimiters(mine, peer);
    forall key ensures Slot(CountsOf(view, key), self) <= Slot(CountsOf(m, key), self) {
      assert CountsOf(m, key) == MergedCounts(CountsOf(mine, key), CountsOf(peer, key));
      assert Slot(CountsOf(view, key), self) <= Slot(CountsOf(mine, key), self);
    }
  }

  lemma DeliverCounts(ids: seq<string>, c: Cluster, op: Op)
    requires Sound(ids, c) && Enabled(c, op) && op.Deliver?
    ensures CountsKept(ids, c.nodes, op.node, Effect(ids, c, op))
  {
    var n, self, peer := c.nodes[op.node], ids[op.node], c.sent[op.message];
    var m := n.(live := MergedSets(n.live, peer));
    AdoptAllKeeps(m, peer, op.order);
    var r := Effect(ids, c, op);
    assert r.live.limiters == MergedLimiters(n.live.limiters, peer.limiters) && Base(r.disk) == Base(n.disk);
    assert Behind(ids, c.nodes, n.live.limiters) && Behind(ids, c.nodes, peer.limiters)
          && Behind(ids, c.nodes, Base(n.disk).state.limiters);
    MergedGrows(self, n.live.limiters, peer.limiters, n.live.limiters);
    MergedGrows(self, n.live.limiters, peer.limiters, Base(n.disk).state.limiters);
    forall j | 0 <= j < |ids| && j != op.node ensures ViewWithin(r.live.limiters, c.nodes[j].live.limiters, ids[j]) {
      MergedBehind(ids[j], n.live.limiters, peer.limiters, c.nodes[j].live.limiters);
    }
  }

  lemma CrashCounts(ids: seq<string>, c: Cluster, op: Op)
    requires Distinct(ids) && Sound(ids, c) && Enabled(c, op) && op.Crash?
    ensures CountsKept(ids, c.nodes, op.node, Effect(ids, c, op))
  {
    var n, self := c.nodes[op.node], ids[op.node];
    assert Behind(ids, c.nodes, Base(n.disk).state.limiters);
    forall j, key | 0 <= j < |ids| && j != op.node
      ensures Slot(CountsOf(Recovered(self, n.disk).limiters, key), ids[j]) <=
              Slot(CountsOf(c.nodes[j].live.limiters, key), ids[j])
    {
      assert ids[j] != self;
      ReplayOthers(Base(n.disk).state, self, n.disk.wal, Base(n.disk).at, key, ids[j]);
      assert Slot(CountsOf(Base(n.disk).state.limiters, key), ids[j]) <=
             Slot(CountsOf(c.nodes[j].live.limiters, key), ids[j]);
    }
  }

  lemma BehindGrows(ids: seq<string>, nodes: seq<Node>, i: nat, n: Node, limiters: map<string, Counts>)
    requires |nodes| == |ids| && i < |ids| && Behind(ids, nodes, limiters) && Grown(ids[i], nodes[i], n)
    ensures Behind(ids, nodes[i := n], limiters)
  {
    forall key ensures Slot(CountsOf(limiters, key), ids[i]) <= Slot(CountsOf(n.live.limiters, key), ids[i]) {
      assert Slot(CountsOf(limiters, key), ids[i]) <= Slot(CountsOf(nodes[i].live.limiters, key), ids[i]);
    }
  }

  lemma KeptBehind(ids: seq<string>, nodes: seq<Node>, i: nat, n: Node)
    requires |nodes| == |ids| && i < |ids| && CountsKept(ids, nodes, i, n)
    ensures Behind(ids, nodes[i := n], n.live.limiters) && Behind(ids, nodes[i := n], Base(n.disk).state.limiters)
  {
  }

  lemma PublishSound(ids: seq<string>, c: Cluster, i: nat)
    requires Sound(ids, c) && i < |ids|
    ensures Sound(ids, c.(sent := c.sent + [OnWire(c.nodes[i].live)]))
  {
    assert Behind(ids, c.nodes, c.nodes[i].live.limiters) && Timed(c.nodes[i]);
    var sent := c.sent + [OnWire(c.nodes[i].live)];
    forall k | 0 <= k < |sent| ensures Behind(ids, c.nodes, sent[k].limiters) && Versioned(sent[k]) {
      if k < |c.sent| { assert sent[k] == c.sent[k]; }
    }
  }

  lemma SoundStep(ids: seq<string>, c: Cluster, op: Op)
    requires Distinct(ids) && Sound(ids, c)
    ensures Sound(ids, Do(ids, c, op))
  {
    if Enabled(c, op) {
      EffectDurable(ids, c, op);
      EffectCounts(ids, c, op);
      var n := Effect(ids, c, op);
      SoundAfter(ids, c, op.node, n);
      if op.Publish? {
        assert c.nodes[op.node := n] == c.nodes;
        PublishSound(ids, c, op.node);
      }
    }
  }

  lemma SoundAfter(ids: seq<string>, c: Cluster, i: nat, n: Node)
    requires Sound(ids, c) && i < |ids| && CountsKept(ids, c.nodes, i, n) && Timed(n) && Durable(ids[i], n)
    ensures Sound(ids, Cluster(c.nodes[i := n], c.sent))
  {
    var nodes := c.nodes[i := n];
    KeptBehind(ids, c.nodes, i, n);
    forall j | 0 <= j < |ids| && j != i
      ensures Behind(ids, nodes, c.nodes[j].live.limiters) && Behind(ids, nodes, Base(c.nodes[j].disk).state.limiters)
    {
      BehindGrows(ids, c.nodes, i, n, c.nodes[j].live.limiters);
      BehindGrows(ids, c.nodes, i, n, Base(c.nodes[j].disk).state.limiters);
    }
    forall k | 0 <= k < |c.sent| ensures Behind(ids, nodes, c.sent[k].limiters) {
      BehindGrows(ids, c.nodes, i, n, c.sent[k].limiters);
    }
  }

  /** In every run, crashes and checkpoints included: recovery would give every node its own counts, the
      nonces it recorded and its cache back, and no node, snapshot or message is ahead of a count's owner. */
  lemma {:induction false} AlwaysSound(ids: seq<string>, ops: seq<Op>)
    requires Distinct(ids)
    ensures Sound(ids, After(ids, ops))
    decreases |ops|
  {
    if ops != [] {
      AlwaysSound(ids, ops[..|ops| - 1]);
      SoundStep(ids, After(ids, ops[..|ops| - 1]), ops[|ops| - 1]);
    }
  }
}
