/** In every run of the mesh a cache version - key, timestamp and writer - names one entry, wherever it is:
    in a live cache, on a disk or in a message. */
module CacheVersions {
  import opened Wrappers
  import opened MeshNode
  import opened Recovery
  import opened Mesh

  /** Every entry ever written, by key and version, as the wire carries it. */
  type Registry = map<(Key, int, string), CacheEntry>

  ghost predicate Names(reg: Registry, name: Key, e: CacheEntry) {
    (name, e.timestamp, e.node) in reg && reg[(name, e.timestamp, e.node)] == CoarseEntry(e)
  }

  ghost predicate Known(reg: Registry, cache: map<Key, CacheEntry>) {
    forall name :: name in cache ==> Names(reg, name, cache[name])
  }

  ghost predicate KnownLog(reg: Registry, wal: seq<Log>) {
    forall i :: 0 <= i < |wal| && wal[i].Put? ==> Names(reg, wal[i].name, wal[i].entry)
  }

  ghost predicate KnownNode(reg: Registry, n: Node) {
    Known(reg, n.live.cache) && KnownLog(reg, n.disk.wal) && Known(reg, Base(n.disk).state.cache)
  }

  /** No version of this writer's is ahead of its clock. */
  ghost predicate Past(reg: Registry, self: string, clock: int) {
    forall v :: v in reg && v.2 == self ==> v.1 <= clock
  }

  ghost predicate Tracked(ids: seq<string>, c: Cluster, reg: Registry) {
    && |c.nodes| == |ids|
    && (forall i :: 0 <= i < |ids| ==> KnownNode(reg, c.nodes[i]) && Past(reg, ids[i], c.nodes[i].clock))
    && (forall k :: 0 <= k < |c.sent| ==> Known(reg, c.sent[k].cache))
  }

  ghost predicate Extends(reg: Registry, reg': Registry) {
    forall v :: v in reg ==> v in reg' && reg'[v] == reg[v]
  }

  lemma KnownMore(reg: Registry, reg': Registry, n: Node)
    requires Extends(reg, reg') && KnownNode(reg, n)
    ensures KnownNode(reg', n)
  {
  }

  lemma OnWireKnown(reg: Registry, s: Live)
    requires Known(reg, s.cache)
    ensures Known(reg, OnWire(s).cache)
  {
    forall name | name in s.cache ensures Names(reg, name, OnWire(s).cache[name]) {
      CoarseTwice(s.cache[name].expiresAt);
    }
  }

  lemma {:induction false} ReplayKnown(reg: Registry, s: Live, self: string, wal: seq<Log>, after: int)
    requires Known(reg, s.cache) && KnownLog(reg, wal)
    ensures Known(reg, Replay(s, self, wal, after).cache)
    decreases |wal|
  {
    if wal != [] { ReplayKnown(reg, s, self, wal[..|wal| - 1], after); }
  }

  lemma AdoptKnown(reg: Registry, n: Node, name: Key, e: CacheEntry, w: int)
    requires KnownNode(reg, n) && Names(reg, name, e) && 0 < e.timestamp
    ensures KnownNode(reg, Adopt(n, name, e, w))
  {
    CoarseTwice(e.expiresAt);
  }

  lemma {:induction false} AdoptAllKnown(reg: Registry, n: Node, peer: Live, order: seq<(Key, int)>)
    requires KnownNode(reg, n) && Known(reg, peer.cache) && Versioned(peer) && Ticks(n.clock, order)
    ensures var m := AdoptAll(n, peer, order);
            KnownNode(reg, m) && n.clock <= m.clock <= LastTick(n.clock, order)
    decreases |order|
  {
    if order != [] {
      var front := order[..|order| - 1];
      AdoptAllKnown(reg, n, peer, front);
      var (name, w) := order[|order| - 1];
      if name in peer.cache { AdoptKnown(reg, AdoptAll(n, peer, front), name, peer.cache[name], w); }
    }
  }

  /** What a write adds: a plain Set is known under its live and under its logged version. */
  ghost function Added(ids: seq<string>, op: Op): Registry
    requires op.node < |ids|
  {
    var self := ids[op.node];
    match op
    case Set(_, name, value, ttl, t, e, w) =>
      var expiresAt := Coarse(if ttl > 0 then Some(e + ttl) else None);
      map[(name, t, self) := CacheEntry(value, expiresAt, t, self),
          (name, w, self) := CacheEntry(value, expiresAt, w, self)]
    case Commit(_, name, value, t, w) => map[(name, t, self) := CacheEntry(value, None, t, self)]
    case _ => map[]
  }

  /** Only this writer's, and only under times not yet past. */
  lemma AddedIsNew(ids: seq<string>, c: Cluster, op: Op, v: (Key, int, string))
    requires Enabled(c, op) && op.node < |ids| && v in Added(ids, op)
    ensures v.2 == ids[op.node] && c.nodes[op.node].clock < v.1 <= Time(op)
  {
  }

  /** The last reading of the clock that a write makes. */
  ghost function Time(op: Op): int {
    match op
    case Set(_, _, _, _, _, _, w) => w
    case Commit(_, _, _, _, w) => w
    case _ => 0
  }

  lemma AddedExtends(ids: seq<string>, c: Cluster, reg: Registry, op: Op)
    requires Enabled(c, op) && op.node < |ids| && Past(reg, ids[op.node], c.nodes[op.node].clock)
    ensures Extends(reg, reg + Added(ids, op))
  {
    forall v | v in Added(ids, op) ensures v !in reg { AddedIsNew(ids, c, op, v); }
  }

  lemma CommitKnown(reg: Registry, n: Node, self: string, name: Key, value: string, t: int, w: int)
    requires KnownNode(reg, n) && t != 0 && Names(reg, name, CacheEntry(value, None, t, self))
    ensures KnownNode(reg, DoCommit(n, self, name, value, t, w))
  {
  }

  /** The other steps write no cache entry. */
  lemma OtherKnown(ids: seq<string>, c: Cluster, reg: Registry, op: Op)
    requires |c.nodes| == |ids| && Enabled(c, op) && KnownNode(reg, c.nodes[op.node])
    requires op.Consume? || op.See? || op.Cleanup? || op.Publish? || op.Rotate?
    ensures KnownNode(reg, Effect(ids, c, op))
  {
  }

  lemma EffectClock(ids: seq<string>, c: Cluster, op: Op)
    requires |c.nodes| == |ids| && Enabled(c, op) && !op.Deliver? && 0 < c.nodes[op.node].clock
    ensures c.nodes[op.node].clock <= Effect(ids, c, op).clock && Time(op) <= Effect(ids, c, op).clock
  {
  }

  lemma EffectKnown(ids: seq<string>, c: Cluster, reg: Registry, op: Op)
    requires |c.nodes| == |ids| && Enabled(c, op) && KnownNode(reg, c.nodes[op.node])
    requires Past(reg, ids[op.node], c.nodes[op.node].clock) && 0 < c.nodes[op.node].clock
    requires op.Deliver? ==> Known(reg, c.sent[op.message].cache) && Versioned(c.sent[op.message])
    ensures KnownNode(reg + Added(ids, op), Effect(ids, c, op))
    ensures c.nodes[op.node].clock <= Effect(ids, c, op).clock && Time(op) <= Effect(ids, c, op).clock
  {
    var n, self, reg' := c.nodes[op.node], ids[op.node], reg + Added(ids, op);
    AddedExtends(ids, c, reg, op);
    KnownMore(reg, reg', n);
    if !op.Deliver? { EffectClock(ids, c, op); }
    match op
    case Set(_, name, value, ttl, t, e, w) => SetKnown(reg', n, self, name, value, ttl, t, e, w);
    case Commit(_, name, value, t, w) => CommitKnown(reg', n, self, name, value, t, w);
    case Deliver(_, k, order) =>
      assert reg' == reg;
      AdoptAllKnown(reg, n.(live := MergedSets(n.live, c.sent[k])), c.sent[k], order);
    case Checkpoint(_, at) => OnWireKnown(reg', n.live);
    case Crash(_) => ReplayKnown(reg', Base(n.disk).state, self, n.disk.wal, Base(n.disk).at);
    case _ => OtherKnown(ids, c, reg', op);
  }

  lemma SetKnown(reg: Registry, n: Node, self: string, name: Key, value: string, ttl: int, t: int, e: int, w: int)
    requires KnownNode(reg, n) && w != 0
    requires var expiresAt := if ttl > 0 then Some(e + ttl) else None;
             Names(reg, name, CacheEntry(value, expiresAt, t, self))
                   && Names(reg, name, CacheEntry(value, Coarse(expiresAt), w, self))
    ensures KnownNode(reg, DoSet(n, self, name, value, ttl, t, e, w))
  {
  }

  /** One node's step keeps what is known of the others. */
  lemma TrackedAfter(ids: seq<string>, c: Cluster, reg: Registry, reg': Registry, i: nat, n: Node)
    requires Distinct(ids) && Tracked(ids, c, reg) && i < |ids| && Extends(reg, reg')
    requires KnownNode(reg', n) && Past(reg', ids[i], n.clock)
    requires forall v :: v in reg' && v !in reg ==> v.2 == ids[i]
    ensures Tracked(ids, Cluster(c.nodes[i := n], c.sent), reg')
  {
    forall j | 0 <= j < |ids| && j != i ensures KnownNode(reg', c.nodes[j]) && Past(reg', ids[j], c.nodes[j].clock) {
      KnownMore(reg, reg', c.nodes[j]);
      assert ids[i] != ids[j];
    }
  }

  lemma TrackedStep(ids: seq<string>, c: Cluster, reg: Registry, op: Op)
    requires Distinct(ids) && Sound(ids, c) && Tracked(ids, c, reg) && Enabled(c, op)
    ensures Tracked(ids, Do(ids, c, op), reg + Added(ids, op))
  {
    var i, n, reg' := op.node, Effect(ids, c, op), reg + Added(ids, op);
    assert Past(reg, ids[i], c.nodes[i].clock);
    EffectKnown(ids, c, reg, op);
    AddedExtends(ids, c, reg, op);
    forall v | v in reg' && v !in reg ensures v.2 == ids[i] && v.1 <= n.clock { AddedIsNew(ids, c, op, v); }
    TrackedAfter(ids, c, reg, reg', i, n);
    if op.Publish? { OnWireKnown(reg', c.nodes[i].live); }
  }

  lemma {:induction false} AlwaysTracked(ids: seq<string>, ops: seq<Op>) returns (reg: Registry)
    requires Distinct(ids)
    ensures Tracked(ids, After(ids, ops), reg)
    decreases |ops|
  {
    reg := map[];
    if ops != [] {
      var front := ops[..|ops| - 1];
      reg := AlwaysTracked(ids, front);
      AlwaysSound(ids, front);
      var c := After(ids, front);
      if Enabled(c, ops[|ops| - 1]) {
        TrackedStep(ids, c, reg, ops[|ops| - 1]);
        reg := reg + Added(ids, ops[|ops| - 1]);
      }
    }
  }

  /** The caches that occur in a cluster: live, in snapshots and in messages. */
  ghost predicate Occurs(c: Cluster, cache: map<Key, CacheEntry>) {
    || (exists i :: 0 <= i < |c.nodes|
                    && (cache == c.nodes[i].live.cache || cache == Base(c.nodes[i].disk).state.cache))
    || (exists k :: 0 <= k < |c.sent| && cache == c.sent[k].cache)
  }

  /** Two entries for a key under the same (timestamp, node), wherever they are in whatever run, carry the
      same value and the same expiry in milliseconds. */
  lemma SameVersionSameEntry(ids: seq<string>, ops: seq<Op>, a: map<Key, CacheEntry>, b: map<Key, CacheEntry>,
      name: Key)
    requires Distinct(ids) && Occurs(After(ids, ops), a) && Occurs(After(ids, ops), b)
    requires name in a && name in b && a[name].timestamp == b[name].timestamp && a[name].node == b[name].node
    ensures CoarseEntry(a[name]) == CoarseEntry(b[name])
  {
    var reg := AlwaysTracked(ids, ops);
    assert Names(reg, name, a[name]) && Names(reg, name, b[name]);
  }
}
