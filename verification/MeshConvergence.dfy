/** Convergence of the mesh: once writing stops, counters, nonces and caches depend only on whose news
    arrived, not on the order, the repetition or the staleness of the exchanges. */
module MeshConvergence {
  import opened Wrappers
  import opened Order
  import opened Crdt
  import opened MeshNode
  import opened Recovery
  import opened Mesh
  import opened CacheVersions
  import Gossip = Convergence

  // ----- what is replicated -----

  function NonEmpty(limiters: map<string, Counts>): (r: map<string, Counts>)
    ensures forall k :: CountsOf(r, k) == CountsOf(limiters, k)
  {
    map k | k in limiters && limiters[k] != map[] :: limiters[k]
  }

  /** A state without the counters that nothing was counted on yet, and with expiries in milliseconds. */
  function Essence(s: Live): Live {
    OnWire(s).(limiters := NonEmpty(s.limiters))
  }

  function Later(mine: CacheEntry, peer: CacheEntry): CacheEntry {
    if VersionLess(mine.timestamp, mine.node, peer.timestamp, peer.node) then peer else mine
  }

  function JoinCaches(a: map<Key, CacheEntry>, b: map<Key, CacheEntry>): (r: map<Key, CacheEntry>)
    ensures r.Keys == a.Keys + b.Keys
  {
    map k | k in a.Keys + b.Keys :: if k !in b then a[k] else if k !in a then b[k] else Later(a[k], b[k])
  }

  function JoinLimiters(a: map<string, Counts>, b: map<string, Counts>): (r: map<string, Counts>)
    ensures r.Keys == a.Keys + b.Keys
  {
    map k | k in a.Keys + b.Keys :: MergedCounts(CountsOf(a, k), CountsOf(b, k))
  }

  function Join(a: Live, b: Live): Live {
    Live(JoinLimiters(a.limiters, b.limiters), a.seen + b.seen, JoinCaches(a.cache, b.cache))
  }

  // ----- it is a join -----

  ghost predicate Plain(reg: Registry, s: Live) {
    Known(reg, s.cache) && forall k :: k in s.cache ==> CoarseEntry(s.cache[k]) == s.cache[k]
  }

  lemma LaterLaws(a: CacheEntry, b: CacheEntry, c: CacheEntry)
    ensures Later(a, a) == a
    ensures (a.timestamp == b.timestamp && a.node == b.node ==> a == b) ==> Later(a, b) == Later(b, a)
    ensures Later(Later(a, b), c) == Later(a, Later(b, c))
  {
    VersionTotal(a.timestamp, a.node, a.timestamp, a.node);
    VersionTotal(a.timestamp, a.node, b.timestamp, b.node);
    VersionTotal(b.timestamp, b.node, c.timestamp, c.node);
    VersionTotal(a.timestamp, a.node, c.timestamp, c.node);
    LaterTransitive(a, b, c);
    LaterTransitive(a, c, b);
    LaterTransitive(b, a, c);
    LaterTransitive(c, b, a);
  }

  lemma LaterTransitive(a: CacheEntry, b: CacheEntry, c: CacheEntry)
    ensures VersionLess(a.timestamp, a.node, b.timestamp, b.node) &&
            VersionLess(b.timestamp, b.node, c.timestamp, c.node) ==>
              VersionLess(a.timestamp, a.node, c.timestamp, c.node)
  {
    if VersionLess(a.timestamp, a.node, b.timestamp, b.node) && VersionLess(b.timestamp, b.node, c.timestamp, c.node) {
      VersionTransitive(a.timestamp, a.node, b.timestamp, b.node, c.timestamp, c.node);
    }
  }

  lemma JoinCachesCommutes(reg: Registry, a: Live, b: Live)
    requires Plain(reg, a) && Plain(reg, b)
    ensures JoinCaches(a.cache, b.cache) == JoinCaches(b.cache, a.cache)
  {
    forall k | k in a.cache && k in b.cache ensures Later(a.cache[k], b.cache[k]) == Later(b.cache[k], a.cache[k]) {
      assert Names(reg, k, a.cache[k]) && Names(reg, k, b.cache[k]);
      LaterLaws(a.cache[k], b.cache[k], a.cache[k]);
    }
  }

  lemma JoinCachesAssociates(a: map<Key, CacheEntry>, b: map<Key, CacheEntry>, c: map<Key, CacheEntry>)
    ensures JoinCaches(JoinCaches(a, b), c) == JoinCaches(a, JoinCaches(b, c))
  {
    var l, r := JoinCaches(JoinCaches(a, b), c), JoinCaches(a, JoinCaches(b, c));
    assert l.Keys == r.Keys;
    forall k | k in l ensures l[k] == r[k] {
      if k in a && k in b && k in c { LaterLaws(a[k], b[k], c[k]); }
    }
  }

  lemma JoinCachesIdempotent(a: map<Key, CacheEntry>)
    ensures JoinCaches(a, a) == a
  {
  }

  lemma JoinLimitersIdempotent(a: map<string, Counts>)
    ensures JoinLimiters(a, a) == a
  {
    forall k | k in a ensures MergedCounts(a[k], a[k]) == a[k] { MergedCountsLaws(a[k], a[k], a[k]); }
  }

  lemma JoinLimitersCommutes(a: map<string, Counts>, b: map<string, Counts>)
    ensures JoinLimiters(a, b) == JoinLimiters(b, a)
  {
    forall k | k in a.Keys + b.Keys ensures JoinLimiters(a, b)[k] == JoinLimiters(b, a)[k] {
      MergedCountsLaws(CountsOf(a, k), CountsOf(b, k), map[]);
    }
  }

  lemma JoinLimitersAt(a: map<string, Counts>, b: map<string, Counts>, k: string)
    ensures CountsOf(JoinLimiters(a, b), k) == MergedCounts(CountsOf(a, k), CountsOf(b, k))
  {
    assert k !in a && k !in b ==> MergedCounts(map[], map[]) == map[];
  }

  lemma JoinLimitersAssociates(a: map<string, Counts>, b: map<string, Counts>, c: map<string, Counts>)
    ensures JoinLimiters(JoinLimiters(a, b), c) == JoinLimiters(a, JoinLimiters(b, c))
  {
    var l, r := JoinLimiters(JoinLimiters(a, b), c), JoinLimiters(a, JoinLimiters(b, c));
    assert l.Keys == r.Keys;
    forall k | k in l ensures l[k] == r[k] {
      JoinLimitersAt(a, b, k);
      JoinLimitersAt(b, c, k);
      MergedCountsLaws(CountsOf(a, k), CountsOf(b, k), CountsOf(c, k));
    }
  }

  lemma JoinPlain(reg: Registry, a: Live, b: Live)
    requires Plain(reg, a) && Plain(reg, b)
    ensures Plain(reg, Join(a, b))
  {
  }

  lemma JoinPair(reg: Registry, a: Live, b: Live)
    requires Plain(reg, a) && Plain(reg, b)
    ensures Plain(reg, Join(a, b)) && Join(a, b) == Join(b, a) && Join(a, a) == a
  {
    JoinPlain(reg, a, b);
    JoinCachesCommutes(reg, a, b);
    JoinLimitersCommutes(a.limiters, b.limiters);
    JoinCachesIdempotent(a.cache);
    JoinLimitersIdempotent(a.limiters);
  }

  lemma JoinAssociates(reg: Registry, a: Live, b: Live, c: Live)
    requires Plain(reg, a) && Plain(reg, b) && Plain(reg, c)
    ensures Join(Join(a, b), c) == Join(a, Join(b, c))
  {
    JoinCachesAssociates(a.cache, b.cache, c.cache);
    JoinLimitersAssociates(a.limiters, b.limiters, c.limiters);
  }

  lemma JoinLawful(reg: Registry)
    ensures Gossip.Lawful(s => Plain(reg, s), Join)
  {
    forall a, b | Plain(reg, a) && Plain(reg, b)
      ensures Plain(reg, Join(a, b)) && Join(a, b) == Join(b, a) && Join(a, a) == a
    {
      JoinPair(reg, a, b);
    }
    forall a, b, c | Plain(reg, a) && Plain(reg, b) && Plain(reg, c)
      ensures Join(Join(a, b), c) == Join(a, Join(b, c))
    {
      JoinAssociates(reg, a, b, c);
    }
  }

  // ----- a merge computes it -----

  ghost function NamesIn(order: seq<(Key, int)>): set<Key> {
    set i | 0 <= i < |order| :: order[i].0
  }

  /** The cache after adopting the entries under some names. */
  ghost function MergedOn(mine: map<Key, CacheEntry>, peer: map<Key, CacheEntry>,
      names: set<Key>): map<Key, CacheEntry> {
    map k | k in mine.Keys + peer.Keys * names ::
      if k in peer && k in names && Newer(mine, k, peer[k]) then CoarseEntry(peer[k]) else mine[k]
  }

  lemma {:induction false} AdoptAllCache(n: Node, peer: Live, order: seq<(Key, int)>)
    ensures AdoptAll(n, peer, order).live.cache == MergedOn(n.live.cache, peer.cache, NamesIn(order))
    decreases |order|
  {
    if order == [] {
      assert NamesIn(order) == {};
    } else {
      var front := order[..|order| - 1];
      AdoptAllCache(n, peer, front);
      var (name, w) := order[|order| - 1];
      assert NamesIn(order) == NamesIn(front) + {name};
      MergedOnMore(n.live.cache, peer.cache, NamesIn(front), name);
    }
  }

  lemma MergedOnMore(mine: map<Key, CacheEntry>, peer: map<Key, CacheEntry>, names: set<Key>, name: Key)
    ensures var now := MergedOn(mine, peer, names);
            MergedOn(mine, peer, names + {name}) ==
            if name in peer && Newer(now, name, peer[name]) then now[name := CoarseEntry(peer[name])] else now
  {
    if name in peer { VersionTotal(peer[name].timestamp, peer[name].node, peer[name].timestamp, peer[name].node); }
  }

  lemma MergedOnCovers(mine: map<Key, CacheEntry>, peer: map<Key, CacheEntry>, order: seq<(Key, int)>)
    requires Covers(mine, peer, order)
    ensures MergedOn(mine, peer, NamesIn(order)) == MergedOn(mine, peer, peer.Keys)
  {
    forall name | name in peer && Newer(mine, name, peer[name]) ensures name in NamesIn(order) {
      assert InOrder(order, name);
    }
  }

  lemma MergedOnWire(s: Live, mine: Live, peer: Live)
    requires s.cache == MergedOn(mine.cache, peer.cache, peer.cache.Keys)
    ensures OnWire(s).cache == JoinCaches(OnWire(mine).cache, OnWire(peer).cache)
  {
    forall name | name in peer.cache
      ensures CoarseEntry(CoarseEntry(peer.cache[name])) == CoarseEntry(peer.cache[name])
    {
      CoarseTwice(peer.cache[name].expiresAt);
    }
    SameMaps(OnWire(s).cache, JoinCaches(OnWire(mine).cache, OnWire(peer).cache));
  }

  lemma DoMergeCache(n: Node, peer: Live, order: seq<(Key, int)>)
    requires Covers(n.live.cache, peer.cache, order)
    ensures OnWire(DoMerge(n, peer, order).live).cache == JoinCaches(OnWire(n.live).cache, OnWire(peer).cache)
  {
    AdoptAllCache(n.(live := MergedSets(n.live, peer)), peer, order);
    MergedOnCovers(n.live.cache, peer.cache, order);
    MergedOnWire(DoMerge(n, peer, order).live, n.live, peer);
  }

  /** Without a cleanup an entry, expired or not, gives way to a newer one of the peer's only. */
  lemma StaleStaysOut(n: Node, peer: Live, order: seq<(Key, int)>, name: Key)
    requires name in n.live.cache && Covers(n.live.cache, peer.cache, order)
    ensures var r := DoMerge(n, peer, order).live.cache;
            && name in r
            && r[name] == if name in peer.cache && Newer(n.live.cache, name, peer.cache[name])
                          then CoarseEntry(peer.cache[name]) else n.live.cache[name]
  {
    AdoptAllCache(n.(live := MergedSets(n.live, peer)), peer, order);
    MergedOnCovers(n.live.cache, peer.cache, order);
  }

  /** A name that a cleanup took away is there again after a merge exactly when the peer has it, and then as the peer's
      entry, however old: nothing remembers the version that expired. */
  lemma CleanedComesBackIff(n: Node, peer: Live, order: seq<(Key, int)>, name: Key, now: int)
    requires name in n.live.cache && Expired(n.live.cache[name], now)
    requires Covers(DoCleanup(n, now).live.cache, peer.cache, order)
    ensures var r := DoMerge(DoCleanup(n, now), peer, order).live.cache;
            && (name in r <==> name in peer.cache)
            && (name in peer.cache ==> r[name] == CoarseEntry(peer.cache[name]))
  {
    var m := DoCleanup(n, now);
    AdoptAllCache(m.(live := MergedSets(m.live, peer)), peer, order);
    MergedOnCovers(m.live.cache, peer.cache, order);
  }

  lemma AdoptOne(n: Node, peer: Live, name: Key, w: int)
    requires name in peer.cache
    ensures AdoptAll(n, peer, [(name, w)]) == Adopt(n, name, peer.cache[name], w)
  {
    assert [(name, w)][..0] == [];
    assert AdoptAll(n, peer, []) == n;
  }

  lemma MergedLimitersAt(mine: map<string, Counts>, peer: map<string, Counts>, k: string)
    ensures var l, r := NonEmpty(MergedLimiters(mine, peer)), JoinLimiters(NonEmpty(mine), NonEmpty(peer));
            (k in l <==> k in r) && (k in l ==> l[k] == r[k])
  {
    var merged := MergedCounts(CountsOf(mine, k), CountsOf(peer, k));
    assert merged == map[] <==> CountsOf(mine, k) == map[] && CountsOf(peer, k) == map[] by {
      assert merged.Keys == CountsOf(mine, k).Keys + CountsOf(peer, k).Keys;
      assert merged == map[] ==> merged.Keys == {};
    }
  }

  lemma MergedLimitersJoin(mine: map<string, Counts>, peer: map<string, Counts>)
    ensures NonEmpty(MergedLimiters(mine, peer)) == JoinLimiters(NonEmpty(mine), NonEmpty(peer))
  {
    var l, r := NonEmpty(MergedLimiters(mine, peer)), JoinLimiters(NonEmpty(mine), NonEmpty(peer));
    assert forall k :: (k in l <==> k in r) && (k in l ==> l[k] == r[k]) by {
      forall k ensures (k in l <==> k in r) && (k in l ==> l[k] == r[k]) { MergedLimitersAt(mine, peer, k); }
    }
    SameMaps(l, r);
  }

  /** A merge that tries every entry of the peer's turns what is replicated into the join. */
  lemma MergeIsJoin(n: Node, peer: Live, order: seq<(Key, int)>)
    requires Covers(n.live.cache, peer.cache, order)
    ensures Essence(DoMerge(n, peer, order).live) == Join(Essence(n.live), Essence(peer))
  {
    DoMergeCache(n, peer, order);
    MergedLimitersJoin(n.live.limiters, peer.limiters);
    AdoptAllKeeps(n.(live := MergedSets(n.live, peer)), peer, order);
  }

  lemma EssenceTwice(s: Live)
    ensures Essence(OnWire(s)) == Essence(s)
  {
    forall k | k in s.cache ensures CoarseEntry(CoarseEntry(s.cache[k])) == CoarseEntry(s.cache[k]) {
      CoarseTwice(s.cache[k].expiresAt);
    }
  }

  lemma EssencePlain(reg: Registry, s: Live)
    requires Known(reg, s.cache)
    ensures Plain(reg, Essence(s))
  {
    OnWireKnown(reg, s);
    forall k | k in s.cache ensures CoarseEntry(CoarseEntry(s.cache[k])) == CoarseEntry(s.cache[k]) {
      CoarseTwice(s.cache[k].expiresAt);
    }
  }

  // ----- once writing stops -----

  /** A phase without writes: states are sent and merged, and checkpoints go on. A crash, which forgets what was heard
      and not logged, and a cleanup, which forgets a version, end the phase: they belong to the `ops` of the next. */
  ghost predicate Exchanging(ids: seq<string>, ops: seq<Op>, more: seq<Op>)
    decreases |more|
  {
    more == [] ||
    (Exchanging(ids, ops, more[..|more| - 1]) && Exchange(After(ids, ops + more[..|more| - 1]), more[|more| - 1]))
  }

  ghost function Steps(more: seq<Op>): seq<Gossip.Step>
    decreases |more|
  {
    if more == [] then [] else Steps(more[..|more| - 1]) + StepOf(more[|more| - 1])
  }

  ghost function StepOf(op: Op): seq<Gossip.Step> {
    match op
    case Publish(i) => [Gossip.Send(i)]
    case Deliver(i, k, _) => [Gossip.Step.Deliver(i, k)]
    case _ => []
  }

  /** What the nodes hold, then what is under way. */
  ghost function Essences(c: Cluster): (r: seq<Live>)
    ensures |r| == |c.nodes| + |c.sent|
    ensures forall i :: 0 <= i < |c.nodes| ==> r[i] == Essence(c.nodes[i].live)
    ensures forall k :: 0 <= k < |c.sent| ==> r[|c.nodes| + k] == Essence(c.sent[k])
  {
    seq(|c.nodes|, i requires 0 <= i < |c.nodes| => Essence(c.nodes[i].live)) +
    seq(|c.sent|, k requires 0 <= k < |c.sent| => Essence(c.sent[k]))
  }

  ghost predicate Mirrors(c: Cluster, net: Gossip.Net<Live>) {
    && |c.nodes| == |net.nodes| && |c.sent| == |net.sent|
    && (forall i :: 0 <= i < |c.nodes| ==> Essence(c.nodes[i].live) == net.nodes[i].state)
    && (forall k :: 0 <= k < |c.sent| ==> Essence(c.sent[k]) == net.sent[k].state)
  }

  ghost predicate Exchange(c: Cluster, op: Op) {
    Enabled(c, op) &&
    match op
    case Deliver(i, k, order) => Covers(c.nodes[i].live.cache, c.sent[k].cache, order)
    case Publish(_) => true
    case Checkpoint(_, _) => true
    case Rotate(_) => true
    case _ => false
  }

  /** A message or a merge does what the abstract network does; checkpoints change nothing. */
  lemma MirrorStep(ids: seq<string>, c: Cluster, net: Gossip.Net<Live>, op: Op)
    requires |c.nodes| == |ids| && Mirrors(c, net) && Exchange(c, op)
    ensures Mirrors(Do(ids, c, op), if StepOf(op) == [] then net else Gossip.Next(Join, net, StepOf(op)[0]))
  {
    if op.Publish? { EssenceTwice(c.nodes[op.node].live); }
    if op.Deliver? { MergeIsJoin(c.nodes[op.node], c.sent[op.message], op.order); }
  }

  lemma RunOneMore(start: Gossip.Net<Live>, steps: seq<Gossip.Step>, op: Op)
    ensures var net := Gossip.Run(Join, start, steps);
            Gossip.Run(Join, start, steps + StepOf(op)) ==
              if StepOf(op) == [] then net else Gossip.Next(Join, net, StepOf(op)[0])
  {
    if StepOf(op) == [] {
      assert steps + [] == steps;
    } else {
      var all := steps + StepOf(op);
      assert all[..|all| - 1] == steps && all[|all| - 1] == StepOf(op)[0];
    }
  }

  lemma MirrorStart(ids: seq<string>, c: Cluster)
    requires |c.nodes| == |ids|
    ensures Mirrors(c, Gossip.Start(Essences(c), |ids|))
  {
    var net := Gossip.Start(Essences(c), |ids|);
    forall k | 0 <= k < |c.sent| ensures Essence(c.sent[k]) == net.sent[k].state {
      assert net.sent[k].state == Essences(c)[|ids| + k];
    }
  }

  lemma AfterMore(ids: seq<string>, ops: seq<Op>, more: seq<Op>)
    requires more != []
    ensures After(ids, ops + more) == Do(ids, After(ids, ops + more[..|more| - 1]), more[|more| - 1])
  {
    FrontOfBoth(ops, more);
  }

  lemma {:induction false} ExchangesMirror(ids: seq<string>, ops: seq<Op>, more: seq<Op>)
    requires Exchanging(ids, ops, more)
    ensures Mirrors(After(ids, ops + more),
                    Gossip.Run(Join, Gossip.Start(Essences(After(ids, ops)), |ids|), Steps(more)))
    decreases |more|
  {
    var start := Gossip.Start(Essences(After(ids, ops)), |ids|);
    if more == [] {
      assert ops + more == ops;
      MirrorStart(ids, After(ids, ops));
    } else {
      var front, op := more[..|more| - 1], more[|more| - 1];
      ExchangesMirror(ids, ops, front);
      AfterMore(ids, ops, more);
      MirrorStep(ids, After(ids, ops + front), Gossip.Run(Join, start, Steps(front)), op);
      RunOneMore(start, Steps(front), op);
    }
  }

  /** What two converged states share: every count, every nonce, and every cache entry with its version and
      its expiry in milliseconds. */
  ghost predicate Alike(a: Live, b: Live) {
    && (forall key :: CountsOf(a.limiters, key) == CountsOf(b.limiters, key))
    && a.seen == b.seen
    && a.cache.Keys == b.cache.Keys
    && forall name :: name in a.cache ==> CoarseEntry(a.cache[name]) == CoarseEntry(b.cache[name])
  }

  lemma SameEssenceAlike(a: Live, b: Live)
    requires Essence(a) == Essence(b)
    ensures Alike(a, b)
  {
    forall key ensures CountsOf(a.limiters, key) == CountsOf(b.limiters, key) {
      assert CountsOf(NonEmpty(a.limiters), key) == CountsOf(NonEmpty(b.limiters), key);
    }
    assert OnWire(a).cache.Keys == OnWire(b).cache.Keys;
    forall name | name in a.cache ensures CoarseEntry(a.cache[name]) == CoarseEntry(b.cache[name]) {
      assert OnWire(a).cache[name] == OnWire(b).cache[name];
    }
  }

  lemma SourcePlain(reg: Registry, c: Cluster, k: nat)
    requires k < |Essences(c)| && (forall i :: 0 <= i < |c.nodes| ==> Known(reg, c.nodes[i].live.cache))
    requires forall i :: 0 <= i < |c.sent| ==> Known(reg, c.sent[i].cache)
    ensures Plain(reg, Essences(c)[k])
  {
    if k < |c.nodes| { EssencePlain(reg, c.nodes[k].live); } else { EssencePlain(reg, c.sent[k - |c.nodes|]); }
  }

  lemma SourcesPlain(ids: seq<string>, ops: seq<Op>) returns (reg: Registry)
    requires Distinct(ids)
    ensures Gossip.Lawful(s => Plain(reg, s), Join)
    ensures forall k :: 0 <= k < |Essences(After(ids, ops))| ==> Plain(reg, Essences(After(ids, ops))[k])
  {
    reg := AlwaysTracked(ids, ops);
    var c := After(ids, ops);
    JoinLawful(reg);
    forall i | 0 <= i < |c.nodes| ensures Known(reg, c.nodes[i].live.cache) { assert KnownNode(reg, c.nodes[i]); }
    forall k | 0 <= k < |Essences(c)| ensures Plain(reg, Essences(c)[k]) { SourcePlain(reg, c, k); }
  }

  /** After any run of writes, crashes and exchanges, let writing stop. Each node's state is then the join, the
      least upper bound, of the states of exactly the sources it has heard from since. */
  lemma MeshHoldsTheJoin(ids: seq<string>, ops: seq<Op>, more: seq<Op>, i: nat) returns (reg: Registry)
    requires Distinct(ids) && i < |ids| && Exchanging(ids, ops, more)
    ensures Gossip.Lawful(s => Plain(reg, s), Join)
    ensures var sources := Essences(After(ids, ops));
            var net := Gossip.Run(Join, Gossip.Start(sources, |ids|), Steps(more));
            |net.nodes| == |ids| &&
            Gossip.IsJoinOf(s => Plain(reg, s), Join, Essence(After(ids, ops + more).nodes[i].live), sources,
                            net.nodes[i].from)
  {
    reg := SourcesPlain(ids, ops);
    ExchangesMirror(ids, ops, more);
    Gossip.GossipExact(s => Plain(reg, s), Join, Essences(After(ids, ops)), |ids|, Steps(more));
  }

  /** Convergence: two nodes that heard from the same sources, in any two schedules of stale, repeated and
      reordered deliveries, agree on every counter, every nonce and every cache entry. */
  lemma MeshConverges(ids: seq<string>, ops: seq<Op>, moreA: seq<Op>, moreB: seq<Op>, i: nat, j: nat)
    requires Distinct(ids) && i < |ids| && j < |ids| && Exchanging(ids, ops, moreA) && Exchanging(ids, ops, moreB)
    ensures var start := Gossip.Start(Essences(After(ids, ops)), |ids|);
            var a, b := Gossip.Run(Join, start, Steps(moreA)), Gossip.Run(Join, start, Steps(moreB));
            && |a.nodes| == |b.nodes| == |ids|
            && (a.nodes[i].from == b.nodes[j].from ==>
                  Alike(After(ids, ops + moreA).nodes[i].live, After(ids, ops + moreB).nodes[j].live))
  {
    var reg := SourcesPlain(ids, ops);
    ExchangesMirror(ids, ops, moreA);
    ExchangesMirror(ids, ops, moreB);
    Gossip.GossipConverges(s => Plain(reg, s), Join, Essences(After(ids, ops)), |ids|, Steps(moreA), Steps(moreB), i,
                           j);
    var a, b := After(ids, ops + moreA).nodes[i].live, After(ids, ops + moreB).nodes[j].live;
    if Essence(a) == Essence(b) { SameEssenceAlike(a, b); }
  }
}
