/** Many nodes' copies of one sorted set: any interleaving of local writes with deliveries of stale,
    repeated or reordered snapshots, without restarts. */
module Replicas {
  import opened Wrappers
  import opened Order
  import opened Members
  import Gossip = Convergence

  datatype Op =
    | Add(node: nat, member: string, score: real)
    | Remove(node: nat, member: string, now: int)
    | Exchange(step: Gossip.Step)

  datatype Cluster = Cluster(replicas: seq<Replica>, sent: seq<MemberMap>)

  ghost function Empty(ids: seq<string>): Cluster {
    Cluster(seq(|ids|, i => Replica(map[], 0)), [])
  }

  ghost function Do(ids: seq<string>, c: Cluster, op: Op): Cluster
    requires |c.replicas| == |ids|
    ensures |Do(ids, c, op).replicas| == |ids|
  {
    match op
    case Add(i, member, score) =>
      if i < |ids| then c.(replicas := c.replicas[i := AddTo(c.replicas[i], ids[i], member, score)]) else c
    case Remove(i, member, now) =>
      if i < |ids| then c.(replicas := c.replicas[i := RemoveFrom(c.replicas[i], ids[i], member, now)]) else c
    case Exchange(Send(i)) =>
      if i < |ids| then c.(sent := c.sent + [c.replicas[i].members]) else c
    case Exchange(Deliver(i, k)) =>
      if i < |ids| && k < |c.sent| then c.(replicas := c.replicas[i := MergeInto(c.replicas[i], c.sent[k])]) else c
  }

  ghost function After(ids: seq<string>, ops: seq<Op>): (c: Cluster)
    ensures |c.replicas| == |ids|
    decreases |ops|
  {
    if ops == [] then Empty(ids) else Do(ids, After(ids, ops[..|ops| - 1]), ops[|ops| - 1])
  }

  // ----- a version names one record -----

  type Registry = map<(int, string), Member>

  /** Every record ever written, by the version it was written under. */
  ghost function Written(ids: seq<string>, ops: seq<Op>): Registry
    decreases |ops|
  {
    if ops == [] then map[]
    else
      var before := After(ids, ops[..|ops| - 1]);
      var now := After(ids, ops);
      var reg := Written(ids, ops[..|ops| - 1]);
      match ops[|ops| - 1]
      case Add(i, member, _) =>
        if i < |ids| then reg[(now.replicas[i].clock, ids[i]) := now.replicas[i].members[member]] else reg
      case Remove(i, member, _) =>
        if i < |ids| && member in before.replicas[i].members
        then reg[(now.replicas[i].clock, ids[i]) := now.replicas[i].members[member]] else reg
      case Exchange(_) => reg
  }

  ghost predicate Tracked(ids: seq<string>, c: Cluster, reg: Registry) {
    && |c.replicas| == |ids|
    && (forall i :: 0 <= i < |ids| ==> Coherent(reg, c.replicas[i].members) && 0 <= c.replicas[i].clock)
    && (forall k :: 0 <= k < |c.sent| ==> Coherent(reg, c.sent[k]))
    && (forall i, t :: 0 <= i < |ids| && (t, ids[i]) in reg ==> t <= c.replicas[i].clock)
  }

  /** A write under this replica's next time uses a version nothing carries yet. */
  lemma TrackedWrite(ids: seq<string>, c: Cluster, reg: Registry, i: nat, record: Member)
    requires Distinct(ids) && Tracked(ids, c, reg) && i < |ids|
    requires record.timestamp == c.replicas[i].clock + 1 && record.node == ids[i]
    ensures var now := Replica(c.replicas[i].members[record.member := record], record.timestamp);
            Tracked(ids, c.(replicas := c.replicas[i := now]),
                    reg[(record.timestamp, ids[i]) := record])
  {
    var reg' := reg[(record.timestamp, ids[i]) := record];
    assert (record.timestamp, ids[i]) !in reg;
    forall mm: MemberMap | Coherent(reg, mm) ensures Coherent(reg', mm) && Coherent(reg', mm[record.member := record]) {
    }
    var c' := c.(replicas := c.replicas[i := Replica(c.replicas[i].members[record.member := record],
                                                     record.timestamp)]);
    forall j | 0 <= j < |ids| ensures Coherent(reg', c'.replicas[j].members) {
      assert Coherent(reg, c.replicas[j].members);
    }
    forall j, t | 0 <= j < |ids| && (t, ids[j]) in reg' ensures t <= c'.replicas[j].clock {
      if j != i { assert ids[j] != ids[i] && (t, ids[j]) in reg; }
    }
  }

  lemma TrackedAdd(ids: seq<string>, c: Cluster, reg: Registry, i: nat, member: string, score: real)
    requires Distinct(ids) && Tracked(ids, c, reg) && i < |ids|
    ensures var r := AddTo(c.replicas[i], ids[i], member, score);
            Tracked(ids, c.(replicas := c.replicas[i := r]), reg[(r.clock, ids[i]) := r.members[member]])
  {
    TrackedWrite(ids, c, reg, i, AddTo(c.replicas[i], ids[i], member, score).members[member]);
  }

  lemma TrackedRemove(ids: seq<string>, c: Cluster, reg: Registry, i: nat, member: string, now: int)
    requires Distinct(ids) && Tracked(ids, c, reg) && i < |ids| && member in c.replicas[i].members
    ensures var r := RemoveFrom(c.replicas[i], ids[i], member, now);
            Tracked(ids, c.(replicas := c.replicas[i := r]), reg[(r.clock, ids[i]) := r.members[member]])
  {
    assert c.replicas[i].members[member].member == member;
    TrackedWrite(ids, c, reg, i, RemoveFrom(c.replicas[i], ids[i], member, now).members[member]);
  }

  lemma TrackedExchange(ids: seq<string>, c: Cluster, reg: Registry, step: Gossip.Step)
    requires Tracked(ids, c, reg)
    ensures Tracked(ids, Do(ids, c, Exchange(step)), reg)
  {
    if step.Deliver? && step.node < |ids| && step.message < |c.sent| {
      MergedCoherent(reg, c.replicas[step.node].members, c.sent[step.message]);
    }
  }

  /** In every reachable state a version names one record: each record, in any replica or snapshot under
      way, is the one that was written under its (timestamp, node). */
  lemma {:induction false} AlwaysTracked(ids: seq<string>, ops: seq<Op>)
    requires Distinct(ids)
    ensures Tracked(ids, After(ids, ops), Written(ids, ops))
    decreases |ops|
  {
    if ops != [] {
      AlwaysTracked(ids, ops[..|ops| - 1]);
      var c, reg := After(ids, ops[..|ops| - 1]), Written(ids, ops[..|ops| - 1]);
      match ops[|ops| - 1]
      case Add(i, member, score) => if i < |ids| { TrackedAdd(ids, c, reg, i, member, score); }
      case Remove(i, member, now) =>
        if i < |ids| && member in c.replicas[i].members { TrackedRemove(ids, c, reg, i, member, now); }
      case Exchange(step) => TrackedExchange(ids, c, reg, step);
    }
  }

  /** The member maps that occur in a cluster: the replicas', then the snapshots under way. */
  ghost function Maps(c: Cluster): (maps: seq<MemberMap>)
    ensures |maps| == |c.replicas| + |c.sent|
    ensures forall i :: 0 <= i < |c.replicas| ==> maps[i] == c.replicas[i].members
    ensures forall k :: 0 <= k < |c.sent| ==> maps[|c.replicas| + k] == c.sent[k]
  {
    seq(|c.replicas|, i requires 0 <= i < |c.replicas| => c.replicas[i].members) + c.sent
  }

  /** Two records with the same (timestamp, node), wherever they are, are the same record. */
  lemma SameVersionSameRecord(ids: seq<string>, ops: seq<Op>, i: nat, j: nat, m: string, n: string)
    requires Distinct(ids)
    ensures var maps := Maps(After(ids, ops));
            i < |maps| && j < |maps| && m in maps[i] && n in maps[j]
            && maps[i][m].timestamp == maps[j][n].timestamp && maps[i][m].node == maps[j][n].node
            ==> maps[i][m] == maps[j][n] && m == n
  {
    AlwaysTracked(ids, ops);
    var maps := Maps(After(ids, ops));
    forall k | 0 <= k < |maps| ensures Coherent(Written(ids, ops), maps[k]) {
      MapsCoherent(ids, After(ids, ops), Written(ids, ops), k);
    }
  }

  lemma MapsCoherent(ids: seq<string>, c: Cluster, reg: Registry, k: nat)
    requires Tracked(ids, c, reg) && k < |Maps(c)|
    ensures Coherent(reg, Maps(c)[k])
  {
    if k >= |c.replicas| { assert Maps(c)[k] == c.sent[k - |c.replicas|]; }
  }

  /** On reachable maps, tombstones included, the merge is commutative, associative and idempotent. */
  lemma ReachableMergeIsJoin(ids: seq<string>, ops: seq<Op>)
    requires Distinct(ids)
    ensures var reg := Written(ids, ops);
            && Gossip.Lawful(mm => Coherent(reg, mm), Merged)
            && forall k :: 0 <= k < |Maps(After(ids, ops))| ==> Coherent(reg, Maps(After(ids, ops))[k])
  {
    var reg := Written(ids, ops);
    AlwaysTracked(ids, ops);
    forall k | 0 <= k < |Maps(After(ids, ops))| ensures Coherent(reg, Maps(After(ids, ops))[k]) {
      MapsCoherent(ids, After(ids, ops), reg, k);
    }
    forall a, b | Coherent(reg, a) && Coherent(reg, b)
      ensures Coherent(reg, Merged(a, b)) && Merged(a, b) == Merged(b, a)
    {
      MergedCoherent(reg, a, b);
      MergedCommutes(reg, a, b);
    }
    forall a | Coherent(reg, a) ensures Merged(a, a) == a { MergedIdempotent(a, a); }
    forall a, b, c | Coherent(reg, a) && Coherent(reg, b) && Coherent(reg, c)
      ensures Merged(Merged(a, b), c) == Merged(a, Merged(b, c))
    {
      MergedAssociates(a, b, c);
    }
  }

  // ----- once local writes stop -----

  ghost function Exchanges(steps: seq<Gossip.Step>): (ops: seq<Op>)
    ensures |ops| == |steps| && forall k :: 0 <= k < |steps| ==> ops[k] == Exchange(steps[k])
  {
    seq(|steps|, k requires 0 <= k < |steps| => Exchange(steps[k]))
  }

  /** The cluster's maps and the abstract network's states agree. */
  ghost predicate Mirrors(c: Cluster, net: Gossip.Net<MemberMap>) {
    && |c.replicas| == |net.nodes| && |c.sent| == |net.sent|
    && (forall i :: 0 <= i < |c.replicas| ==> c.replicas[i].members == net.nodes[i].state)
    && (forall k :: 0 <= k < |c.sent| ==> c.sent[k] == net.sent[k].state)
  }

  lemma MirrorStep(ids: seq<string>, c: Cluster, net: Gossip.Net<MemberMap>, step: Gossip.Step)
    requires |c.replicas| == |ids| && Mirrors(c, net)
    ensures Mirrors(Do(ids, c, Exchange(step)), Gossip.Next(Merged, net, step))
  {
  }

  lemma MirrorStart(ids: seq<string>, c: Cluster)
    requires |c.replicas| == |ids|
    ensures Mirrors(c, Gossip.Start(Maps(c), |ids|))
  {
    var net := Gossip.Start(Maps(c), |ids|);
    forall i | 0 <= i < |c.replicas| ensures c.replicas[i].members == net.nodes[i].state {
      assert net.nodes[i].state == Maps(c)[i];
    }
    forall k | 0 <= k < |c.sent| ensures c.sent[k] == net.sent[k].state {
      assert net.sent[k].state == Maps(c)[|ids| + k];
    }
  }

  lemma AfterMore(ids: seq<string>, ops: seq<Op>, steps: seq<Gossip.Step>)
    requires steps != []
    ensures After(ids, ops + Exchanges(steps)) ==
            Do(ids, After(ids, ops + Exchanges(steps[..|steps| - 1])), Exchange(steps[|steps| - 1]))
  {
    FrontOfBoth(ops, Exchanges(steps));
    assert Exchanges(steps)[..|steps| - 1] == Exchanges(steps[..|steps| - 1]);
  }

  lemma {:induction false} ExchangesMirror(ids: seq<string>, ops: seq<Op>, steps: seq<Gossip.Step>)
    ensures Mirrors(After(ids, ops + Exchanges(steps)),
                    Gossip.Run(Merged, Gossip.Start(Maps(After(ids, ops)), |ids|), steps))
    decreases |steps|
  {
    if steps == [] {
      assert ops + Exchanges(steps) == ops;
      MirrorStart(ids, After(ids, ops));
    } else {
      var front := steps[..|steps| - 1];
      ExchangesMirror(ids, ops, front);
      AfterMore(ids, ops, steps);
      MirrorStep(ids, After(ids, ops + Exchanges(front)),
                 Gossip.Run(Merged, Gossip.Start(Maps(After(ids, ops)), |ids|), front), steps[|steps| - 1]);
    }
  }

  /** After any run let writing stop. Each replica's member map is then the join, the least upper bound under
      merging, of the maps of exactly the sources it has heard from since. */
  lemma SetsHoldTheJoin(ids: seq<string>, ops: seq<Op>, steps: seq<Gossip.Step>, i: nat)
    requires Distinct(ids) && i < |ids|
    ensures Gossip.Lawful(mm => Coherent(Written(ids, ops), mm), Merged)
    ensures var maps := Maps(After(ids, ops));
            var net := Gossip.Run(Merged, Gossip.Start(maps, |ids|), steps);
            |net.nodes| == |ids| &&
            Gossip.IsJoinOf(mm => Coherent(Written(ids, ops), mm), Merged,
                            After(ids, ops + Exchanges(steps)).replicas[i].members, maps, net.nodes[i].from)
  {
    ReachableMergeIsJoin(ids, ops);
    ExchangesMirror(ids, ops, steps);
    Gossip.GossipExact(mm => Coherent(Written(ids, ops), mm), Merged, Maps(After(ids, ops)), |ids|, steps);
  }

  /** Convergence: after writing stops, two nodes that heard from the same sources, in any two schedules of
      stale, repeated and reordered deliveries, hold the same records, tombstones included, and so the
      same live entries. */
  lemma SortedSetsConverge(ids: seq<string>, ops: seq<Op>, stepsA: seq<Gossip.Step>, stepsB: seq<Gossip.Step>,
      i: nat, j: nat)
    requires Distinct(ids) && i < |ids| && j < |ids|
    ensures var start := Gossip.Start(Maps(After(ids, ops)), |ids|);
            var a, b := Gossip.Run(Merged, start, stepsA), Gossip.Run(Merged, start, stepsB);
            && |a.nodes| == |b.nodes| == |ids|
            && (a.nodes[i].from == b.nodes[j].from ==>
                  After(ids, ops + Exchanges(stepsA)).replicas[i].members ==
                    After(ids, ops + Exchanges(stepsB)).replicas[j].members)
  {
    ReachableMergeIsJoin(ids, ops);
    ExchangesMirror(ids, ops, stepsA);
    ExchangesMirror(ids, ops, stepsB);
    Gossip.GossipConverges(mm => Coherent(Written(ids, ops), mm), Merged, Maps(After(ids, ops)), |ids|, stepsA, stepsB,
                           i, j);
  }

  // ----- what a remote removal does -----

  /** A removal reaches a peer that holds a live record of the member exactly when the tombstone outranks
      that record: by score, or on equal scores by the remover's own clock and name. */
  lemma RemovalReaches(remover: Replica, node: string, peer: Replica, member: string, now: int)
    requires member in remover.members && member in peer.members && !peer.members[member].tombstone
    ensures var mine, theirs := remover.members[member], peer.members[member];
            MergeInto(peer, RemoveFrom(remover, node, member, now).members).members[member].tombstone
            <==> mine.score > theirs.score
                 || (mine.score == theirs.score && VersionLess(theirs.timestamp, theirs.node, remover.clock + 1, node))
  {
    LexTotal(node, peer.members[member].node);
  }

  /** Adding a member a peer knows of, too: the peer takes the new record over exactly when its score is higher than the
      peer's, or equal with a newer version, or when the peer has that very record. A score that is lowered below the
      peer's is lost on both sides. */
  lemma AddReaches(writer: Replica, node: string, peer: Replica, member: string, score: real)
    requires member in peer.members
    ensures var added, theirs := AddTo(writer, node, member, score), peer.members[member];
            MergeInto(peer, added.members).members[member] == added.members[member]
            <==> score > theirs.score || theirs == added.members[member]
                 || (score == theirs.score && VersionLess(theirs.timestamp, theirs.node, added.clock, node))
    ensures var added, theirs := AddTo(writer, node, member, score), peer.members[member];
            score < theirs.score ==>
              && MergeInto(peer, added.members).members[member] == theirs
              && MergeInto(added, peer.members).members[member] == theirs
  {
    LexTotal(node, peer.members[member].node);
  }

  lemma OneMore(ids: seq<string>, ops: seq<Op>, k: nat)
    requires k < |ops|
    ensures After(ids, ops[..k + 1]) == Do(ids, After(ids, ops[..k]), ops[k])
  {
    assert ops[..k + 1][..k] == ops[..k];
  }

  ghost predicate Live(c: Cluster, i: nat, member: string) {
    i < |c.replicas| && member in c.replicas[i].members && !c.replicas[i].members[member].tombstone
  }

  /** Node 0 writes m three times; node 1 learns of it and then removes it. */
  const LATE_REMOVE := [Add(0, "m", 1.0), Add(0, "m", 1.0), Add(0, "m", 1.0),
                        Exchange(Gossip.Send(0)), Exchange(Gossip.Deliver(1, 0)), Remove(1, "m", 7)]

  /** Then each hears from the other. */
  const HEAR_ALL := [Exchange(Gossip.Send(1)), Exchange(Gossip.Deliver(0, 1)),
                     Exchange(Gossip.Send(0)), Exchange(Gossip.Deliver(1, 2))]

  const HELD: MemberMap := map["m" := Member("m", 1.0, 3, "a", false, 0)]
  const LOST: MemberMap := map["m" := Member("m", 1.0, 2, "b", true, 7)]
  const NONE: MemberMap := map[]

  const ONCE: MemberMap := map["m" := Member("m", 1.0, 1, "a", false, 0)]
  const TWICE: MemberMap := map["m" := Member("m", 1.0, 2, "a", false, 0)]

  lemma LostRecords()
    ensures AddTo(Replica(NONE, 0), "a", "m", 1.0) == Replica(ONCE, 1)
    ensures AddTo(Replica(ONCE, 1), "a", "m", 1.0) == Replica(TWICE, 2)
    ensures AddTo(Replica(TWICE, 2), "a", "m", 1.0) == Replica(HELD, 3)
    ensures RemoveFrom(Replica(HELD, 1), "b", "m", 7) == Replica(LOST, 2)
  {
  }

  lemma LostMerges()
    ensures MergeInto(Replica(NONE, 0), HELD) == Replica(HELD, 1)
    ensures MergeInto(Replica(HELD, 3), LOST) == Replica(HELD, 4)
    ensures MergeInto(Replica(LOST, 2), HELD) == Replica(HELD, 3)
  {
  }

  /** What one step makes of two replicas. */
  lemma TwoStep(ids: seq<string>, ops: seq<Op>, k: nat, a: Replica, b: Replica, sent: seq<MemberMap>, r: Replica)
    requires k < |ops| && ids == ["a", "b"] && After(ids, ops[..k]) == Cluster([a, b], sent)
    ensures ops[k] == Add(0, "m", 1.0) && AddTo(a, "a", "m", 1.0) == r ==>
              After(ids, ops[..k + 1]) == Cluster([r, b], sent)
    ensures ops[k] == Remove(1, "m", 7) && RemoveFrom(b, "b", "m", 7) == r ==>
              After(ids, ops[..k + 1]) == Cluster([a, r], sent)
    ensures ops[k] == Exchange(Gossip.Send(0)) ==> After(ids, ops[..k + 1]) == Cluster([a, b], sent + [a.members])
    ensures ops[k] == Exchange(Gossip.Send(1)) ==> After(ids, ops[..k + 1]) == Cluster([a, b], sent + [b.members])
  {
    OneMore(ids, ops, k);
    assert [a, b][0 := r] == [r, b] && [a, b][1 := r] == [a, r];
  }

  lemma TwoHear(ids: seq<string>, ops: seq<Op>, k: nat, a: Replica, b: Replica, sent: seq<MemberMap>, m: nat,
                r: Replica)
    requires k < |ops| && ids == ["a", "b"] && After(ids, ops[..k]) == Cluster([a, b], sent) && m < |sent|
    ensures ops[k] == Exchange(Gossip.Deliver(0, m)) && MergeInto(a, sent[m]) == r ==>
              After(ids, ops[..k + 1]) == Cluster([r, b], sent)
    ensures ops[k] == Exchange(Gossip.Deliver(1, m)) && MergeInto(b, sent[m]) == r ==>
              After(ids, ops[..k + 1]) == Cluster([a, r], sent)
  {
    OneMore(ids, ops, k);
    assert [a, b][0 := r] == [r, b] && [a, b][1 := r] == [a, r];
  }

  lemma LostWrites(ids: seq<string>, ops: seq<Op>)
    requires ids == ["a", "b"] && ops == LATE_REMOVE + HEAR_ALL
    ensures After(ids, ops[..3]) == Cluster([Replica(HELD, 3), Replica(NONE, 0)], [])
  {
    LostRecords();
    var b := Replica(NONE, 0);
    assert After(ids, ops[..0]).replicas == [b, b];
    TwoStep(ids, ops, 0, b, b, [], Replica(ONCE, 1));
    TwoStep(ids, ops, 1, Replica(ONCE, 1), b, [], Replica(TWICE, 2));
    TwoStep(ids, ops, 2, Replica(TWICE, 2), b, [], Replica(HELD, 3));
  }

  lemma LostLearns(ids: seq<string>, ops: seq<Op>)
    requires ids == ["a", "b"] && ops == LATE_REMOVE + HEAR_ALL
    requires After(ids, ops[..3]) == Cluster([Replica(HELD, 3), Replica(NONE, 0)], [])
    ensures After(ids, ops[..6]) == Cluster([Replica(HELD, 3), Replica(LOST, 2)], [HELD])
  {
    LostRecords();
    LostMerges();
    var a := Replica(HELD, 3);
    TwoStep(ids, ops, 3, a, Replica(NONE, 0), [], a);
    assert [] + [HELD] == [HELD];
    TwoHear(ids, ops, 4, a, Replica(NONE, 0), [HELD], 0, Replica(HELD, 1));
    TwoStep(ids, ops, 5, a, Replica(HELD, 1), [HELD], Replica(LOST, 2));
  }

  lemma LostKept(ids: seq<string>, ops: seq<Op>)
    requires ids == ["a", "b"] && ops == LATE_REMOVE + HEAR_ALL
    requires After(ids, ops[..6]) == Cluster([Replica(HELD, 3), Replica(LOST, 2)], [HELD])
    ensures After(ids, ops[..8]) == Cluster([Replica(HELD, 4), Replica(LOST, 2)], [HELD, LOST])
  {
    LostMerges();
    assert ops[6] == HEAR_ALL[0] && ops[7] == HEAR_ALL[1];
    TwoStep(ids, ops, 6, Replica(HELD, 3), Replica(LOST, 2), [HELD], Replica(HELD, 3));
    assert [HELD] + [LOST] == [HELD, LOST];
    TwoHear(ids, ops, 7, Replica(HELD, 3), Replica(LOST, 2), [HELD, LOST], 1, Replica(HELD, 4));
  }

  lemma LostReturns(ids: seq<string>, ops: seq<Op>)
    requires ids == ["a", "b"] && ops == LATE_REMOVE + HEAR_ALL
    requires After(ids, ops[..8]) == Cluster([Replica(HELD, 4), Replica(LOST, 2)], [HELD, LOST])
    ensures After(ids, ops[..10]) == Cluster([Replica(HELD, 4), Replica(HELD, 3)], [HELD, LOST, HELD])
  {
    LostMerges();
    assert ops[8] == HEAR_ALL[2] && ops[9] == HEAR_ALL[3];
    TwoStep(ids, ops, 8, Replica(HELD, 4), Replica(LOST, 2), [HELD, LOST], Replica(HELD, 4));
    assert [HELD, LOST] + [HELD] == [HELD, LOST, HELD];
    TwoHear(ids, ops, 9, Replica(HELD, 4), Replica(LOST, 2), [HELD, LOST, HELD], 2, Replica(HELD, 3));
  }

  /** So a removal can be lost everywhere: the tombstone carries the remover's own time, 2, and loses to
      the record of time 3, which then comes back to the remover. */
  lemma RemovalCanBeLost()
    ensures var gone, back := After(["a", "b"], LATE_REMOVE), After(["a", "b"], LATE_REMOVE + HEAR_ALL);
            Live(gone, 0, "m") && !Live(gone, 1, "m") && Live(back, 0, "m") && Live(back, 1, "m")
  {
    var ids, ops := ["a", "b"], LATE_REMOVE + HEAR_ALL;
    LostWrites(ids, ops);
    LostLearns(ids, ops);
    LostKept(ids, ops);
    LostReturns(ids, ops);
    assert ops[..6] == LATE_REMOVE && ops[..10] == ops;
  }
}
