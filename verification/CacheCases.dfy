/** A run of the mesh in which a value that was overwritten is read again. */
module CacheCases {
  import opened Wrappers
  import opened MeshNode
  import opened Recovery
  import opened Mesh
  import MeshConvergence

  /** Node i is at this time, not in a checkpoint, and has this under the name. */
  ghost predicate Holds(c: Cluster, i: nat, name: Key, clock: int, e: Option<CacheEntry>) {
    && i < |c.nodes| && !c.nodes[i].rotating && c.nodes[i].clock == clock
    && EntryOf(c.nodes[i].live, name) == e
  }

  /** The k-th message has this under the name. */
  ghost predicate Carries(c: Cluster, k: nat, name: Key, e: CacheEntry) {
    k < |c.sent| && EntryOf(c.sent[k], name) == Some(e)
  }

  ghost predicate OthersStay(c: Cluster, i: nat, r: Cluster) {
    |r.nodes| == |c.nodes| && forall j :: 0 <= j < |c.nodes| && j != i ==> r.nodes[j] == c.nodes[j]
  }

  lemma Then(ids: seq<string>, ops: seq<Op>, op: Op)
    ensures After(ids, ops + [op]) == Do(ids, After(ids, ops), op)
  {
    Snoc(ops, op);
  }

  lemma SetHolds(ids: seq<string>, c: Cluster, i: nat, name: Key, value: string, ttl: int, clock: int, t: int, e: int,
      w: int, was: Option<CacheEntry>)
    requires |c.nodes| == |ids| && Holds(c, i, name, clock, was) && SetTimes(clock, ttl, t, e, w)
    ensures var r := Do(ids, c, Op.Set(i, name, value, ttl, t, e, w));
            && Holds(r, i, name, w, Some(CacheEntry(value, if ttl > 0 then Some(e + ttl) else None, t, ids[i])))
            && OthersStay(c, i, r) && r.sent == c.sent
  {
  }

  lemma PublishHolds(ids: seq<string>, c: Cluster, i: nat, name: Key, clock: int, e: CacheEntry)
    requires |c.nodes| == |ids| && Holds(c, i, name, clock, Some(e))
    ensures var r := Do(ids, c, Publish(i));
            r.nodes == c.nodes && |r.sent| == |c.sent| + 1 && Carries(r, |c.sent|, name, CoarseEntry(e))
  {
  }

  lemma DeliverHolds(ids: seq<string>, c: Cluster, i: nat, k: nat, name: Key, clock: int, w: int,
      mine: Option<CacheEntry>, theirs: CacheEntry)
    requires |c.nodes| == |ids| && Holds(c, i, name, clock, mine) && Carries(c, k, name, theirs) && clock < w
    ensures var r := Do(ids, c, Deliver(i, k, [(name, w)]));
            && OthersStay(c, i, r) && r.sent == c.sent
            && if Newer(c.nodes[i].live.cache, name, theirs) then Holds(r, i, name, w, Some(CoarseEntry(theirs)))
               else Holds(r, i, name, clock, mine)
  {
    var n, peer, order := c.nodes[i], c.sent[k], [(name, w)];
    assert order[..|order| - 1] == [];
    assert Ticks(n.clock, []) && LastTick(n.clock, []) == n.clock;
    assert Enabled(c, Deliver(i, k, order));
    MeshConvergence.AdoptOne(n.(live := MergedSets(n.live, peer)), peer, name, w);
  }

  lemma CleanupHolds(ids: seq<string>, c: Cluster, i: nat, name: Key, clock: int, e: CacheEntry, now: int)
    requires |c.nodes| == |ids| && Holds(c, i, name, clock, Some(e)) && clock < now && Expired(e, now)
    ensures var r := Do(ids, c, Cleanup(i, now)); Holds(r, i, name, now, None) && r.sent == c.sent
  {
  }

  // ----- the run -----

  /** Node 0 sets a value without expiry and node 1 hears of it. */
  ghost function Known(name: Key, was: string): seq<Op> {
    [] + [Op.Set(0, name, was, 0, MILLI + 1, 0, MILLI + 2)] + [Publish(0)] + [Deliver(1, 0, [(name, MILLI + 1)])]
  }

  /** Node 0 overwrites it by a value with a ttl, and node 1 sends what it has. */
  ghost function Overwritten(name: Key, was: string, value: string, ttl: int): seq<Op> {
    Known(name, was) + [Op.Set(0, name, value, ttl, MILLI + 3, MILLI + 4, MILLI + 5)] + [Publish(1)]
  }

  /** Just after the newer value has expired. */
  function Late(ttl: int): int {
    MILLI + 5 + ttl
  }

  lemma Told(ids: seq<string>, name: Key, was: string)
    requires 2 <= |ids|
    ensures var e := CacheEntry(was, None, MILLI + 1, ids[0]);
            var c := After(ids, [] + [Op.Set(0, name, was, 0, MILLI + 1, 0, MILLI + 2)] + [Publish(0)]);
            && Holds(c, 0, name, MILLI + 2, Some(e)) && Holds(c, 1, name, MILLI, None)
            && |c.sent| == 1 && Carries(c, 0, name, e)
  {
    var first := Op.Set(0, name, was, 0, MILLI + 1, 0, MILLI + 2);
    var c := Empty(ids);
    assert c.nodes[0] == NEW_NODE && c.nodes[1] == NEW_NODE;
    Then(ids, [], first);
    SetHolds(ids, c, 0, name, was, 0, MILLI, MILLI + 1, 0, MILLI + 2, None);
    Then(ids, [] + [first], Publish(0));
    PublishHolds(ids, Do(ids, c, first), 0, name, MILLI + 2, CacheEntry(was, None, MILLI + 1, ids[0]));
  }

  lemma Heard(ids: seq<string>, name: Key, was: string)
    requires 2 <= |ids|
    ensures var c, e := After(ids, Known(name, was)), CacheEntry(was, None, MILLI + 1, ids[0]);
            Holds(c, 0, name, MILLI + 2, Some(e)) && Holds(c, 1, name, MILLI + 1, Some(e)) && |c.sent| == 1
  {
    Told(ids, name, was);
    var front := [] + [Op.Set(0, name, was, 0, MILLI + 1, 0, MILLI + 2)] + [Publish(0)];
    Then(ids, front, Deliver(1, 0, [(name, MILLI + 1)]));
    DeliverHolds(ids, After(ids, front), 1, 0, name, MILLI, MILLI + 1, None, CacheEntry(was, None, MILLI + 1, ids[0]));
  }

  lemma Sent(ids: seq<string>, name: Key, was: string, value: string, ttl: int)
    requires 2 <= |ids| && 0 < ttl
    ensures var c := After(ids, Overwritten(name, was, value, ttl));
            && Holds(c, 0, name, MILLI + 5, Some(CacheEntry(value, Some(MILLI + 4 + ttl), MILLI + 3, ids[0])))
            && Carries(c, 1, name, CacheEntry(was, None, MILLI + 1, ids[0]))
  {
    Heard(ids, name, was);
    var e := CacheEntry(was, None, MILLI + 1, ids[0]);
    var c, three := After(ids, Known(name, was)), Op.Set(0, name, value, ttl, MILLI + 3, MILLI + 4, MILLI + 5);
    Then(ids, Known(name, was), three);
    SetHolds(ids, c, 0, name, value, ttl, MILLI + 2, MILLI + 3, MILLI + 4, MILLI + 5, Some(e));
    Then(ids, Known(name, was) + [three], Publish(1));
    PublishHolds(ids, Do(ids, c, three), 1, name, MILLI + 1, e);
  }

  /** The newer value is read until it expires, and a merge of the older one then changes nothing; but once the expired
      entry has been cleaned up the same merge brings the older value back. */
  lemma OverwrittenReturns(ids: seq<string>, name: Key, was: string, value: string, ttl: int)
    requires 2 <= |ids| && 0 < ttl
    ensures var ops, late := Overwritten(name, was, value, ttl), Late(ttl);
            && Get(After(ids, ops).nodes[0].live, name, MILLI + 5) == Some(value)
            && Get(After(ids, ops + [Deliver(0, 1, [(name, late)])]).nodes[0].live, name, late) == None
            && Get(After(ids, ops + [Cleanup(0, late)] + [Deliver(0, 1, [(name, late + 1)])]).nodes[0].live, name,
                   late + 1) == Some(was)
  {
    Sent(ids, name, was, value, ttl);
    var ops, late := Overwritten(name, was, value, ttl), Late(ttl);
    var older := CacheEntry(was, None, MILLI + 1, ids[0]);
    var newer := CacheEntry(value, Some(MILLI + 4 + ttl), MILLI + 3, ids[0]);
    var c := After(ids, ops);
    Then(ids, ops, Deliver(0, 1, [(name, late)]));
    DeliverHolds(ids, c, 0, 1, name, MILLI + 5, late, Some(newer), older);
    Then(ids, ops, Cleanup(0, late));
    CleanupHolds(ids, c, 0, name, MILLI + 5, newer, late);
    Then(ids, ops + [Cleanup(0, late)], Deliver(0, 1, [(name, late + 1)]));
    DeliverHolds(ids, Do(ids, c, Cleanup(0, late)), 0, 1, name, late, late + 1, None, older);
  }
}
