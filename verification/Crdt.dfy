/** The grow-only counter and the grow-only set. */
module Crdt {
  import opened Wrappers

  type Counts = map<string, nat>

  /** The counter's value: the sum over its nodes. */
  ghost function Total(c: Counts): nat
    decreases |c|
  {
    if c == map[] then 0 else
      var k :| k in c;
      c[k] + Total(c - {k})
  }

  /** The sum does not depend on the order of summation. */
  lemma {:induction false} TotalTakes(c: Counts, k: string)
    requires k in c
    ensures Total(c) == c[k] + Total(c - {k})
    decreases |c|
  {
    var j :| j in c && Total(c) == c[j] + Total(c - {j});
    if j != k {
      TotalTakes(c - {j}, k);
      TotalTakes(c - {k}, j);
      assert c - {j} - {k} == c - {k} - {j};
    }
  }

  function Slot(c: Counts, node: string): nat {
    if node in c then c[node] else 0
  }

  lemma SlotAtMostTotal(c: Counts, node: string)
    ensures Slot(c, node) <= Total(c)
  {
    if node in c { TotalTakes(c, node); }
  }

  function Incremented(c: Counts, node: string): Counts {
    c[node := Slot(c, node) + 1]
  }

  lemma IncrementAddsOne(c: Counts, node: string)
    ensures Total(Incremented(c, node)) == Total(c) + 1
  {
    TotalTakes(Incremented(c, node), node);
    assert Incremented(c, node) - {node} == c - {node};
    if node in c { TotalTakes(c, node); } else { assert c - {node} == c; }
  }

  /** Slot by slot the larger count. */
  function MergedCounts(mine: Counts, peer: Counts): (r: Counts)
    ensures r.Keys == mine.Keys + peer.Keys
    ensures forall n :: Slot(r, n) == if Slot(mine, n) >= Slot(peer, n) then Slot(mine, n) else Slot(peer, n)
  {
    map n | n in mine.Keys + peer.Keys ::
      if n !in mine then peer[n] else if n !in peer then mine[n] else if peer[n] > mine[n] then peer[n] else mine[n]
  }

  lemma SameSlotsSameCounts(a: Counts, b: Counts)
    requires a.Keys == b.Keys && forall n :: Slot(a, n) == Slot(b, n)
    ensures a == b
  {
    forall n | n in a ensures a[n] == b[n] { assert Slot(a, n) == Slot(b, n); }
  }

  /** The merge is a join. */
  lemma MergedCountsLaws(a: Counts, b: Counts, c: Counts)
    ensures MergedCounts(a, a) == a
    ensures MergedCounts(a, b) == MergedCounts(b, a)
    ensures MergedCounts(MergedCounts(a, b), c) == MergedCounts(a, MergedCounts(b, c))
  {
    SameSlotsSameCounts(MergedCounts(a, a), a);
    SameSlotsSameCounts(MergedCounts(a, b), MergedCounts(b, a));
    MergedCountsAssociates(a, b, c);
  }

  lemma MergedCountsAssociates(a: Counts, b: Counts, c: Counts)
    ensures MergedCounts(MergedCounts(a, b), c) == MergedCounts(a, MergedCounts(b, c))
  {
    var x, y := MergedCounts(MergedCounts(a, b), c), MergedCounts(a, MergedCounts(b, c));
    assert x.Keys == y.Keys;
    forall n ensures Slot(x, n) == Slot(y, n) {
      assert Slot(MergedCounts(a, b), n) == if Slot(a, n) >= Slot(b, n) then Slot(a, n) else Slot(b, n);
      assert Slot(MergedCounts(b, c), n) == if Slot(b, n) >= Slot(c, n) then Slot(b, n) else Slot(c, n);
    }
    SameSlotsSameCounts(x, y);
  }

  /** The peer's counts that are merged already. */
  ghost function CountsDone(peer: Counts, rest: set<string>): Counts {
    map n | n in peer && n !in rest :: peer[n]
  }

  lemma MergedCountsStep(mine: Counts, peer: Counts, rest: set<string>, n: string)
    requires n in rest && n in peer
    ensures var now := MergedCounts(mine, CountsDone(peer, rest));
            MergedCounts(mine, CountsDone(peer, rest - {n})) ==
            if n !in now || peer[n] > now[n] then now[n := peer[n]] else now
  {
    var now := MergedCounts(mine, CountsDone(peer, rest));
    var next := MergedCounts(mine, CountsDone(peer, rest - {n}));
    assert CountsDone(peer, rest - {n}) == CountsDone(peer, rest)[n := peer[n]];
    var target := if n !in now || peer[n] > now[n] then now[n := peer[n]] else now;
    forall k ensures (k in next <==> k in target) && (k in next ==> next[k] == target[k]) {
    }
    SameMaps(next, target);
  }

  lemma MergedCountsEnds(mine: Counts, peer: Counts)
    ensures MergedCounts(mine, CountsDone(peer, peer.Keys)) == mine
    ensures CountsDone(peer, {}) == peer
  {
  }

  class GCounter {
    var counts: Counts

    constructor ()
      ensures counts == map[]
    {
      counts := map[];
    }

    /** A counter with the counts of a snapshot. */
    constructor Restore(counts: Counts)
      ensures this.counts == counts
    {
      this.counts := counts;
    }

    method Increment(node: string)
      modifies this
      ensures counts == Incremented(old(counts), node)
      ensures forall n :: Slot(counts, n) == Slot(old(counts), n) + (if n == node then 1 else 0)
    {
      counts := counts[node := Slot(counts, node) + 1];
    }

    /** The sum of all counts, in any order. */
    method Value() returns (total: nat)
      ensures total == Total(counts)
    {
      total := 0;
      var rest := counts;
      while rest != map[]
        invariant total + Total(rest) == Total(counts)
        decreases |rest|
      {
        var k :| k in rest;
        TotalTakes(rest, k);
        total := total + rest[k];
        rest := rest - {k};
      }
    }

    /** Adopts every count of the peer that is unknown here or larger. */
    method Merge(peer: Counts)
      modifies this
      ensures counts == MergedCounts(old(counts), peer)
      ensures forall n :: Slot(counts, n) ==
                          if Slot(old(counts), n) >= Slot(peer, n) then Slot(old(counts), n) else Slot(peer, n)
    {
      MergedCountsEnds(counts, peer);
      var rest := peer.Keys;
      while rest != {}
        invariant rest <= peer.Keys && counts == MergedCounts(old(counts), CountsDone(peer, rest))
      {
        var n :| n in rest;
        MergedCountsStep(old(counts), peer, rest, n);
        if n !in counts || peer[n] > counts[n] {
          counts := counts[n := peer[n]];
        }
        rest := rest - {n};
      }
    }
  }

  class GSet {
    var items: set<string>

    constructor Restore(items: set<string>)
      ensures this.items == items
    {
      this.items := items;
    }

    method Add(item: string)
      modifies this
      ensures items == old(items) + {item}
    {
      items := items + {item};
    }

    method Contains(item: string) returns (found: bool)
      ensures found <==> item in items
    {
      found := item in items;
    }

    method Merge(other: set<string>)
      modifies this
      ensures items == old(items) + other
    {
      var rest := other;
      while rest != {}
        invariant rest <= other && items == old(items) + (other - rest)
      {
        var item :| item in rest;
        items := items + {item};
        rest := rest - {item};
      }
    }
  }
}
