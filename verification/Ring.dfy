/** The consistent-hash ring: a map from points to nodes and the sorted list of points, in which a point can
    occur more than once. */
module Rings {
  import opened Wrappers
  import opened Numerals
  import opened RingOrder
  import opened FullRings

  ghost predicate Ascending(keys: seq<Hash>) {
    forall i, j :: 0 <= i < j < |keys| ==> keys[i] <= keys[j]
  }

  ghost function KeySet(keys: seq<Hash>): set<Hash> {
    set k | k in keys
  }

  function InsertKey(sorted: seq<Hash>, k: Hash): seq<Hash> {
    if sorted == [] || sorted[|sorted| - 1] <= k then sorted + [k]
    else InsertKey(sorted[..|sorted| - 1], k) + [sorted[|sorted| - 1]]
  }

  function SortKeys(keys: seq<Hash>): seq<Hash> {
    if keys == [] then [] else InsertKey(SortKeys(keys[..|keys| - 1]), keys[|keys| - 1])
  }

  lemma KeySetMore(s: seq<Hash>, k: Hash)
    ensures KeySet(s + [k]) == KeySet(s) + {k}
  {
  }

  lemma {:induction false} InsertKeyKeys(sorted: seq<Hash>, k: Hash)
    ensures KeySet(InsertKey(sorted, k)) == KeySet(sorted) + {k}
  {
    if sorted == [] || sorted[|sorted| - 1] <= k {
      KeySetMore(sorted, k);
    } else {
      var front, last := sorted[..|sorted| - 1], sorted[|sorted| - 1];
      InsertKeyKeys(front, k);
      KeySetMore(InsertKey(front, k), last);
      KeySetMore(front, last);
      assert sorted == front + [last];
    }
  }

  lemma {:induction false} InsertKeySorts(sorted: seq<Hash>, k: Hash)
    requires Ascending(sorted)
    ensures Ascending(InsertKey(sorted, k))
  {
    if sorted != [] && sorted[|sorted| - 1] > k {
      var front, last := sorted[..|sorted| - 1], sorted[|sorted| - 1];
      InsertKeySorts(front, k);
      InsertKeyKeys(front, k);
      var r := InsertKey(front, k);
      forall i | 0 <= i < |r| ensures r[i] <= last { assert r[i] in KeySet(front) + {k}; }
    }
  }

  lemma {:induction false} SortKeysSorts(keys: seq<Hash>)
    ensures Ascending(SortKeys(keys)) && KeySet(SortKeys(keys)) == KeySet(keys)
  {
    if keys != [] {
      SortKeysSorts(keys[..|keys| - 1]);
      InsertKeySorts(SortKeys(keys[..|keys| - 1]), keys[|keys| - 1]);
      InsertKeyKeys(SortKeys(keys[..|keys| - 1]), keys[|keys| - 1]);
      KeySetMore(keys[..|keys| - 1], keys[|keys| - 1]);
      assert keys == keys[..|keys| - 1] + [keys[|keys| - 1]];
    }
  }

  // ----- the walk around the ring -----

  /** The points in the order in which a walk from position idx meets them. */
  function Turned(keys: seq<Hash>, idx: nat): seq<Hash>
    requires idx <= |keys|
  {
    keys[idx..] + keys[..idx]
  }

  /** The position of the first key that is not below h, or 0. */
  ghost predicate IsStart(keys: seq<Hash>, h: Hash, idx: nat) {
    idx < |keys| &&
    if keys[idx] >= h then forall i :: 0 <= i < idx ==> keys[i] < h
    else idx == 0 && forall i :: 0 <= i < |keys| ==> keys[i] < h
  }

  /** From there the points come with increasing distance. */
  lemma TurnedByDistance(keys: seq<Hash>, h: Hash, idx: nat)
    requires Ascending(keys) && IsStart(keys, h, idx)
    ensures var t := Turned(keys, idx);
            |t| == |keys| && KeySet(t) == KeySet(keys)
            && forall i, j {:trigger t[i], t[j]} :: 0 <= i < j < |t| ==> Distance(h, t[i]) <= Distance(h, t[j])
  {
    assert keys == keys[..idx] + keys[idx..];
  }

  ghost predicate Around(points: Points, h: Hash, walk: seq<Hash>) {
    && KeySet(walk) == points.Keys
    && forall i, j {:trigger walk[i], walk[j]} :: 0 <= i < j < |walk| ==> Distance(h, walk[i]) <= Distance(h, walk[j])
  }

  /** The nodes at the points of a walk, each where it is met first. */
  function FirstMet(points: Points, walk: seq<Hash>): (r: seq<Node>)
    requires forall i :: 0 <= i < |walk| ==> walk[i] in points
  {
    if walk == [] then []
    else
      var before, n := FirstMet(points, walk[..|walk| - 1]), points[walk[|walk| - 1]];
      if exists j :: 0 <= j < |before| && before[j].id == n.id then before else before + [n]
  }

  lemma {:induction false} FirstMetCovers(points: Points, walk: seq<Hash>, id: string)
    requires forall i :: 0 <= i < |walk| ==> walk[i] in points
    ensures Met(FirstMet(points, walk), id) <==> exists i :: 0 <= i < |walk| && points[walk[i]].id == id
  {
    if walk != [] {
      var front, last := walk[..|walk| - 1], walk[|walk| - 1];
      FirstMetCovers(points, front, id);
      FirstMetMore(points, walk, id);
      assert forall i :: 0 <= i < |front| ==> walk[i] == front[i];
    }
  }

  lemma FirstMetMore(points: Points, walk: seq<Hash>, id: string)
    requires walk != [] && forall i :: 0 <= i < |walk| ==> walk[i] in points
    ensures Met(FirstMet(points, walk), id) <==>
            Met(FirstMet(points, walk[..|walk| - 1]), id) || points[walk[|walk| - 1]].id == id
  {
    MetMore(FirstMet(points, walk[..|walk| - 1]), points[walk[|walk| - 1]], id);
  }

  /** A node at the m-th point is nearer than any node not met up to there. */
  lemma NearerThanLater(points: Points, h: Hash, walk: seq<Hash>, m: nat, id: string)
    requires Around(points, h, walk) && m < |walk| && walk[m] in points
    requires forall i :: 0 <= i <= m ==> walk[i] in points && points[walk[i]].id != id
    ensures Nearer(points, h, points[walk[m]].id, id)
  {
    var k := walk[m];
    forall j | j in points && points[j].id == id ensures Distance(h, k) < Distance(h, j) {
      assert j in KeySet(walk);
      var l :| 0 <= l < |walk| && walk[l] == j;
      assert l > m;
      if Distance(h, k) == Distance(h, j) { DistanceInjective(h, j, k); }
    }
  }

  /** The first nodes met are met in order of distance, and every other node is farther away. */
  lemma {:induction false} FirstMetIsWalk(points: Points, h: Hash, walk: seq<Hash>, m: nat)
    requires Around(points, h, walk) && m <= |walk| && forall i :: 0 <= i < |walk| ==> walk[i] in points
    ensures IsWalk(points, h, FirstMet(points, walk[..m]))
    decreases m
  {
    if m > 0 {
      var before, r, n := FirstMet(points, walk[..m - 1]), FirstMet(points, walk[..m]), points[walk[m - 1]];
      FirstMetIsWalk(points, h, walk, m - 1);
      assert walk[..m][..m - 1] == walk[..m - 1];
      if !Met(before, n.id) { WalkGrows(points, h, walk, m, before, n); }
    }
  }

  lemma WalkGrows(points: Points, h: Hash, walk: seq<Hash>, m: nat, before: seq<Node>, n: Node)
    requires Around(points, h, walk) && 0 < m <= |walk| && forall i :: 0 <= i < |walk| ==> walk[i] in points
    requires before == FirstMet(points, walk[..m - 1]) && n == points[walk[m - 1]]
    requires IsWalk(points, h, before) && !Met(before, n.id)
    ensures IsWalk(points, h, before + [n])
  {
    InRingId(points, n);
    forall id | id in Ids(points) && !Met(before, id) && id != n.id ensures Nearer(points, h, n.id, id) {
      NearerThanUnmet(points, h, walk, m, id);
    }
    OneNearer(points, h, before, n);
  }

  /** A node nearer than all that are not met yet goes on a walk. */
  lemma OneNearer(points: Points, h: Hash, before: seq<Node>, n: Node)
    requires IsWalk(points, h, before) && !Met(before, n.id) && n in points.Values && n.id in Ids(points)
    requires forall id :: id in Ids(points) && !Met(before, id) && id != n.id ==> Nearer(points, h, n.id, id)
    ensures IsWalk(points, h, before + [n])
  {
    var r := before + [n];
    Snoc(before, n);
    assert InOrder(points, h, r) by {
      forall i, j | 0 <= i < j < |r| ensures r[i].id != r[j].id && Nearer(points, h, r[i].id, r[j].id) {
        if j == |before| { assert before[i].id != n.id && Nearer(points, h, before[i].id, n.id); }
      }
    }
    forall i, id | 0 <= i < |r| && id in Ids(points) && !Met(r, id) ensures Nearer(points, h, r[i].id, id) {
      MetMore(before, n, id);
      if i < |before| { assert Nearer(points, h, before[i].id, id); }
    }
  }

  lemma NearerThanUnmet(points: Points, h: Hash, walk: seq<Hash>, m: nat, id: string)
    requires Around(points, h, walk) && 0 < m <= |walk| && forall i :: 0 <= i < |walk| ==> walk[i] in points
    requires points[walk[m - 1]].id != id && !Met(FirstMet(points, walk[..m - 1]), id)
    ensures Nearer(points, h, points[walk[m - 1]].id, id)
  {
    NotMetYet(points, walk[..m - 1], id);
    assert forall l :: 0 <= l < m - 1 ==> walk[..m - 1][l] == walk[l];
    NearerThanLater(points, h, walk, m - 1, id);
  }

  lemma MetMore(before: seq<Node>, n: Node, id: string)
    ensures Met(before + [n], id) <==> Met(before, id) || n.id == id
  {
    var r := before + [n];
    assert forall j :: 0 <= j < |before| ==> r[j] == before[j];
    assert r[|before|] == n;
  }

  lemma NotMetYet(points: Points, walk: seq<Hash>, id: string)
    requires forall i :: 0 <= i < |walk| ==> walk[i] in points
    requires !Met(FirstMet(points, walk), id)
    ensures forall i :: 0 <= i < |walk| ==> points[walk[i]].id != id
  {
    FirstMetCovers(points, walk, id);
  }

  /** After the whole way round, every node was met once. */
  lemma AllMet(points: Points, h: Hash, walk: seq<Hash>)
    requires Around(points, h, walk) && forall i :: 0 <= i < |walk| ==> walk[i] in points
    ensures |FirstMet(points, walk)| == |Ids(points)|
  {
    var r := FirstMet(points, walk);
    assert walk[..|walk|] == walk;
    FirstMetIsWalk(points, h, walk, |walk|);
    forall id | id in Ids(points) ensures Met(r, id) {
      var k :| k in points && points[k].id == id;
      assert k in KeySet(walk);
      FirstMetCovers(points, walk, id);
    }
    forall i | 0 <= i < |r| ensures r[i].id in Ids(points) { InRingId(points, r[i]); }
    DistinctCard(r, Ids(points));
  }

  lemma {:induction false} DistinctCard(r: seq<Node>, ids: set<string>)
    requires forall i, j {:trigger r[i], r[j]} :: 0 <= i < j < |r| ==> r[i].id != r[j].id
    requires (forall id :: id in ids ==> Met(r, id)) && forall i :: 0 <= i < |r| ==> r[i].id in ids
    ensures |r| == |ids|
    decreases |r|
  {
    if r == [] {
      assert ids == {};
    } else {
      var front, last := r[..|r| - 1], r[|r| - 1].id;
      forall id | id in ids - {last} ensures Met(front, id) {
        var j :| 0 <= j < |r| && r[j].id == id;
        assert front[j] == r[j];
      }
      DistinctCard(front, ids - {last});
    }
  }

  lemma OnePointMore(hash: string -> Hash, i: nat, points: Points, n: Node)
    ensures WithNode(hash, i + 1, points, n) == WithNode(hash, i, points, n)[Point(hash, n.id, i) := n]
  {
    assert PointsOf(hash, n.id, i + 1) == PointsOf(hash, n.id, i) + {Point(hash, n.id, i)};
  }

  function KeySetOf(keys: seq<Hash>): (s: set<Hash>)
    ensures s == KeySet(keys)
  {
    set k | k in keys
  }

  lemma StartIsNext(points: Points, h: Hash, keys: seq<Hash>, idx: nat)
    requires Ascending(keys) && KeySet(keys) == points.Keys && IsStart(keys, h, idx)
    ensures IsNext(points, h, keys[idx])
  {
    assert keys[idx] in KeySet(keys);
    forall k | k in points ensures Distance(h, keys[idx]) <= Distance(h, k) {
      assert k in KeySet(keys);
      var j :| 0 <= j < |keys| && keys[j] == k;
    }
  }

  lemma WalkInRing(points: Points, walk: seq<Hash>)
    requires KeySet(walk) == points.Keys
    ensures forall i :: 0 <= i < |walk| ==> walk[i] in points
  {
    forall i | 0 <= i < |walk| ensures walk[i] in points { assert walk[i] in KeySet(walk); }
  }

  lemma Wrapped(x: nat, n: nat)
    requires 0 < n && x < 2 * n
    ensures x % n == if x < n then x else x - n
  {
  }

  function Round(i: nat, n: nat): (r: nat)
    requires 0 < n
    ensures r < n
  {
    i % n
  }

  /** How many nodes the points allow for at full strength. */
  function FullStrength(points: nat, perNode: int): nat
    requires 0 < perNode
  {
    points / perNode
  }

  lemma TurnedAt(keys: seq<Hash>, idx: nat, i: nat)
    requires idx < |keys| && i < |keys|
    ensures Turned(keys, idx)[i] == keys[Round(idx + i, |keys|)]
  {
    Wrapped(idx + i, |keys|);
  }

  lemma FirstMetStep(points: Points, walk: seq<Hash>, k: nat)
    requires k < |walk| && forall i :: 0 <= i < |walk| ==> walk[i] in points
    ensures var before, n := FirstMet(points, walk[..k]), points[walk[k]];
            FirstMet(points, walk[..k + 1]) == if Met(before, n.id) then before else before + [n]
  {
    assert walk[..k + 1][..k] == walk[..k] && walk[..k + 1][k] == walk[k];
  }

  ghost predicate SeenAre(seen: set<string>, r: seq<Node>) {
    forall id :: id in seen <==> Met(r, id)
  }

  lemma SeenMore(seen: set<string>, r: seq<Node>, n: Node)
    requires SeenAre(seen, r)
    ensures SeenAre(seen + {n.id}, r + [n])
  {
    forall id ensures id in seen + {n.id} <==> Met(r + [n], id) { MetMore(r, n, id); }
  }

  class Ring {
    const hash: string -> Hash
    const virtualNodes: int
    var nodes: Points
    var sortedKeys: seq<Hash>

    function PerNode(): nat {
      if virtualNodes < 0 then 0 else virtualNodes
    }

    /** The sorted list holds exactly the points, and every node owns only its own. */
    ghost predicate Valid()
      reads this
    {
      Ascending(sortedKeys) && KeySet(sortedKeys) == nodes.Keys && Proper(hash, PerNode(), nodes)
    }

    constructor (hash: string -> Hash, virtualNodes: int)
      ensures Valid() && nodes == map[] && this.hash == hash && this.virtualNodes == virtualNodes
    {
      this.hash, this.virtualNodes := hash, virtualNodes;
      nodes, sortedKeys := map[], [];
    }

    method AddNode(node: Node)
      requires Valid()
      modifies this
      ensures Valid() && nodes == WithNode(hash, PerNode(), old(nodes), node)
      ensures forall i: nat :: i < virtualNodes ==>
                hash(node.id + ":" + Decimal(i)) in nodes && nodes[hash(node.id + ":" + Decimal(i))] == node
      ensures forall k :: k in nodes && (k !in old(nodes) || nodes[k] != old(nodes)[k]) ==>
                nodes[k] == node && exists i: nat :: i < virtualNodes && k == hash(node.id + ":" + Decimal(i))
      ensures old(nodes).Keys <= nodes.Keys
    {
      WithMeaning(hash, PerNode(), nodes, node);
      ghost var v := PerNode();
      for i := 0 to PerNode()
        invariant nodes == WithNode(hash, i, old(nodes), node) && KeySet(sortedKeys) == nodes.Keys
      {
        var k := hash(node.id + ":" + Decimal(i));
        OnePointMore(hash, i, old(nodes), node);
        KeySetMore(sortedKeys, k);
        nodes := nodes[k := node];
        sortedKeys := sortedKeys + [k];
      }
      SortKeysSorts(sortedKeys);
      ProperKept(hash, v, old(nodes), node);
      sortedKeys := SortKeys(sortedKeys);
    }

    /** Removes a node's points and rebuilds the sorted list from the rest, in any order. */
    method RemoveNode(id: string)
      requires Valid()
      modifies this
      ensures Valid() && nodes == WithoutNode(old(nodes), id)
      ensures forall k :: k in nodes <==> k in old(nodes) && old(nodes)[k].id != id
      ensures forall k :: k in nodes ==> nodes[k] == old(nodes)[k]
    {
      ghost var gone := Node(id, "", 0);
      ProperKept(hash, PerNode(), nodes, gone);
      var keysToRemove := CollectKeys(id);
      DeleteKeys(keysToRemove);
      assert nodes == WithoutNode(old(nodes), id);
      Rebuild();
    }

    method DeleteKeys(keys: seq<Hash>)
      modifies this`nodes
      ensures nodes == old(nodes) - KeySetOf(keys)
    {
      for i := 0 to |keys|
        invariant nodes == old(nodes) - KeySetOf(keys[..i])
      {
        assert keys[..i + 1] == keys[..i] + [keys[i]];
        KeySetMore(keys[..i], keys[i]);
        nodes := nodes - {keys[i]};
      }
      assert keys[..|keys|] == keys;
    }

    method Rebuild()
      modifies this`sortedKeys
      ensures Ascending(sortedKeys) && KeySet(sortedKeys) == nodes.Keys
    {
      sortedKeys := [];
      var rest := nodes.Keys;
      while rest != {}
        invariant rest <= nodes.Keys && KeySet(sortedKeys) == nodes.Keys - rest
      {
        var k :| k in rest;
        KeySetMore(sortedKeys, k);
        sortedKeys := sortedKeys + [k];
        rest := rest - {k};
      }
      SortKeysSorts(sortedKeys);
      sortedKeys := SortKeys(sortedKeys);
    }

    method CollectKeys(id: string) returns (keys: seq<Hash>)
      ensures KeySet(keys) == set k | k in nodes && nodes[k].id == id
    {
      keys := [];
      var rest := nodes.Keys;
      while rest != {}
        invariant rest <= nodes.Keys && KeySet(keys) == set k | k in nodes && k !in rest && nodes[k].id == id
      {
        var k :| k in rest;
        if nodes[k].id == id {
          KeySetMore(keys, k);
          keys := keys + [k];
        }
        rest := rest - {k};
      }
    }

    /** The node at the first point at or after the key's hash, going round. */
    method GetNode(key: string) returns (node: Option<Node>)
      requires Valid()
      ensures node.None? <==> nodes == map[]
      ensures node.Some? ==>
                exists k: Hash ::
                  && IsNext(nodes, hash(key), k) && node.value == nodes[k]
                  && if k >= hash(key) then forall j: Hash :: j in nodes && j >= hash(key) ==> k <= j
                     else forall j: Hash :: j in nodes ==> j < hash(key) && k <= j
    {
      if |sortedKeys| == 0 { return None; }
      var idx := Search(hash(key));
      StartIsNext(nodes, hash(key), sortedKeys, idx);
      NextMeaning(nodes, hash(key), sortedKeys[idx]);
      return Some(nodes[sortedKeys[idx]]);
    }

    /** The first distinct nodes clockwise from the key's hash; as many as were asked for, but no more than
        the points allow for at full strength. */
    method GetNodes(key: string, count: int) returns (found: Option<seq<Node>>)
      requires Valid() && 0 <= count
      ensures found.None? <==> nodes == map[]
      ensures found.Some? ==> 0 < virtualNodes && IsWalk(nodes, hash(key), found.value)
      ensures found.Some? ==>
                |found.value| == if count > |nodes| / virtualNodes then |nodes| / virtualNodes else count
      ensures found.Some? && Full(hash, PerNode(), nodes) && Apart(hash, PerNode(), Ids(nodes)) ==>
                |found.value| == if count > |Ids(nodes)| then |Ids(nodes)| else count
    {
      if |sortedKeys| == 0 { return None; }
      KeysMeanNodes();
      var wanted := if count > FullStrength(|nodes|, virtualNodes) then FullStrength(|nodes|, virtualNodes) else count;
      var h := hash(key);
      var idx := Search(h);
      ghost var walk := Turned(sortedKeys, idx);
      TurnedByDistance(sortedKeys, h, idx);
      WalkInRing(nodes, walk);
      var r, i := CollectNodes(idx, wanted, walk);
      Enough(nodes, h, walk, i, r, wanted);
      if Full(hash, PerNode(), nodes) && Apart(hash, PerNode(), Ids(nodes)) {
        FullStrengthIsNodes(hash, PerNode(), nodes);
      }
      return Some(r);
    }

    /** Goes round from position idx until enough distinct nodes are met or every point was visited. */
    method CollectNodes(idx: nat, wanted: nat, ghost walk: seq<Hash>) returns (r: seq<Node>, ghost i: nat)
      requires idx < |sortedKeys| && walk == Turned(sortedKeys, idx) && |walk| == |sortedKeys|
      requires forall k :: 0 <= k < |walk| ==> walk[k] in nodes
      ensures i <= |walk| && r == FirstMet(nodes, walk[..i]) && |r| <= wanted && (i == |walk| || |r| == wanted)
    {
      r := [];
      var seen: set<string> := {};
      var k := 0;
      while k < |sortedKeys| && |r| < wanted
        invariant k <= |walk| && |r| <= wanted && r == FirstMet(nodes, walk[..k]) && SeenAre(seen, r)
      {
        TurnedAt(sortedKeys, idx, k);
        r, seen := Visit(sortedKeys[Round(idx + k, |sortedKeys|)], r, seen, walk, k);
        k := k + 1;
      }
      i := k;
    }

    /** Takes in the node at one point, unless it was met before. */
    method Visit(point: Hash, r: seq<Node>, seen: set<string>, ghost walk: seq<Hash>, ghost k: nat)
      returns (r': seq<Node>, seen': set<string>)
      requires k < |walk| && point == walk[k] && forall i :: 0 <= i < |walk| ==> walk[i] in nodes
      requires r == FirstMet(nodes, walk[..k]) && SeenAre(seen, r)
      ensures r' == FirstMet(nodes, walk[..k + 1]) && SeenAre(seen', r') && |r'| <= |r| + 1
    {
      r', seen' := r, seen;
      var node := nodes[point];
      FirstMetStep(nodes, walk, k);
      if node.id !in seen {
        SeenMore(seen, r, node);
        r' := r + [node];
        seen' := seen + {node.id};
      }
    }

    /** A ring with points has a positive number of points for each node. */
    lemma KeysMeanNodes()
      requires Valid() && sortedKeys != []
      ensures 0 < virtualNodes && nodes != map[]
    {
      assert sortedKeys[0] in KeySet(sortedKeys);
    }

    lemma Enough(points: Points, h: Hash, walk: seq<Hash>, i: nat, r: seq<Node>, wanted: nat)
      requires Proper(hash, PerNode(), points) && 0 < virtualNodes && Around(points, h, walk)
      requires forall k :: 0 <= k < |walk| ==> walk[k] in points
      requires i <= |walk| && r == FirstMet(points, walk[..i]) && |r| <= wanted && (i == |walk| || |r| == wanted)
      requires wanted <= FullStrength(|points|, virtualNodes)
      ensures IsWalk(points, h, r) && |r| == wanted
    {
      FirstMetIsWalk(points, h, walk, i);
      EnoughAround(points, h, walk);
      assert walk[..|walk|] == walk;
    }

    lemma EnoughAround(points: Points, h: Hash, walk: seq<Hash>)
      requires Proper(hash, PerNode(), points) && 0 < virtualNodes && Around(points, h, walk)
      requires forall i :: 0 <= i < |walk| ==> walk[i] in points
      ensures FullStrength(|points|, virtualNodes) <= |FirstMet(points, walk)|
    {
      AllMet(points, h, walk);
      EnoughNodes(hash, PerNode(), points);
      QuotientAtMost(|points.Keys|, PerNode(), |Ids(points)|);
    }

    /** The binary search for the first key not below h; past the end it is the first key. */
    method Search(h: Hash) returns (idx: nat)
      requires Ascending(sortedKeys) && sortedKeys != []
      ensures IsStart(sortedKeys, h, idx)
    {
      var lo, hi := 0, |sortedKeys|;
      while lo < hi
        invariant 0 <= lo <= hi <= |sortedKeys|
        invariant forall i :: 0 <= i < lo ==> sortedKeys[i] < h
        invariant forall i :: hi <= i < |sortedKeys| ==> sortedKeys[i] >= h
      {
        var mid := (lo + hi) / 2;
        if sortedKeys[mid] >= h { hi := mid; } else { lo := mid + 1; }
      }
      idx := if lo == |sortedKeys| then 0 else lo;
    }
  }
}
