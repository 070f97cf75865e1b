/** Rings on which no two points collide: every node then has all its points, and what GetNodes takes for the
    number of nodes is that number. */
module FullRings {
  import opened Wrappers
  import opened RingOrder

  /** No two of the points of these nodes are the same. */
  ghost predicate Apart(hash: string -> Hash, v: nat, ids: set<string>) {
    forall a, b, i: nat, j: nat {:trigger Point(hash, a, i), Point(hash, b, j)} ::
      a in ids && b in ids && i < v && j < v && Point(hash, a, i) == Point(hash, b, j) ==> a == b && i == j
  }

  /** Every node has all its points. */
  ghost predicate Full(hash: string -> Hash, v: nat, points: Points) {
    forall id, i: nat {:trigger Point(hash, id, i)} :: id in Ids(points) && i < v ==>
      Point(hash, id, i) in points && points[Point(hash, id, i)].id == id
  }

  ghost function Owned(points: Points, id: string): set<Hash> {
    set k | k in points && points[k].id == id
  }

  lemma LastApart(hash: string -> Hash, v: nat, w: nat, ids: set<string>, id: string)
    requires Apart(hash, v, ids) && id in ids && w < v
    ensures Point(hash, id, w) !in PointsOf(hash, id, w)
  {
    forall i: nat | i < w ensures Point(hash, id, i) != Point(hash, id, w) {}
  }

  lemma {:induction false} ApartCard(hash: string -> Hash, v: nat, w: nat, ids: set<string>, id: string)
    requires Apart(hash, v, ids) && id in ids && w <= v
    ensures |PointsOf(hash, id, w)| == w
  {
    if w == 0 {
      assert PointsOf(hash, id, 0) == {};
    } else {
      ApartCard(hash, v, w - 1, ids, id);
      PointsOfMore(hash, id, w - 1);
      LastApart(hash, v, w - 1, ids, id);
    }
  }

  lemma OwnedAre(hash: string -> Hash, v: nat, points: Points, id: string)
    requires Proper(hash, v, points) && Full(hash, v, points) && id in Ids(points)
    ensures Owned(points, id) == PointsOf(hash, id, v)
  {
    forall k | k in PointsOf(hash, id, v) ensures k in Owned(points, id) {
      var i: nat :| i < v && Point(hash, id, i) == k;
    }
  }

  lemma WithoutOwned(points: Points, id: string)
    ensures |points| == |WithoutNode(points, id)| + |Owned(points, id)|
  {
    var rest := WithoutNode(points, id);
    SubsetCard(rest.Keys, points.Keys);
    assert points.Keys - rest.Keys == Owned(points, id);
  }

  lemma FullWithout(hash: string -> Hash, v: nat, points: Points, id: string)
    requires Full(hash, v, points)
    ensures Full(hash, v, WithoutNode(points, id))
  {
    IdsWithout(points, id);
  }

  lemma IdsWith(hash: string -> Hash, v: nat, points: Points, n: Node)
    ensures Ids(WithNode(hash, v, points, n)) <= Ids(points) + {n.id}
    ensures 0 < v ==> n.id in Ids(WithNode(hash, v, points, n))
  {
    var r := WithNode(hash, v, points, n);
    if 0 < v { assert Point(hash, n.id, 0) in PointsOf(hash, n.id, v) && r[Point(hash, n.id, 0)].id == n.id; }
  }

  lemma FullWith(hash: string -> Hash, v: nat, points: Points, n: Node, ids: set<string>)
    requires Full(hash, v, points) && Apart(hash, v, ids) && Ids(points) + {n.id} <= ids
    ensures Full(hash, v, WithNode(hash, v, points, n))
  {
    var r := WithNode(hash, v, points, n);
    IdsWith(hash, v, points, n);
    forall id, i: nat | id in Ids(r) && i < v ensures Point(hash, id, i) in r && r[Point(hash, id, i)].id == id {
      var p := Point(hash, id, i);
      if id == n.id {
        assert p in PointsOf(hash, n.id, v);
      } else {
        forall j: nat | j < v ensures Point(hash, n.id, j) != p {}
        assert p !in PointsOf(hash, n.id, v);
      }
    }
  }

  /** Without collisions adding a node takes no other node's point. */
  lemma IdsStay(hash: string -> Hash, v: nat, points: Points, n: Node, ids: set<string>)
    requires Full(hash, v, points) && Apart(hash, v, ids) && Ids(points) + {n.id} <= ids && 0 < v
    ensures Ids(WithNode(hash, v, points, n)) == Ids(points) + {n.id}
  {
    var r := WithNode(hash, v, points, n);
    IdsWith(hash, v, points, n);
    forall id | id in Ids(points) ensures id in Ids(r) {
      var p := Point(hash, id, 0);
      assert p in points && points[p].id == id;
      if p in PointsOf(hash, n.id, v) {
        var j: nat :| j < v && Point(hash, n.id, j) == p;
        assert id == n.id;
      } else {
        assert p in r && r[p].id == id;
      }
    }
  }

  /** Each node has v points. */
  lemma OwnedCard(hash: string -> Hash, v: nat, points: Points, ids: set<string>, id: string)
    requires Proper(hash, v, points) && Full(hash, v, points) && Apart(hash, v, ids) && id in Ids(points) && id in ids
    ensures |Owned(points, id)| == v
  {
    OwnedAre(hash, v, points, id);
    ApartCard(hash, v, v, ids, id);
  }

  ghost predicate Multiple(points: Points, v: nat) {
    |points| == v * |Ids(points)|
  }

  lemma MultipleMore(points: Points, rest: Points, v: nat)
    requires Multiple(rest, v) && |points| == |rest| + v && |Ids(points)| == |Ids(rest)| + 1
    ensures Multiple(points, v)
  {
    MoreByOne(v, |Ids(rest)|);
  }

  lemma NoneMultiple(v: nat)
    ensures Multiple(map[], v)
  {
    assert Ids(map[]) == {};
  }

  /** And m nodes have m * v. */
  lemma {:induction false} FullCard(hash: string -> Hash, v: nat, points: Points, ids: set<string>)
    requires Proper(hash, v, points) && Full(hash, v, points) && Apart(hash, v, ids) && Ids(points) <= ids
    ensures Multiple(points, v)
    decreases |points|
  {
    if points == map[] {
      NoneMultiple(v);
    } else {
      var k :| k in points;
      var rest := WithoutNode(points, points[k].id);
      OneNodeLess(hash, v, points, ids, k);
      FullCard(hash, v, rest, ids);
      MultipleMore(points, rest, v);
    }
  }

  lemma OneNodeLess(hash: string -> Hash, v: nat, points: Points, ids: set<string>, k: Hash)
    requires Proper(hash, v, points) && Full(hash, v, points) && Apart(hash, v, ids) && Ids(points) <= ids
    requires k in points
    ensures var rest := WithoutNode(points, points[k].id);
            && Proper(hash, v, rest) && Full(hash, v, rest) && Ids(rest) <= ids && |rest| < |points|
            && |points| == |rest| + v && |Ids(points)| == |Ids(rest)| + 1
  {
    var id := points[k].id;
    assert id in Ids(points);
    WithoutOwned(points, id);
    OwnedCard(hash, v, points, ids, id);
    FewerPoints(points, k);
    IdsWithout(points, id);
    ProperKept(hash, v, points, points[k]);
    FullWithout(hash, v, points, id);
  }

  lemma Divides(a: nat, v: nat, n: nat)
    requires 0 < v && a == v * n
    ensures a / v == n
  {
    QuotientAtMost(a, v, n);
    var q := a / v;
    if q < n {
      MoreByOne(v, q);
      ProductsGrow(v, q + 1, n);
      assert false;
    }
  }

  /** The number of points divided by the points of a node is then the number of nodes. */
  lemma FullStrengthIsNodes(hash: string -> Hash, v: nat, points: Points)
    requires Proper(hash, v, points) && Full(hash, v, points) && Apart(hash, v, Ids(points)) && 0 < v
    ensures |points| / v == |Ids(points)|
  {
    FullCard(hash, v, points, Ids(points));
    Divides(|points|, v, |Ids(points)|);
  }

  // ----- over whole runs -----

  datatype Op = Join(node: Node) | Leave(id: string)

  function Do(hash: string -> Hash, v: nat, points: Points, op: Op): Points {
    match op
    case Join(n) => WithNode(hash, v, points, n)
    case Leave(id) => WithoutNode(points, id)
  }

  function After(hash: string -> Hash, v: nat, ops: seq<Op>): Points
    decreases |ops|
  {
    if ops == [] then map[] else Do(hash, v, After(hash, v, ops[..|ops| - 1]), ops[|ops| - 1])
  }

  /** The nodes that have joined and not left since. */
  ghost function Present(ops: seq<Op>): set<string>
    decreases |ops|
  {
    if ops == [] then {}
    else
      match ops[|ops| - 1]
      case Join(n) => Present(ops[..|ops| - 1]) + {n.id}
      case Leave(id) => Present(ops[..|ops| - 1]) - {id}
  }

  ghost predicate Joins(ops: seq<Op>, ids: set<string>) {
    forall k :: 0 <= k < |ops| && ops[k].Join? ==> ops[k].node.id in ids
  }

  /** Where the points of all nodes that ever join are different, the ring has in every run exactly the points of
      the nodes that are present, each node all of its own. */
  lemma {:induction false} AlwaysFull(hash: string -> Hash, v: nat, ops: seq<Op>, ids: set<string>)
    requires Apart(hash, v, ids) && Joins(ops, ids) && 0 < v
    ensures var points := After(hash, v, ops);
            && Proper(hash, v, points) && Full(hash, v, points)
            && Ids(points) == Present(ops) && Present(ops) <= ids
    decreases |ops|
  {
    if ops != [] {
      var front := ops[..|ops| - 1];
      AlwaysFull(hash, v, front, ids);
      var points := After(hash, v, front);
      match ops[|ops| - 1]
      case Join(n) =>
        ProperKept(hash, v, points, n);
        FullWith(hash, v, points, n, ids);
        IdsStay(hash, v, points, n, ids);
      case Leave(id) =>
        ProperKept(hash, v, points, Node(id, "", 0));
        FullWithout(hash, v, points, id);
        IdsWithout(points, id);
    }
  }

  /** So with m nodes present there are m * v points, v of each. */
  lemma PointsOfPresent(hash: string -> Hash, v: nat, ops: seq<Op>, ids: set<string>)
    requires Apart(hash, v, ids) && Joins(ops, ids) && 0 < v
    ensures |After(hash, v, ops)| == v * |Present(ops)| && |After(hash, v, ops)| / v == |Present(ops)|
    ensures forall id :: id in Present(ops) ==> |Owned(After(hash, v, ops), id)| == v
  {
    var points := After(hash, v, ops);
    AlwaysFull(hash, v, ops, ids);
    FullStrengthIsNodes(hash, v, points);
    FullCard(hash, v, points, ids);
    forall id | id in Present(ops) ensures |Owned(points, id)| == v { OwnedCard(hash, v, points, ids, id); }
  }
}
