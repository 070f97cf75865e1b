/** The points of a consistent-hash ring, which node owns a hash, and in what order the nodes are met. */
module RingOrder {
  import opened Numerals
  import opened Wrappers

  const SPAN := 0x1_0000_0000_0000_0000

  type Hash = h: nat | h < SPAN

  datatype Node = Node(id: string, address: string, port: int)

  /** Which node each point of the ring belongs to. */
  type Points = map<Hash, Node>

  /** How far clockwise a point is from a hash. */
  function Distance(h: Hash, k: Hash): nat {
    if k >= h then k - h else k + SPAN - h
  }

  ghost predicate IsNext(points: Points, h: Hash, k: Hash) {
    k in points && forall j :: j in points ==> Distance(h, k) <= Distance(h, j)
  }

  /** The next point is the first one at or after the hash, and past the last one the first of all. */
  lemma NextMeaning(points: Points, h: Hash, k: Hash)
    requires IsNext(points, h, k)
    ensures if k >= h then forall j :: j in points && j >= h ==> k <= j
            else forall j :: j in points ==> j < h && k <= j
  {
    forall j | j in points ensures Distance(h, k) <= Distance(h, j) {}
  }

  // ----- adding and removing nodes -----

  function Point(hash: string -> Hash, id: string, i: nat): Hash {
    hash(id + ":" + Decimal(i))
  }

  function PointsOf(hash: string -> Hash, id: string, v: nat): set<Hash> {
    set i | 0 <= i < v :: Point(hash, id, i)
  }

  /** A node takes all its points, also those that another node had. */
  function WithNode(hash: string -> Hash, v: nat, points: Points, n: Node): Points {
    map k | k in points.Keys + PointsOf(hash, n.id, v) :: if k in PointsOf(hash, n.id, v) then n else points[k]
  }

  /** The points of a node are its numbered names, hashed. */
  lemma WithMeaning(hash: string -> Hash, v: nat, points: Points, n: Node)
    ensures var r := WithNode(hash, v, points, n);
            && (forall i: nat :: i < v ==> hash(n.id + ":" + Decimal(i)) in r && r[hash(n.id + ":" + Decimal(i))] == n)
            && (forall k :: k in r ==> k in points || exists i: nat :: i < v && k == hash(n.id + ":" + Decimal(i)))
            && (forall k :: k in points ==> k in r && (r[k] == points[k] || r[k] == n))
            && (forall k :: k in points && r[k] != points[k] ==>
                  exists i: nat :: i < v && k == hash(n.id + ":" + Decimal(i)))
  {
    var r := WithNode(hash, v, points, n);
    forall i: nat | i < v ensures hash(n.id + ":" + Decimal(i)) in r && r[hash(n.id + ":" + Decimal(i))] == n {
      assert Point(hash, n.id, i) in PointsOf(hash, n.id, v);
    }
    forall k | k in PointsOf(hash, n.id, v) ensures exists i: nat :: i < v && k == hash(n.id + ":" + Decimal(i)) {
      var i: nat :| i < v && Point(hash, n.id, i) == k;
      assert k == hash(n.id + ":" + Decimal(i));
    }
  }

  function WithoutNode(points: Points, id: string): Points {
    map k | k in points && points[k].id != id :: points[k]
  }

  /** A node owns only its own points, and is the same node at all of them. */
  ghost predicate Proper(hash: string -> Hash, v: nat, points: Points) {
    && (forall k :: k in points ==> k in PointsOf(hash, points[k].id, v))
    && (forall j, k :: j in points && k in points && points[j].id == points[k].id ==> points[j] == points[k])
  }

  lemma ProperKept(hash: string -> Hash, v: nat, points: Points, n: Node)
    requires Proper(hash, v, points)
    ensures Proper(hash, v, WithNode(hash, v, points, n)) && Proper(hash, v, WithoutNode(points, n.id))
  {
  }

  lemma DistanceInjective(h: Hash, j: Hash, k: Hash)
    requires Distance(h, j) == Distance(h, k)
    ensures j == k
  {
  }

  /** Adding a node moves a hash exactly when one of the node's points is at least as near as the owner so
      far, and then to that node; every other hash keeps its point and its owner. */
  lemma AddMovesOnlyToNew(hash: string -> Hash, v: nat, points: Points, n: Node, h: Hash, k: Hash, k': Hash)
    requires IsNext(points, h, k) && IsNext(WithNode(hash, v, points, n), h, k')
    ensures if exists q :: q in PointsOf(hash, n.id, v) && Distance(h, q) <= Distance(h, k)
            then WithNode(hash, v, points, n)[k'] == n
            else k' == k && WithNode(hash, v, points, n)[k'] == points[k]
  {
    var points' := WithNode(hash, v, points, n);
    if q :| q in PointsOf(hash, n.id, v) && Distance(h, q) <= Distance(h, k) {
      assert q in points' && Distance(h, k') <= Distance(h, q);
      if k' !in PointsOf(hash, n.id, v) {
        assert k' in points && Distance(h, k) <= Distance(h, k');
        DistanceInjective(h, k', q);
      }
    } else {
      assert k in points' && Distance(h, k') <= Distance(h, k);
      assert k' in points.Keys + PointsOf(hash, n.id, v) && k' !in PointsOf(hash, n.id, v);
      DistanceInjective(h, k', k);
    }
  }

  /** Removing a node moves exactly the hashes that it owned. */
  lemma RemoveMovesOnlyOwned(points: Points, id: string, h: Hash, k: Hash, k': Hash)
    requires IsNext(points, h, k) && IsNext(WithoutNode(points, id), h, k')
    ensures WithoutNode(points, id)[k'] == points[k] <==> points[k].id != id
  {
    if points[k].id != id { assert k in WithoutNode(points, id); }
  }

  /** Removing a node again gives back the ring as it was exactly when none of its points was taken: a point that
      was another node's is lost to both. */
  lemma AddThenRemove(hash: string -> Hash, v: nat, points: Points, n: Node)
    requires Proper(hash, v, points)
    ensures WithoutNode(WithNode(hash, v, points, n), n.id) == points <==> points.Keys !! PointsOf(hash, n.id, v)
  {
    var back := WithoutNode(WithNode(hash, v, points, n), n.id);
    if points.Keys !! PointsOf(hash, n.id, v) {
      assert back.Keys == points.Keys;
    } else {
      var k :| k in points && k in PointsOf(hash, n.id, v);
      assert k !in back;
    }
  }

  // ----- the order in which nodes are met -----

  /** Going clockwise from h, node a is met before node b. */
  ghost predicate Nearer(points: Points, h: Hash, a: string, b: string) {
    exists k :: k in points && points[k].id == a
                && forall j :: j in points && points[j].id == b ==> Distance(h, k) < Distance(h, j)
  }

  ghost function Ids(points: Points): set<string> {
    set k | k in points :: points[k].id
  }

  ghost predicate Met(r: seq<Node>, id: string) {
    exists j :: 0 <= j < |r| && r[j].id == id
  }

  ghost predicate InRing(points: Points, r: seq<Node>) {
    forall i :: 0 <= i < |r| ==> r[i] in points.Values
  }

  ghost predicate InOrder(points: Points, h: Hash, r: seq<Node>) {
    forall i, j {:trigger r[i], r[j]} :: 0 <= i < j < |r| ==> r[i].id != r[j].id && Nearer(points, h, r[i].id, r[j].id)
  }

  ghost predicate OthersAfter(points: Points, h: Hash, r: seq<Node>) {
    forall i, id {:trigger Nearer(points, h, r[i].id, id)} :: 0 <= i < |r| && id in Ids(points) && !Met(r, id) ==>
      Nearer(points, h, r[i].id, id)
  }

  /** The first nodes met clockwise from h, in the order in which they are met. */
  ghost predicate IsWalk(points: Points, h: Hash, r: seq<Node>) {
    InRing(points, r) && InOrder(points, h, r) && OthersAfter(points, h, r)
  }

  lemma NearerAsymmetric(points: Points, h: Hash, a: string, b: string)
    requires Nearer(points, h, a, b)
    ensures !Nearer(points, h, b, a)
  {
    var k :| k in points && points[k].id == a
             && forall j :: j in points && points[j].id == b ==> Distance(h, k) < Distance(h, j);
  }

  lemma MetInPrefix(r: seq<Node>, n: nat, j: nat)
    requires j < n <= |r|
    ensures Met(r[..n], r[j].id)
  {
    assert r[..n][j] == r[j];
  }

  lemma WalkPrefix(points: Points, h: Hash, r: seq<Node>, n: nat)
    requires IsWalk(points, h, r) && n <= |r|
    ensures IsWalk(points, h, r[..n])
  {
    var p := r[..n];
    forall i, id | 0 <= i < |p| && id in Ids(points) && !Met(p, id) ensures Nearer(points, h, p[i].id, id) {
      assert p[i] == r[i];
      if Met(r, id) {
        var j :| 0 <= j < |r| && r[j].id == id;
        if j < n { MetInPrefix(r, n, j); }
        assert r[i].id != id;
      }
    }
  }

  lemma InRingId(points: Points, n: Node)
    requires n in points.Values
    ensures n.id in Ids(points)
  {
    var k :| k in points && points[k] == n;
  }

  /** What a walk meets in its last place is nearer than whatever else it has not met before. */
  lemma WalkNext(points: Points, h: Hash, front: seq<Node>, a: Node, b: Node)
    requires IsWalk(points, h, front + [a]) && IsWalk(points, h, front + [b]) && a.id != b.id
    ensures Nearer(points, h, a.id, b.id)
  {
    var r, s := front + [a], front + [b];
    assert r[|front|] == a && s[|front|] == b;
    InRingId(points, b);
    forall j | 0 <= j < |r| ensures r[j].id != b.id {
      if j < |front| { assert r[j] == s[j]; }
    }
    assert !Met(r, b.id);
    assert Nearer(points, h, r[|front|].id, b.id);
  }

  lemma SameIdSameNode(hash: string -> Hash, v: nat, points: Points, a: Node, b: Node)
    requires Proper(hash, v, points) && a in points.Values && b in points.Values && a.id == b.id
    ensures a == b
  {
    var j :| j in points && points[j] == a;
    var k :| k in points && points[k] == b;
  }

  /** The nodes of a walk are determined by its length. */
  lemma {:induction false} WalkUnique(hash: string -> Hash, v: nat, points: Points, h: Hash, r: seq<Node>, s: seq<Node>)
    requires Proper(hash, v, points) && IsWalk(points, h, r) && IsWalk(points, h, s) && |r| == |s|
    ensures r == s
    decreases |r|
  {
    if r != [] {
      var n := |r| - 1;
      var a, b := r[n], s[n];
      WalkPrefix(points, h, r, n);
      WalkPrefix(points, h, s, n);
      WalkUnique(hash, v, points, h, r[..n], s[..n]);
      assert r == r[..n] + [a] && s == r[..n] + [b];
      LastsAgree(points, h, r[..n], a, b);
      SameIdSameNode(hash, v, points, a, b);
    }
  }

  lemma LastsAgree(points: Points, h: Hash, front: seq<Node>, a: Node, b: Node)
    requires IsWalk(points, h, front + [a]) && IsWalk(points, h, front + [b])
    ensures a.id == b.id
  {
    if a.id != b.id {
      WalkNext(points, h, front, a, b);
      WalkNext(points, h, front, b, a);
      NearerAsymmetric(points, h, a.id, b.id);
      assert false;
    }
  }

  /** The owner of a hash is the first node met. */
  lemma OwnerIsFirst(hash: string -> Hash, v: nat, points: Points, h: Hash, k: Hash, r: seq<Node>)
    requires Proper(hash, v, points) && IsNext(points, h, k) && IsWalk(points, h, r) && r != []
    ensures points[k] == r[0]
  {
    var first := [points[k]];
    forall j | j in points && points[j].id != points[k].id ensures Nearer(points, h, points[k].id, points[j].id) {
      forall l | l in points && points[l].id == points[j].id ensures Distance(h, k) < Distance(h, l) {
        assert Distance(h, k) <= Distance(h, l) && l != k;
      }
    }
    assert forall id :: !Met(first, id) ==> first[0].id != id;
    assert IsWalk(points, h, first);
    WalkPrefix(points, h, r, 1);
    WalkUnique(hash, v, points, h, first, r[..1]);
    assert r[..1][0] == r[0];
  }

  lemma NearerWithout(points: Points, h: Hash, x: string, a: string, b: string)
    requires Nearer(points, h, a, b) && a != x
    ensures Nearer(WithoutNode(points, x), h, a, b)
  {
    var k :| k in points && points[k].id == a
             && forall j :: j in points && points[j].id == b ==> Distance(h, k) < Distance(h, j);
    assert k in WithoutNode(points, x);
  }

  lemma IdsWithout(points: Points, x: string)
    ensures Ids(WithoutNode(points, x)) == Ids(points) - {x}
  {
    forall id | id in Ids(points) && id != x ensures id in Ids(WithoutNode(points, x)) {
      var j :| j in points && points[j].id == id;
      assert j in WithoutNode(points, x) && WithoutNode(points, x)[j].id == id;
    }
  }

  lemma InRingWithout(points: Points, x: string, n: Node)
    requires n in points.Values && n.id != x
    ensures n in WithoutNode(points, x).Values
  {
    var k :| k in points && points[k] == n;
    assert k in WithoutNode(points, x) && WithoutNode(points, x)[k] == n;
  }

  function Skip(r: seq<Node>, m: nat): seq<Node>
    requires m < |r|
  {
    r[..m] + r[m + 1..]
  }

  lemma SkipMeets(r: seq<Node>, m: nat, id: string)
    requires m < |r| && Met(r, id) && id != r[m].id
    ensures Met(Skip(r, m), id)
  {
    var j :| 0 <= j < |r| && r[j].id == id;
    assert Skip(r, m)[if j < m then j else j - 1] == r[j];
  }

  lemma SkipIndex(r: seq<Node>, m: nat, i: nat)
    requires m < |r| && i < |r| - 1
    ensures Skip(r, m)[i] == r[if i < m then i else i + 1]
  {
  }

  lemma SkipInOrder(points: Points, h: Hash, r: seq<Node>, m: nat)
    requires InOrder(points, h, r) && m < |r|
    ensures InOrder(WithoutNode(points, r[m].id), h, Skip(r, m))
  {
    var rest := Skip(r, m);
    forall i, j | 0 <= i < j < |rest|
      ensures rest[i].id != rest[j].id && Nearer(WithoutNode(points, r[m].id), h, rest[i].id, rest[j].id)
    {
      SkipIndex(r, m, i);
      SkipIndex(r, m, j);
      NearerWithout(points, h, r[m].id, rest[i].id, rest[j].id);
    }
  }

  /** Removing one node of a walk leaves the others as they were. */
  lemma WalkWithout(points: Points, h: Hash, r: seq<Node>, m: nat)
    requires IsWalk(points, h, r) && m < |r|
    ensures IsWalk(WithoutNode(points, r[m].id), h, Skip(r, m))
  {
    var x, rest := r[m].id, Skip(r, m);
    var points' := WithoutNode(points, x);
    IdsWithout(points, x);
    forall i | 0 <= i < |rest| ensures rest[i].id != x && rest[i] in points'.Values {
      SkipIndex(r, m, i);
      InRingWithout(points, x, rest[i]);
    }
    SkipInOrder(points, h, r, m);
    forall i, id | 0 <= i < |rest| && id in Ids(points') && !Met(rest, id) ensures Nearer(points', h, rest[i].id, id) {
      if Met(r, id) { SkipMeets(r, m, id); }
      SkipIndex(r, m, i);
      NearerWithout(points, h, x, rest[i].id, id);
    }
  }

  /** When the first node of a walk goes, the second owns the hash. */
  lemma SecondTakesOver(hash: string -> Hash, v: nat, points: Points, h: Hash, r: seq<Node>, k: Hash)
    requires Proper(hash, v, points) && IsWalk(points, h, r) && |r| >= 2 && IsNext(WithoutNode(points, r[0].id), h, k)
    ensures WithoutNode(points, r[0].id)[k] == r[1]
  {
    WalkWithout(points, h, r, 0);
    ProperKept(hash, v, points, r[0]);
    assert Skip(r, 0) == r[1..];
    OwnerIsFirst(hash, v, WithoutNode(points, r[0].id), h, k, r[1..]);
  }

  // ----- how many nodes there are -----

  lemma PointsOfMore(hash: string -> Hash, id: string, v: nat)
    ensures PointsOf(hash, id, v + 1) == PointsOf(hash, id, v) + {Point(hash, id, v)}
  {
    forall p | p in PointsOf(hash, id, v + 1) ensures p in PointsOf(hash, id, v) || p == Point(hash, id, v) {
      var i :| 0 <= i < v + 1 && Point(hash, id, i) == p;
      if i < v { assert Point(hash, id, i) in PointsOf(hash, id, v); }
    }
    assert Point(hash, id, v) in PointsOf(hash, id, v + 1);
    forall p | p in PointsOf(hash, id, v) ensures p in PointsOf(hash, id, v + 1) {
      var i :| 0 <= i < v && Point(hash, id, i) == p;
      assert Point(hash, id, i) in PointsOf(hash, id, v + 1);
    }
  }

  lemma OneMoreCard<T>(s: set<T>, x: T)
    ensures |s + {x}| <= |s| + 1
  {
    assert x in s ==> s + {x} == s;
  }

  lemma {:induction false} PointsOfCard(hash: string -> Hash, id: string, v: nat)
    ensures |PointsOf(hash, id, v)| <= v
  {
    if v == 0 {
      assert PointsOf(hash, id, 0) == {};
    } else {
      PointsOfCard(hash, id, v - 1);
      PointsOfMore(hash, id, v - 1);
      OneMoreCard(PointsOf(hash, id, v - 1), Point(hash, id, v - 1));
    }
  }

  lemma OwnPoints(hash: string -> Hash, v: nat, points: Points, id: string)
    requires Proper(hash, v, points)
    ensures |points.Keys| <= |WithoutNode(points, id).Keys| + v
  {
    var rest := WithoutNode(points, id).Keys;
    forall k | k in points.Keys - rest ensures k in PointsOf(hash, id, v) { assert points[k].id == id; }
    PointsOfCard(hash, id, v);
    SubsetCard(points.Keys - rest, PointsOf(hash, id, v));
    SubsetCard(rest, points.Keys);
  }

  lemma FewerPoints(points: Points, k: Hash)
    requires k in points
    ensures |WithoutNode(points, points[k].id)| < |points|
    ensures |Ids(points)| == |Ids(WithoutNode(points, points[k].id))| + 1
  {
    var rest := WithoutNode(points, points[k].id);
    SubsetCard(rest.Keys, points.Keys);
    assert k in points.Keys - rest.Keys;
    IdsWithout(points, points[k].id);
  }

  /** No node owns more than v points, so there are at least |points| / v nodes. */
  lemma {:induction false} EnoughNodes(hash: string -> Hash, v: nat, points: Points)
    requires Proper(hash, v, points) && 0 < v
    ensures |points.Keys| <= v * |Ids(points)|
    decreases |points|
  {
    if points == map[] {
      assert points.Keys == {};
    } else {
      var k :| k in points;
      var rest := WithoutNode(points, points[k].id);
      OwnPoints(hash, v, points, points[k].id);
      FewerPoints(points, k);
      ProperKept(hash, v, points, points[k]);
      EnoughNodes(hash, v, rest);
      MoreByOne(v, |Ids(rest)|);
    }
  }

  lemma MoreByOne(v: nat, n: nat)
    ensures v * (n + 1) == v * n + v
  {
  }

  lemma QuotientAtMost(a: nat, v: nat, n: nat)
    requires 0 < v && a <= v * n
    ensures a / v <= n
  {
    var q := a / v;
    assert v * q <= a;
    if q > n {
      ProductsGrow(v, n + 1, q);
      assert false;
    }
  }

  lemma ProductsGrow(v: nat, m: nat, q: nat)
    requires m <= q
    ensures v * m <= v * q
  {
  }
}
