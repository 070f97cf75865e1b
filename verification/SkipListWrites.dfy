/** The pointer and span writes of Insert and Delete, each tied to the value-level step in Towers that
    keeps the invariant. */
module SkipListWrites {
  import opened Towers

  // ----- one level of one node -----

  /** A step that rewrites one level rewrites just that entry of the picture. */
  lemma OneLevel(nodes: seq<Node>, was: seq<seq<Link>>, i: nat)
    requires i < MAX_LEVEL == |was|
    requires forall j {:trigger was[j]} :: 0 <= j < MAX_LEVEL && j != i ==> Links(nodes, j) == was[j]
    ensures AllLinks(nodes) == was[i := Links(nodes, i)]
  {
  }

  /** The picture with one link of one level replaced. */
  ghost function Put(links: seq<seq<Link>>, i: nat, r: nat, l: Link): seq<seq<Link>>
    requires i < |links| && r < |links[i]|
  {
    links[i := links[i][r := l]]
  }

  lemma PutTwice(links: seq<seq<Link>>, i: nat, r: nat, l: Link, m: Link)
    requires i < |links| && r < |links[i]|
    ensures Put(Put(links, i, r, l), i, r, m) == Put(links, i, r, m)
  {
    assert links[i][r := l][r := m] == links[i][r := m];
  }

  lemma PutApart(links: seq<seq<Link>>, i: nat, r: nat, l: Link, p: nat, m: Link)
    requires i < |links| && r < |links[i]| && p < |links[i]| && r != p
    ensures Put(Put(links, i, r, l), i, p, m) == Put(Put(links, i, p, m), i, r, l)
  {
    assert links[i][r := l][p := m] == links[i][p := m][r := l];
  }

  method SetForward(ghost nodes: seq<Node>, ghost r: nat, u: Node, i: nat, next: Node?)
    requires Distinct(nodes) && Sized(nodes) && r < |nodes| && u == nodes[r] && i < MAX_LEVEL && i < u.height
    modifies u`forward
    ensures Sized(nodes) && u.forward == old(u.forward)[i := next]
    ensures AllLinks(nodes) == Put(old(AllLinks(nodes)), i, r, Link(next, u.span[i]))
  {
    ghost var was := AllLinks(nodes);
    u.forward := u.forward[i := next];
    assert Links(nodes, i) == was[i][r := Link(next, u.span[i])];
    OneLevel(nodes, was, i);
  }

  method SetSpan(ghost nodes: seq<Node>, ghost r: nat, u: Node, i: nat, d: int)
    requires Distinct(nodes) && Sized(nodes) && r < |nodes| && u == nodes[r] && i < MAX_LEVEL && i < u.height
    modifies u`span
    ensures Sized(nodes) && u.span == old(u.span)[i := d]
    ensures AllLinks(nodes) == Put(old(AllLinks(nodes)), i, r, Link(u.forward[i], d))
  {
    ghost var was := AllLinks(nodes);
    u.span := u.span[i := d];
    assert Links(nodes, i) == was[i][r := Link(u.forward[i], d)];
    OneLevel(nodes, was, i);
  }

  /** Two links of a level, each written in two steps. */
  lemma FourPuts(links: seq<seq<Link>>, i: nat, p: nat, q: nat, a: Link, b: Link, c: Link, d: Link)
    requires i < |links| && p < |links[i]| && q < |links[i]| && p != q
    ensures Put(Put(Put(Put(links, i, q, a), i, p, b), i, q, c), i, p, d) == Put(Put(links, i, p, d), i, q, c)
  {
    PutApart(links, i, q, a, p, b);
    PutTwice(Put(links, i, p, b), i, q, a, c);
    PutApart(links, i, p, b, q, c);
    PutTwice(Put(links, i, q, c), i, p, b, d);
    PutApart(links, i, q, c, p, d);
  }

  /** The new node takes over u's link, and u links to the new node. */
  method LinkNext(ghost nodes: seq<Node>, ghost k: nat, ghost r: nat, u: Node, x: Node, i: nat)
    requires Distinct(nodes) && Sized(nodes) && r < k < |nodes| && u == nodes[r] && x == nodes[k]
    requires i < MAX_LEVEL && i < u.height && i < x.height
    modifies u`forward, x`forward
    ensures Sized(nodes) && u.forward == old(u.forward)[i := x] && x.forward == old(x.forward)[i := old(u.forward[i])]
    ensures AllLinks(nodes) == Put(Put(old(AllLinks(nodes)), i, k, Link(old(u.forward[i]), x.span[i])),
                                   i, r, Link(x, u.span[i]))
  {
    SetForward(nodes, k, x, i, u.forward[i]);
    SetForward(nodes, r, u, i, x);
  }

  /** u's span is split in two. */
  method LinkSpans(ghost nodes: seq<Node>, ghost k: nat, ghost r: nat, u: Node, x: Node, i: nat, below: int)
    requires Distinct(nodes) && Sized(nodes) && r < k < |nodes| && u == nodes[r] && x == nodes[k]
    requires i < MAX_LEVEL && i < u.height && i < x.height
    modifies u`span, x`span
    ensures Sized(nodes)
    ensures AllLinks(nodes) == Put(Put(old(AllLinks(nodes)), i, k, Link(x.forward[i], old(u.span[i]) - below)),
                                   i, r, Link(u.forward[i], below + 1))
  {
    SetSpan(nodes, k, x, i, u.span[i] - below);
    SetSpan(nodes, r, u, i, below + 1);
  }

  /** Insert on a level the new node reaches. `below` is the distance from u to the new node's level-0
      predecessor. */
  method LinkLevel(ghost nodes: seq<Node>, ghost links: seq<Link>, ghost k: nat, ghost r: nat,
                   u: Node, x: Node, i: nat, below: int)
    requires Distinct(nodes) && Sized(nodes) && r <= k < k + 1 < |nodes| && u == nodes[r] && x == nodes[k + 1]
    requires i < MAX_LEVEL && i < u.height && i < x.height && below == k - r
    requires |links| == |nodes| - 1 && Links(nodes, i) == With(links, k + 1, Link(null, 0))
    modifies u`forward, u`span, x`forward, x`span
    ensures Sized(nodes) && AllLinks(nodes) == old(AllLinks(nodes))[i := Linked(links, k, r, x, i)]
  {
    ghost var was, spanX := AllLinks(nodes), x.span[i];
    LinkRead(nodes, links, k, r, u, i);
    LinkNext(nodes, k + 1, r, u, x, i);
    LinkSpans(nodes, k + 1, r, u, x, i, below);
    PutsAreLinked(was, links, k, r, x, i, Link(links[r].next, spanX), Link(x, links[r].span));
  }

  lemma PutsAreLinked(was: seq<seq<Link>>, links: seq<Link>, k: nat, r: nat, x: Node, i: nat, a: Link, b: Link)
    requires i < |was| && i < x.height && r <= k < |links| && was[i] == With(links, k + 1, Link(null, 0))
    ensures var c, d := Link(links[r].next, links[r].span - (k - r)), Link(x, k - r + 1);
            Put(Put(Put(Put(was, i, k + 1, a), i, r, b), i, k + 1, c), i, r, d) == was[i := Linked(links, k, r, x, i)]
  {
    var c, d := Link(links[r].next, links[r].span - (k - r)), Link(x, k - r + 1);
    FourPuts(was, i, r, k + 1, a, b, c, d);
    LinkedIs(links, k, r, x, i);
  }

  lemma LinkRead(nodes: seq<Node>, links: seq<Link>, k: nat, r: nat, u: Node, i: nat)
    requires Sized(nodes) && r <= k < k + 1 < |nodes| && u == nodes[r] && i < u.height
    requires |links| == |nodes| - 1 && Links(nodes, i) == With(links, k + 1, Link(null, 0))
    ensures links[r] == Link(u.forward[i], u.span[i])
  {
    assert Links(nodes, i)[r] == links[r];
  }

  /** Insert on an active level above the new node: one more node lies under u's link. */
  method PassLevel(ghost nodes: seq<Node>, ghost links: seq<Link>, ghost k: nat, ghost r: nat, u: Node,
      ghost x: Node, i: nat)
    requires Distinct(nodes) && Sized(nodes) && r <= k < k + 1 < |nodes| && u == nodes[r]
    requires i < MAX_LEVEL && x.height <= i < u.height
    requires |links| == |nodes| - 1 && Links(nodes, i) == With(links, k + 1, Link(null, 0))
    modifies u`span
    ensures Sized(nodes) && AllLinks(nodes) == old(AllLinks(nodes))[i := Linked(links, k, r, x, i)]
  {
    LinkRead(nodes, links, k, r, u, i);
    LinkedIs(links, k, r, x, i);
    SetSpan(nodes, r, u, i, u.span[i] + 1);
  }

  // ----- Insert's writes -----

  /** The nodes and positions a descent found lie at or before rank[0] and reach their level. */
  ghost predicate Usable(nodes: seq<Node>, update: seq<Node>, rank: seq<int>, level: int) {
    && |update| == |rank| == MAX_LEVEL && level <= MAX_LEVEL && 0 <= rank[0] < |nodes| - 1
    && forall i {:trigger rank[i]} :: 0 <= i < level ==>
         0 <= rank[i] <= rank[0] && update[i] == nodes[rank[i]] && i < update[i].height
  }

  /** Insert's first loop: the levels x reaches. */
  method LinkReached(ghost nodes: seq<Node>, ghost before: seq<seq<Link>>, update: seq<Node>, rank: seq<int>,
      x: Node, ghost level: nat)
    requires x.height <= level && Usable(nodes, update, rank, level) && |before| == MAX_LEVEL
    requires Fits(before, rank, level)
    requires Distinct(nodes) && Sized(nodes) && x == nodes[rank[0] + 1]
    requires AllLinks(nodes) == SplicedLinks(before, rank, x, 0)
    modifies nodes`forward, nodes`span
    ensures Sized(nodes) && AllLinks(nodes) == SplicedLinks(before, rank, x, x.height)
  {
    for i := 0 to x.height
      invariant Sized(nodes) && AllLinks(nodes) == SplicedLinks(before, rank, x, i)
    {
      assert AllLinks(nodes)[i] == Links(nodes, i) == With(before[i], rank[0] + 1, Link(null, 0));
      LinkLevel(nodes, before[i], rank[0], rank[i], update[i], x, i, rank[0] - rank[i]);
      assert AllLinks(nodes) == SplicedLinks(before, rank, x, i + 1);
    }
  }

  /** Insert's second loop: the active levels above x. */
  method LinkAbove(ghost nodes: seq<Node>, ghost before: seq<seq<Link>>, update: seq<Node>, rank: seq<int>,
      ghost x: Node, from: nat, level: nat)
    requires from == x.height <= level && Usable(nodes, update, rank, level) && |before| == MAX_LEVEL
          && Fits(before, rank, level)
    requires Distinct(nodes) && Sized(nodes)
    requires AllLinks(nodes) == SplicedLinks(before, rank, x, from)
    modifies nodes`span
    ensures Sized(nodes) && AllLinks(nodes) == SplicedLinks(before, rank, x, level)
  {
    for i := from to level
      invariant Sized(nodes) && AllLinks(nodes) == SplicedLinks(before, rank, x, i)
    {
      assert AllLinks(nodes)[i] == Links(nodes, i) == With(before[i], rank[0] + 1, Link(null, 0));
      PassLevel(nodes, before[i], rank[0], rank[i], update[i], x, i);
      assert AllLinks(nodes) == SplicedLinks(before, rank, x, i + 1);
    }
  }

  /** On level 0 every link is a single step. */
  lemma NextIs(nodes: seq<Node>, level: int, k: int)
    requires Sized(nodes) && LevelShape(nodes, Links(nodes, 0), 0) && 0 <= k < |nodes| && Heights(nodes, level)
    ensures nodes[k].forward[0] == if k + 1 < |nodes| then nodes[k + 1] else null
    ensures nodes[k].span[0] == if k + 1 < |nodes| then 1 else 0
  {
    assert LinkShape(nodes, Links(nodes, 0), k, 0);
    if k + 1 < |nodes| { assert nodes[k + 1].height > 0; }
  }

  /** Insert's backward pointers: `next` is u's level-0 successor. */
  method SetBackward(ghost nodes: seq<Node>, ghost k: nat, u: Node, x: Node, next: Node?)
    requires Distinct(nodes) && k < |nodes| && u == nodes[k] && x !in nodes
    requires next == if k + 1 < |nodes| then nodes[k + 1] else null
    modifies x`backward, nodes`backward
    ensures Backs(With(nodes, k + 1, x)) == SplicedBacks(nodes, old(Backs(nodes)), k, x)
  {
    x.backward := u;
    if next != null {
      assert next in nodes;
      next.backward := x;
    }
  }

  /** Before any pointer is written, the new node's empty links sit in every level. */
  lemma StartLinks(nodes: seq<Node>, rank: seq<int>, x: Node, level: int)
    requires Empty(x) && Fits(AllLinks(nodes), rank, level) && rank[0] < |nodes|
    ensures Fits(AllLinks(nodes), rank, 0)
    ensures AllLinks(With(nodes, rank[0] + 1, x)) == SplicedLinks(AllLinks(nodes), rank, x, 0)
  {
    var nodes' := With(nodes, rank[0] + 1, x);
    forall i: nat | i < MAX_LEVEL ensures AllLinks(nodes')[i] == With(AllLinks(nodes)[i], rank[0] + 1, Link(null, 0)) {
      StartLinksAt(nodes, rank[0], x, i);
    }
  }

  lemma StartLinksAt(nodes: seq<Node>, k: nat, x: Node, i: nat)
    requires Empty(x) && k < |nodes| && i < MAX_LEVEL
    ensures Links(With(nodes, k + 1, x), i) == With(Links(nodes, i), k + 1, Link(null, 0))
  {
  }

  twostate lemma BacksKept(nodes: seq<Node>)
    requires forall n :: n in nodes ==> n.backward == old(n.backward)
    ensures Backs(nodes) == old(Backs(nodes))
  {
    forall p | 0 <= p < |nodes| ensures nodes[p].backward == old(nodes[p].backward) {
      assert nodes[p] in nodes;
    }
  }

  /** Backward pointers are no part of the levels. */
  twostate lemma LevelsKept(nodes: seq<Node>)
    requires forall n :: n in nodes ==> n.forward == old(n.forward) && n.span == old(n.span)
    ensures AllLinks(nodes) == old(AllLinks(nodes)) && (old(Sized(nodes)) ==> Sized(nodes))
  {
    forall i: nat ensures Links(nodes, i) == old(Links(nodes, i)) {
      forall p | 0 <= p < |nodes| ensures LinkOf(nodes[p], i) == old(LinkOf(nodes[p], i)) {
        assert nodes[p] in nodes;
      }
    }
    assert old(Sized(nodes)) ==> forall p :: 0 <= p < |nodes| ==> nodes[p] in nodes;
  }

  /** Insert's pointer and span loops. */
  method LinkAll(ghost nodes: seq<Node>, ghost before: seq<seq<Link>>, update: seq<Node>, rank: seq<int>, x: Node,
      level: nat)
    requires x.height <= level && Usable(nodes, update, rank, level) && |before| == MAX_LEVEL
    requires Fits(before, rank, level)
    requires Distinct(nodes) && Sized(nodes) && x == nodes[rank[0] + 1]
    requires AllLinks(nodes) == SplicedLinks(before, rank, x, 0)
    modifies nodes`forward, nodes`span
    ensures Sized(nodes) && AllLinks(nodes) == SplicedLinks(before, rank, x, level) && Backs(nodes) == old(Backs(nodes))
  {
    LinkReached(nodes, before, update, rank, x, level);
    LinkAbove(nodes, before, update, rank, x, x.height, level);
    BacksKept(nodes);
  }

  /** All of Insert's pointer writes: the picture afterwards. */
  method Weave(ghost nodes: seq<Node>, update: seq<Node>, rank: seq<int>, x: Node, level: nat)
    requires Sized(nodes) && Good(nodes, AllLinks(nodes), Backs(nodes), level)
    requires x !in nodes && Empty(x) && 1 <= x.height <= level && |update| == |rank| == MAX_LEVEL
    requires Found(nodes, x.Key(), level, update, rank) && Between(nodes, x.Key(), rank[0])
    requires Fits(AllLinks(nodes), rank, level)
    modifies nodes, x
    ensures Sized(With(nodes, rank[0] + 1, x))
    ensures AllLinks(With(nodes, rank[0] + 1, x)) == SplicedLinks(old(AllLinks(nodes)), rank, x, level)
    ensures Backs(With(nodes, rank[0] + 1, x)) == SplicedBacks(nodes, old(Backs(nodes)), rank[0], x)
  {
    ghost var before := AllLinks(nodes);
    ghost var nodes' := With(nodes, rank[0] + 1, x);
    WeaveSetup(nodes, update, rank, x, level);
    SetBackward(nodes, rank[0], update[0], x, update[0].forward[0]);
    LevelsKept(nodes');
    LinkAll(nodes', before, update, rank, x, level);
  }

  lemma WeaveSetup(nodes: seq<Node>, update: seq<Node>, rank: seq<int>, x: Node, level: nat)
    requires Sized(nodes) && Good(nodes, AllLinks(nodes), Backs(nodes), level)
    requires x !in nodes && Empty(x) && 1 <= x.height <= level && |update| == |rank| == MAX_LEVEL
    requires Found(nodes, x.Key(), level, update, rank) && Between(nodes, x.Key(), rank[0])
    requires Fits(AllLinks(nodes), rank, level)
    ensures var nodes' := With(nodes, rank[0] + 1, x);
            && Distinct(nodes') && Sized(nodes') && Usable(nodes', update, rank, level)
            && AllLinks(nodes') == SplicedLinks(AllLinks(nodes), rank, x, 0)
    ensures update[0] == nodes[rank[0]] && 0 < update[0].height
    ensures update[0].forward[0] == if rank[0] + 1 < |nodes| then nodes[rank[0] + 1] else null
  {
    GoodHeights(nodes, level, rank[0], x);
    assert LevelShape(nodes, AllLinks(nodes)[0], 0) && update[0] == nodes[rank[0]];
    NextIs(nodes, level, rank[0]);
    StartLinks(nodes, rank, x, level);
    FoundUsable(nodes, AllLinks(nodes), update, rank, x, level);
  }

  lemma FoundUsable(nodes: seq<Node>, links: seq<seq<Link>>, update: seq<Node>, rank: seq<int>, x: Node, level: nat)
    requires |update| == |rank| == MAX_LEVEL && Found(nodes, x.Key(), level, update, rank) && Fits(links, rank, level)
    requires 0 <= rank[0] < |nodes| && |links| == MAX_LEVEL && level <= MAX_LEVEL
    ensures Usable(With(nodes, rank[0] + 1, x), update, rank, level)
  {
    forall i {:trigger rank[i]} | 0 <= i < level
      ensures 0 <= rank[i] <= rank[0] && update[i] == With(nodes, rank[0] + 1, x)[rank[i]] && i < update[i].height
    {
      assert rank[0] < |links[i]|;
    }
  }

  // ----- Delete's writes -----

  /** Delete on one level: `u`, at position r, is the last node before x = nodes[k] that reaches it. */
  method UnlinkLevel(ghost nodes: seq<Node>, ghost k: nat, ghost r: nat, u: Node, x: Node, i: nat)
    requires Distinct(nodes) && Sized(nodes) && r < k < |nodes| && u == nodes[r] && x == nodes[k]
    requires i < MAX_LEVEL && i < u.height && (u.forward[i] == x <==> i < x.height)
    modifies u`forward, u`span
    ensures Sized(nodes)
    ensures AllLinks(nodes) == old(AllLinks(nodes))[i := Relinked(nodes, old(Links(nodes, i)), k, r, i)]
  {
    ghost var was := AllLinks(nodes);
    assert was[i][r] == LinkOf(u, i) && was[i][k] == LinkOf(x, i);
    if u.forward[i] == x {
      SetSpan(nodes, r, u, i, u.span[i] + x.span[i] - 1);
      SetForward(nodes, r, u, i, x.forward[i]);
      PutTwice(was, i, r, Link(x, u.span[i]), Link(x.forward[i], u.span[i]));
    } else {
      SetSpan(nodes, r, u, i, u.span[i] - 1);
    }
  }

  /** On this level the descent stopped at a node before k, whose link is to x just when x reaches the level. */
  ghost predicate SeversAt(nodes: seq<Node>, links: seq<seq<Link>>, update: seq<Node>, rank: seq<int>, x: Node,
      i: int) {
    && 0 <= i < |update| == |rank| == |links| && 0 <= rank[i] < |nodes| == |links[i]|
    && update[i] == nodes[rank[i]] && i < update[i].height && (links[i][rank[i]].next == x <==> i < x.height)
  }

  ghost predicate Severs(nodes: seq<Node>, links: seq<seq<Link>>, update: seq<Node>, rank: seq<int>, x: Node,
      level: int) {
    && |update| == |rank| == |links| == MAX_LEVEL && level <= MAX_LEVEL
    && forall i :: 0 <= i < level ==> SeversAt(nodes, links, update, rank, x, i)
  }

  lemma LeavesBelow(nodes: seq<Node>, links: seq<seq<Link>>, k: nat, rank: seq<int>, level: int, done: int)
    requires Leaves(nodes, links, k, rank, level) && done <= level
    ensures Leaves(nodes, links, k, rank, done)
  {
  }

  lemma RelinkedMore(nodes: seq<Node>, links: seq<seq<Link>>, k: nat, rank: seq<int>, i: nat)
    requires Leaves(nodes, links, k, rank, i + 1) && i < |links|
    ensures Leaves(nodes, links, k, rank, i) && |links[i]| == |nodes| && 0 <= rank[i] < k
    ensures RelinkedAll(nodes, links, k, rank, i)[i] == links[i]
    ensures RelinkedAll(nodes, links, k, rank, i + 1) ==
            RelinkedAll(nodes, links, k, rank, i)[i := Relinked(nodes, links[i], k, rank[i], i)]
  {
    LeavesBelow(nodes, links, k, rank, i + 1, i);
    assert |links[i]| == |nodes|;
  }

  /** Delete's pointer and span loop. */
  method UnlinkAll(ghost nodes: seq<Node>, ghost before: seq<seq<Link>>, ghost k: nat,
                   update: seq<Node>, rank: seq<int>, x: Node, level: nat)
    requires Distinct(nodes) && Sized(nodes) && AllLinks(nodes) == before
    requires Leaves(nodes, before, k, rank, level) && Severs(nodes, before, update, rank, x, level) && x == nodes[k]
    modifies nodes`forward, nodes`span
    ensures Sized(nodes) && AllLinks(nodes) == RelinkedAll(nodes, before, k, rank, level)
          && Backs(nodes) == old(Backs(nodes))
  {
    LeavesBelow(nodes, before, k, rank, level, 0);
    for i := 0 to level
      invariant Leaves(nodes, before, k, rank, i)
      invariant Sized(nodes) && AllLinks(nodes) == RelinkedAll(nodes, before, k, rank, i)
    {
      LeavesBelow(nodes, before, k, rank, level, i + 1);
      RelinkedMore(nodes, before, k, rank, i);
      assert AllLinks(nodes)[i] == Links(nodes, i) == before[i];
      assert SeversAt(nodes, before, update, rank, x, i);
      assert before[i][rank[i]] == LinkOf(update[i], i);
      UnlinkLevel(nodes, k, rank[i], update[i], x, i);
    }
    BacksKept(nodes);
  }

  /** Delete's backward pointer. */
  method SetBackwardPast(ghost nodes: seq<Node>, ghost k: nat, x: Node, next: Node?)
    requires Distinct(nodes) && 0 < k < |nodes| && x == nodes[k] && x.backward == nodes[k - 1]
    requires next == if k + 1 < |nodes| then nodes[k + 1] else null
    modifies nodes`backward
    ensures Backs(Without(nodes, k)) == UnsplicedBacks(nodes, old(Backs(nodes)), k)
    ensures AllLinks(nodes) == old(AllLinks(nodes)) && (old(Sized(nodes)) ==> Sized(nodes))
    ensures x.backward == nodes[k - 1]
  {
    if next != null {
      assert next in nodes;
      next.backward := x.backward;
    }
    LevelsKept(nodes);
  }

  lemma LinksWithout(nodes: seq<Node>, k: nat)
    requires k < |nodes|
    ensures AllLinks(Without(nodes, k)) == WithoutAll(AllLinks(nodes), k)
    ensures Sized(nodes) ==> Sized(Without(nodes, k))
  {
    forall i | 0 <= i < MAX_LEVEL ensures Links(Without(nodes, k), i) == Without(AllLinks(nodes)[i], k) {
    }
  }

  /** All of Delete's pointer writes: the picture afterwards. */
  method Detach(ghost nodes: seq<Node>, ghost k: nat, update: seq<Node>, rank: seq<int>, x: Node, level: nat)
    requires Distinct(nodes) && Sized(nodes) && 0 < k && Leaves(nodes, AllLinks(nodes), k, rank, level) && 1 <= level
    requires Severs(nodes, AllLinks(nodes), update, rank, x, level) && x == nodes[k] && x.backward == nodes[k - 1]
    requires 0 < x.height && x.forward[0] == if k + 1 < |nodes| then nodes[k + 1] else null
    modifies nodes
    ensures Sized(Without(nodes, k)) && |x.forward| == x.height
    ensures AllLinks(Without(nodes, k)) == WithoutAll(RelinkedAll(nodes, old(AllLinks(nodes)), k, rank, level), k)
    ensures Backs(Without(nodes, k)) == UnsplicedBacks(nodes, old(Backs(nodes)), k)
    ensures x.forward[0] == old(x.forward[0]) && x.backward == nodes[k - 1]
  {
    ghost var before := AllLinks(nodes);
    assert before[0][k] == LinkOf(x, 0) && Backs(nodes)[k] == x.backward;
    UnlinkAll(nodes, before, k, update, rank, x, level);
    assert AllLinks(nodes)[0] == Links(nodes, 0) && Links(nodes, 0)[k] == before[0][k];
    assert Backs(nodes)[k] == x.backward;
    SetBackwardPast(nodes, k, x, x.forward[0]);
    LinksWithout(nodes, k);
  }
}
