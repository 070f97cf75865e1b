/** The skip list: a linked structure of up to MAX_LEVEL levels, with a span beside every forward
    pointer that counts the level-0 steps the pointer jumps. */
module Towers {
  import opened Order
  import opened RankedSeq

  const MAX_LEVEL := 16

  class Node {
    const member: string
    const score: real
    const height: nat
    var forward: seq<Node?>
    var span: seq<int>
    var backward: Node?

    constructor (member: string, score: real, height: nat)
      ensures this.member == member && this.score == score && this.height == height
      ensures |forward| == |span| == height
      ensures backward == null && forall i :: 0 <= i < height ==> forward[i] == null && span[i] == 0
    {
      this.member, this.score, this.height := member, score, height;
      this.forward, this.span, this.backward := seq(height, _ => null), seq(height, _ => 0), null;
    }

    function Key(): Entry {
      Entry(score, member)
    }
  }

  // ----- the shape, one level at a time -----

  /** What one node holds on one level. */
  datatype Link = Link(next: Node?, span: int)

  ghost function LinkOf(n: Node, i: nat): Link
    reads n
  {
    if i < |n.forward| && i < |n.span| then Link(n.forward[i], n.span[i]) else Link(null, 0)
  }

  /** Level i as a value: the link of every position. */
  ghost function Links(nodes: seq<Node>, i: nat): (r: seq<Link>)
    reads nodes
    ensures |r| == |nodes| && forall p {:trigger r[p]} :: 0 <= p < |r| ==> r[p] == LinkOf(nodes[p], i)
  {
    seq(|nodes|, p requires 0 <= p < |nodes| reads nodes => LinkOf(nodes[p], i))
  }

  /** No node in positions lo..hi reaches above level i. */
  ghost predicate NoneTaller(nodes: seq<Node>, lo: int, hi: int, i: int)
    requires 0 <= lo && hi <= |nodes|
  {
    forall q :: lo <= q < hi ==> nodes[q].height <= i
  }

  /** The link at position p leads to the next position whose node reaches above level i, and its
      span is the distance; a nil link has the distance to the last position. */
  ghost predicate LinkShape(nodes: seq<Node>, links: seq<Link>, p: int, i: nat)
    requires 0 <= p < |nodes| == |links|
  {
    if links[p].next == null then
      links[p].span == |nodes| - 1 - p && NoneTaller(nodes, p + 1, |nodes|, i)
    else
      && 1 <= links[p].span < |nodes| - p
      && nodes[p + links[p].span] == links[p].next && i < links[p].next.height
      && NoneTaller(nodes, p + 1, p + links[p].span, i)
  }

  ghost predicate LevelShape(nodes: seq<Node>, links: seq<Link>, i: nat) {
    && |links| == |nodes|
    && forall p {:trigger LinkShape(nodes, links, p, i)} ::
         0 <= p < |nodes| && i < nodes[p].height ==> LinkShape(nodes, links, p, i)
  }

  /** Every node's arrays have its height. */
  ghost predicate Sized(nodes: seq<Node>)
    reads nodes
  {
    forall p :: 0 <= p < |nodes| ==> |nodes[p].forward| == |nodes[p].span| == nodes[p].height
  }

  ghost predicate Distinct(nodes: seq<Node>) {
    forall p, q :: 0 <= p < q < |nodes| ==> nodes[p] != nodes[q]
  }

  ghost function Keys(nodes: seq<Node>): (s: seq<Entry>)
    ensures |s| == |nodes| && forall p {:trigger s[p]} :: 0 <= p < |s| ==> s[p] == nodes[p].Key()
  {
    seq(|nodes|, p requires 0 <= p < |nodes| => nodes[p].Key())
  }

  /** Strict (score, member) order; the header at position 0 is not an entry. */
  ghost predicate Ascending(nodes: seq<Node>) {
    forall p, q {:trigger Less(nodes[p].Key(), nodes[q].Key())} :: 1 <= p < q < |nodes| ==>
                  Less(nodes[p].Key(), nodes[q].Key())
  }

  /** Once a position's key is not below `key`, no later one is. */
  lemma NotBelowAfter(nodes: seq<Node>, key: Entry, p: int)
    requires Ascending(nodes) && 1 <= p < |nodes| && !Less(nodes[p].Key(), key)
    ensures forall q :: p <= q < |nodes| ==> !Less(nodes[q].Key(), key)
  {
    forall q | p < q < |nodes| ensures !Less(nodes[q].Key(), key) {
      if Less(nodes[q].Key(), key) { LessTransitive(nodes[p].Key(), nodes[q].Key(), key); }
    }
  }

  /** Position r is the last one at or above level i whose key is below `key` (the header counts). */
  ghost predicate PredAt(nodes: seq<Node>, key: Entry, i: int, r: int) {
    && 0 <= r < |nodes| && i < nodes[r].height
    && (r > 0 ==> Less(nodes[r].Key(), key))
    && forall q :: r < q < |nodes| && i < nodes[q].height ==> !Less(nodes[q].Key(), key)
  }

  // ----- where a key belongs -----

  /** Every node up to position k is below `key`, and none after it is. */
  ghost predicate Between(nodes: seq<Node>, key: Entry, k: int) {
    && 0 <= k < |nodes|
    && (forall p :: 1 <= p <= k ==> Less(nodes[p].Key(), key))
    && (forall q :: k < q < |nodes| ==> !Less(nodes[q].Key(), key))
  }

  lemma LevelZero(nodes: seq<Node>, key: Entry, r: int)
    requires Ascending(nodes) && PredAt(nodes, key, 0, r)
    requires forall p :: 1 <= p < |nodes| ==> 1 <= nodes[p].height
    ensures Between(nodes, key, r)
  {
    forall p | 1 <= p < r ensures Less(nodes[p].Key(), key) {
      LessTransitive(nodes[p].Key(), nodes[r].Key(), key);
    }
  }

  lemma BelowLevelZero(nodes: seq<Node>, key: Entry, k: int, i: int, r: int)
    requires Between(nodes, key, k) && PredAt(nodes, key, i, r)
    ensures r <= k && NoneTaller(nodes, r + 1, k + 1, i)
  {
  }

  lemma KeysBetween(nodes: seq<Node>, key: Entry, k: int)
    requires Between(nodes, key, k)
    ensures Position(Keys(nodes[1..]), key) == k
  {
    PositionIs(Keys(nodes[1..]), key, k);
  }

  lemma AscendingKeys(nodes: seq<Node>)
    requires Ascending(nodes) && |nodes| > 0
    ensures Sorted(Keys(nodes[1..]))
  {
  }

  lemma PresentAt(nodes: seq<Node>, key: Entry, k: int)
    requires Ascending(nodes) && Between(nodes, key, k)
    ensures key in Keys(nodes[1..]) <==> k + 1 < |nodes| && nodes[k + 1].Key() == key
  {
    AscendingKeys(nodes);
    KeysBetween(nodes, key, k);
    PositionSplits(Keys(nodes[1..]), key);
  }

  lemma AscendingWith(nodes: seq<Node>, key: Entry, k: int, x: Node)
    requires Ascending(nodes) && Between(nodes, key, k) && x.Key() == key
    requires k + 1 < |nodes| ==> nodes[k + 1].Key() != key
    ensures Ascending(With(nodes, k + 1, x))
    ensures Keys(With(nodes, k + 1, x)[1..]) == Inserted(Keys(nodes[1..]), key)
  {
    var nodes' := With(nodes, k + 1, x);
    forall q | k < q < |nodes| ensures Less(key, nodes[q].Key()) {
      LessTotal(key, nodes[k + 1].Key());
      if k + 1 < q { LessTransitive(key, nodes[k + 1].Key(), nodes[q].Key()); }
    }
    forall p, q | 1 <= p < q < |nodes'| ensures Less(nodes'[p].Key(), nodes'[q].Key()) {
      if p <= k { assert Less(nodes[p].Key(), key); }
      if q > k + 1 { assert Less(key, nodes[q - 1].Key()); }
    }
    KeysBetween(nodes, key, k);
    PresentAt(nodes, key, k);
    assert Keys(nodes'[1..]) == Keys(nodes[1..])[..k] + [key] + Keys(nodes[1..])[k..];
  }

  ghost predicate Heights(nodes: seq<Node>, level: int) {
    |nodes| > 0 && nodes[0].height == MAX_LEVEL && forall p :: 1 <= p < |nodes| ==> 1 <= nodes[p].height <= level
  }

  // ----- inserting and removing one position, one level at a time -----

  ghost function With<T>(s: seq<T>, k: nat, x: T): (r: seq<T>)
    requires k <= |s|
    ensures |r| == |s| + 1 && r[k] == x
    ensures forall p {:trigger r[p]} :: 0 <= p < k ==> r[p] == s[p]
    ensures forall p {:trigger r[p]} :: k < p < |r| ==> r[p] == s[p - 1]
  {
    seq(|s| + 1, p requires 0 <= p <= |s| => if p < k then s[p] else if p == k then x else s[p - 1])
  }

  ghost function Without<T>(s: seq<T>, k: nat): (r: seq<T>)
    requires k < |s|
    ensures |r| == |s| - 1
    ensures forall p {:trigger r[p]} :: 0 <= p < k ==> r[p] == s[p]
    ensures forall p {:trigger r[p]} :: k <= p < |r| ==> r[p] == s[p + 1]
  {
    seq(|s| - 1, p requires 0 <= p < |s| - 1 => if p < k then s[p] else s[p + 1])
  }

  /** Level i after x came in behind position k, where position r is the last one up to k that
      reaches above the level: x takes over the rest of the link, or only lengthens it. */
  ghost function Linked(links: seq<Link>, k: nat, r: nat, x: Node, i: nat): seq<Link>
    requires r <= k < |links|
  {
    if i < x.height then
      With(links[r := Link(x, k - r + 1)], k + 1, Link(links[r].next, links[r].span - (k - r)))
    else
      With(links[r := Link(links[r].next, links[r].span + 1)], k + 1, Link(null, 0))
  }

  lemma LinkedAt(nodes: seq<Node>, links: seq<Link>, k: nat, r: nat, x: Node, i: nat, p: nat)
    requires r <= k < |nodes| && LevelShape(nodes, links, i)
    requires i < nodes[r].height && NoneTaller(nodes, r + 1, k + 1, i)
    requires p <= |nodes| && i < With(nodes, k + 1, x)[p].height
    ensures LinkShape(With(nodes, k + 1, x), Linked(links, k, r, x, i), p, i)
  {
    if p < r {
      assert LinkShape(nodes, links, p, i);
      LinkedBefore(nodes, links, k, r, x, i, p);
    } else if p == r {
      LinkedPred(nodes, links, k, r, x, i);
    } else if p == k + 1 {
      LinkedNew(nodes, links, k, r, x, i);
    } else if p > k + 1 {
      assert LinkShape(nodes, links, p - 1, i);
      LinkedAfter(nodes, links, k, r, x, i, p);
    }
  }

  lemma LinkedShape(nodes: seq<Node>, links: seq<Link>, k: nat, r: nat, x: Node, i: nat)
    requires r <= k < |nodes| && LevelShape(nodes, links, i)
    requires i < nodes[r].height && NoneTaller(nodes, r + 1, k + 1, i)
    ensures LevelShape(With(nodes, k + 1, x), Linked(links, k, r, x, i), i)
  {
    var nodes', links' := With(nodes, k + 1, x), Linked(links, k, r, x, i);
    forall p | 0 <= p < |nodes'| && i < nodes'[p].height ensures LinkShape(nodes', links', p, i) {
      LinkedAt(nodes, links, k, r, x, i, p);
    }
  }

  lemma LinkedBefore(nodes: seq<Node>, links: seq<Link>, k: nat, r: nat, x: Node, i: nat, p: nat)
    requires p < r <= k < |nodes| == |links| && i < nodes[p].height && i < nodes[r].height
    requires LinkShape(nodes, links, p, i)
    ensures LinkShape(With(nodes, k + 1, x), Linked(links, k, r, x, i), p, i)
  {
    assert links[p].next != null && p + links[p].span <= r;
    assert Linked(links, k, r, x, i)[p] == links[p];
  }

  lemma LinkedAfter(nodes: seq<Node>, links: seq<Link>, k: nat, r: nat, x: Node, i: nat, p: nat)
    requires r <= k < |nodes| == |links| && k + 1 < p <= |nodes|
    requires LinkShape(nodes, links, p - 1, i)
    ensures LinkShape(With(nodes, k + 1, x), Linked(links, k, r, x, i), p, i)
  {
    assert Linked(links, k, r, x, i)[p] == links[p - 1];
  }

  lemma LinkedPred(nodes: seq<Node>, links: seq<Link>, k: nat, r: nat, x: Node, i: nat)
    requires r <= k < |nodes| == |links| && LinkShape(nodes, links, r, i)
    requires NoneTaller(nodes, r + 1, k + 1, i)
    ensures LinkShape(With(nodes, k + 1, x), Linked(links, k, r, x, i), r, i)
  {
    assert links[r].next != null ==> k < r + links[r].span;
    if i < x.height {
      assert Linked(links, k, r, x, i)[r] == Link(x, k - r + 1);
    } else {
      assert Linked(links, k, r, x, i)[r] == Link(links[r].next, links[r].span + 1);
    }
  }

  lemma LinkedNew(nodes: seq<Node>, links: seq<Link>, k: nat, r: nat, x: Node, i: nat)
    requires r <= k < |nodes| == |links| && LinkShape(nodes, links, r, i)
    requires NoneTaller(nodes, r + 1, k + 1, i) && i < x.height
    ensures LinkShape(With(nodes, k + 1, x), Linked(links, k, r, x, i), k + 1, i)
  {
    var l := links[r];
    var hi := if l.next == null then |nodes| else r + l.span;
    assert l.next != null ==> k < hi;
    NoneTallerAfter(nodes, k, x, hi, i);
    assert Linked(links, k, r, x, i)[k + 1] == Link(l.next, l.span - (k - r));
    if l.next != null { assert With(nodes, k + 1, x)[hi + 1] == nodes[hi]; }
  }

  lemma NoneTallerAfter(nodes: seq<Node>, k: nat, x: Node, hi: int, i: nat)
    requires k < hi <= |nodes| && NoneTaller(nodes, k + 1, hi, i)
    ensures NoneTaller(With(nodes, k + 1, x), k + 2, hi + 1, i)
  {
    var nodes' := With(nodes, k + 1, x);
    forall q | k + 2 <= q < hi + 1 ensures nodes'[q].height <= i { assert nodes'[q] == nodes[q - 1]; }
  }

  /** Delete's writes on level i: position r, the last one before k that reaches above the level, takes
      over the link of position k, or only gets shorter. */
  ghost function Relinked(nodes: seq<Node>, links: seq<Link>, k: nat, r: nat, i: nat): (s: seq<Link>)
    requires r < k < |links| == |nodes|
    ensures |s| == |links|
  {
    if i < nodes[k].height then links[r := Link(links[k].next, links[r].span + links[k].span - 1)]
    else links[r := Link(links[r].next, links[r].span - 1)]
  }

  /** Level i once the node at position k is gone. */
  ghost function Unlinked(nodes: seq<Node>, links: seq<Link>, k: nat, r: nat, i: nat): seq<Link>
    requires r < k < |links| == |nodes|
  {
    Without(Relinked(nodes, links, k, r, i), k)
  }

  lemma UnlinkedShape(nodes: seq<Node>, links: seq<Link>, k: nat, r: nat, i: nat)
    requires r < k < |nodes| && LevelShape(nodes, links, i)
    requires i < nodes[r].height && NoneTaller(nodes, r + 1, k, i)
    ensures LevelShape(Without(nodes, k), Unlinked(nodes, links, k, r, i), i)
    ensures Distinct(nodes) ==> (links[r].next == nodes[k] <==> i < nodes[k].height)
  {
    var nodes', links' := Without(nodes, k), Unlinked(nodes, links, k, r, i);
    assert LinkShape(nodes, links, r, i);
    forall p | 0 <= p < |nodes'| && i < nodes'[p].height ensures LinkShape(nodes', links', p, i) {
      if p < r {
        UnlinkedBefore(nodes, links, k, r, i, p);
      } else if p >= k {
        UnlinkedAfter(nodes, links, k, r, i, p);
      } else {
        UnlinkedPred(nodes, links, k, r, i);
      }
    }
  }

  lemma UnlinkedBefore(nodes: seq<Node>, links: seq<Link>, k: nat, r: nat, i: nat, p: nat)
    requires p < r < k < |nodes| == |links| && i < nodes[r].height
    requires LinkShape(nodes, links, p, i)
    ensures LinkShape(Without(nodes, k), Unlinked(nodes, links, k, r, i), p, i)
  {
    assert links[p].next != null && p + links[p].span <= r;
    assert Unlinked(nodes, links, k, r, i)[p] == links[p];
  }

  lemma UnlinkedAfter(nodes: seq<Node>, links: seq<Link>, k: nat, r: nat, i: nat, p: nat)
    requires r < k <= p < |nodes| - 1 && |nodes| == |links|
    requires LinkShape(nodes, links, p + 1, i)
    ensures LinkShape(Without(nodes, k), Unlinked(nodes, links, k, r, i), p, i)
  {
    assert Unlinked(nodes, links, k, r, i)[p] == links[p + 1];
  }

  lemma UnlinkedPred(nodes: seq<Node>, links: seq<Link>, k: nat, r: nat, i: nat)
    requires r < k < |nodes| && LevelShape(nodes, links, i)
    requires i < nodes[r].height && NoneTaller(nodes, r + 1, k, i)
    ensures LinkShape(Without(nodes, k), Unlinked(nodes, links, k, r, i), r, i)
  {
    assert LinkShape(nodes, links, r, i);
    if i < nodes[k].height {
      assert LinkShape(nodes, links, k, i);
      assert links[r].span == k - r;
      assert Unlinked(nodes, links, k, r, i)[r] == Link(links[k].next, links[r].span + links[k].span - 1);
    } else {
      assert links[r].next != null ==> k < r + links[r].span;
      assert Unlinked(nodes, links, k, r, i)[r] == Link(links[r].next, links[r].span - 1);
    }
  }

  /** What the level-i assignments make of a level that has x's empty link at position k + 1. */
  lemma LinkedIs(links: seq<Link>, k: nat, r: nat, x: Node, i: nat)
    requires r <= k < |links|
    ensures var w := With(links, k + 1, Link(null, 0));
            Linked(links, k, r, x, i) ==
            if i < x.height then w[r := Link(x, k - r + 1)][k + 1 := Link(links[r].next, links[r].span - (k - r))]
            else w[r := Link(links[r].next, links[r].span + 1)]
  {
  }


  // ----- the whole picture -----

  ghost function AllLinks(nodes: seq<Node>): (r: seq<seq<Link>>)
    reads nodes
    ensures |r| == MAX_LEVEL && forall i {:trigger r[i]} :: 0 <= i < MAX_LEVEL ==> r[i] == Links(nodes, i)
  {
    seq(MAX_LEVEL, i requires 0 <= i < MAX_LEVEL reads nodes => Links(nodes, i))
  }

  ghost function Backs(nodes: seq<Node>): (r: seq<Node?>)
    reads nodes
    ensures |r| == |nodes| && forall p {:trigger r[p]} :: 0 <= p < |r| ==> r[p] == nodes[p].backward
  {
    seq(|nodes|, p requires 0 <= p < |nodes| reads nodes => nodes[p].backward)
  }

  /** The invariant, on values: strict order, every active level a chain through exactly the nodes that
      reach it with exact spans, nothing above, and backward pointers to the level-0 predecessor. */
  ghost predicate Good(nodes: seq<Node>, links: seq<seq<Link>>, backs: seq<Node?>, level: int) {
    && Distinct(nodes) && Ascending(nodes) && Heights(nodes, level) && 1 <= level <= MAX_LEVEL
    && |links| == MAX_LEVEL && BackwardIs(nodes, backs)
    && (forall i {:trigger links[i]} :: 0 <= i < level ==> LevelShape(nodes, links[i], i))
    && (forall i {:trigger links[i]} :: level <= i < MAX_LEVEL ==> |links[i]| == |nodes| && links[i][0].next == null)
  }

  /** No level is empty but the first. */
  ghost predicate Tight(nodes: seq<Node>, links: seq<seq<Link>>, level: int) {
    level > 1 ==> level <= |links| && |links[level - 1]| > 0 && links[level - 1][0].next != null
  }

  ghost predicate Fits(links: seq<seq<Link>>, rank: seq<int>, level: int) {
    && |rank| == |links| && |rank| > 0 && 0 <= rank[0]
    && (forall i {:trigger links[i]} :: 0 <= i < |links| ==> rank[0] < |links[i]|)
    && forall i {:trigger links[i]} :: 0 <= i < |links| ==> i < level ==> 0 <= rank[i] <= rank[0]
  }

  ghost function SplicedLinks(links: seq<seq<Link>>, rank: seq<int>, x: Node, level: int): seq<seq<Link>>
    requires Fits(links, rank, level)
  {
    seq(|links|, i requires 0 <= i < |links| =>
      if i < level then Linked(links[i], rank[0], rank[i], x, i) else With(links[i], rank[0] + 1, Link(null, 0)))
  }

  ghost function SplicedBacks(nodes: seq<Node>, backs: seq<Node?>, k: nat, x: Node): seq<Node?>
    requires k < |backs| == |nodes|
  {
    var b: seq<Node?> := With(backs, k + 1, nodes[k]);
    if k + 2 < |b| then b[k + 2 := x] else b
  }

  /** A new node's links. */
  ghost predicate Empty(x: Node)
    reads x
  {
    |x.forward| == |x.span| == x.height && forall i: nat :: LinkOf(x, i) == Link(null, 0)
  }

  /** What a descent to `key` finds. */
  ghost predicate Found(nodes: seq<Node>, key: Entry, level: int, update: seq<Node>, rank: seq<int>) {
    level <= |update| == |rank| && forall i {:trigger rank[i]} :: 0 <= i < level ==>
      PredAt(nodes, key, i, rank[i]) && update[i] == nodes[rank[i]]
  }

  // ----- Insert and Delete on the whole picture -----

  lemma GoodHeights(nodes: seq<Node>, level: int, k: nat, x: Node)
    requires Distinct(nodes) && Heights(nodes, level) && x !in nodes && 1 <= x.height <= level && k < |nodes|
    ensures Distinct(With(nodes, k + 1, x)) && Heights(With(nodes, k + 1, x), level)
  {
    var nodes' := With(nodes, k + 1, x);
    forall p, q | 0 <= p < q < |nodes'| ensures nodes'[p] != nodes'[q] {
      assert p == k + 1 || nodes'[p] in nodes;
      assert q == k + 1 || nodes'[q] in nodes;
    }
  }

  lemma FoundFits(nodes: seq<Node>, links: seq<seq<Link>>, backs: seq<Node?>, level: int,
                  key: Entry, update: seq<Node>, rank: seq<int>)
    requires Good(nodes, links, backs, level) && |update| == |rank| == MAX_LEVEL
    requires Found(nodes, key, level, update, rank) && Between(nodes, key, rank[0])
    ensures Fits(links, rank, level)
  {
    forall i {:trigger links[i]} | 0 <= i < |links|
      ensures rank[0] < |links[i]| && (i < level ==> 0 <= rank[i] <= rank[0])
    {
      if i < level { BelowLevelZero(nodes, key, rank[0], i, rank[i]); }
    }
  }

  lemma SplicedLevel(nodes: seq<Node>, links: seq<seq<Link>>, backs: seq<Node?>, level: int,
                     update: seq<Node>, rank: seq<int>, x: Node, i: nat)
    requires Good(nodes, links, backs, level) && |update| == |rank| == MAX_LEVEL
    requires Found(nodes, x.Key(), level, update, rank) && Between(nodes, x.Key(), rank[0])
    requires i < level && Fits(links, rank, level)
    ensures LevelShape(With(nodes, rank[0] + 1, x), SplicedLinks(links, rank, x, level)[i], i)
  {
    BelowLevelZero(nodes, x.Key(), rank[0], i, rank[i]);
    assert LevelShape(nodes, links[i], i);
    LinkedShape(nodes, links[i], rank[0], rank[i], x, i);
  }

  lemma SplicedAbove(nodes: seq<Node>, links: seq<seq<Link>>, backs: seq<Node?>, level: int, rank: seq<int>, x: Node,
                     i: nat)
    requires Good(nodes, links, backs, level) && Fits(links, rank, level) && level <= i < MAX_LEVEL
    ensures var links' := SplicedLinks(links, rank, x, level);
            |links'[i]| == |nodes| + 1 && links'[i][0].next == null
  {
    assert links[i][0].next == null;
  }

  /** Each node's backward pointer is to the node before it. */
  ghost predicate BackwardIs(nodes: seq<Node>, backs: seq<Node?>) {
    |backs| == |nodes| && forall q {:trigger backs[q]} :: 1 <= q < |nodes| ==> backs[q] == nodes[q - 1]
  }

  lemma BacksSpliced(nodes: seq<Node>, backs: seq<Node?>, k: nat, x: Node, p: nat)
    requires k < |backs| == |nodes| && 1 <= p <= |nodes|
    requires BackwardIs(nodes, backs)
    ensures SplicedBacks(nodes, backs, k, x)[p] == With(nodes, k + 1, x)[p - 1]
  {
    var with: seq<Node?> := With(backs, k + 1, nodes[k]);
    if p <= k {
      assert with[p] == backs[p] == nodes[p - 1];
    } else if p > k + 2 {
      assert with[p] == backs[p - 1] == nodes[p - 2];
    }
  }

  lemma AllBacksSpliced(nodes: seq<Node>, backs: seq<Node?>, k: nat, x: Node)
    requires k < |nodes| && BackwardIs(nodes, backs)
    ensures BackwardIs(With(nodes, k + 1, x), SplicedBacks(nodes, backs, k, x))
  {
    var backs' := SplicedBacks(nodes, backs, k, x);
    forall p {:trigger backs'[p]} | 1 <= p < |backs'| ensures backs'[p] == With(nodes, k + 1, x)[p - 1] {
      BacksSpliced(nodes, backs, k, x, p);
    }
  }

  lemma AllSplicedAbove(nodes: seq<Node>, links: seq<seq<Link>>, backs: seq<Node?>, level: int, rank: seq<int>,
                        x: Node)
    requires Good(nodes, links, backs, level) && Fits(links, rank, level)
    ensures var links' := SplicedLinks(links, rank, x, level);
            forall i {:trigger links'[i]} :: level <= i < MAX_LEVEL ==>
              |links'[i]| == |nodes| + 1 && links'[i][0].next == null
  {
    var links': seq<seq<Link>> := SplicedLinks(links, rank, x, level);
    forall i {:trigger links'[i]} | level <= i < MAX_LEVEL
      ensures |links'[i]| == |nodes| + 1 && links'[i][0].next == null
    {
      SplicedAbove(nodes, links, backs, level, rank, x, i);
    }
  }

  /** Linking a new node in where a descent to its key pointed keeps the whole invariant. */
  lemma GoodSpliced(nodes: seq<Node>, links: seq<seq<Link>>, backs: seq<Node?>, level: int,
                    update: seq<Node>, rank: seq<int>, x: Node)
    requires Good(nodes, links, backs, level) && |update| == |rank| == MAX_LEVEL
    requires Found(nodes, x.Key(), level, update, rank) && Between(nodes, x.Key(), rank[0])
    requires rank[0] + 1 < |nodes| ==> nodes[rank[0] + 1].Key() != x.Key()
    requires x !in nodes && 1 <= x.height <= level && Fits(links, rank, level)
    ensures Good(With(nodes, rank[0] + 1, x), SplicedLinks(links, rank, x, level),
                 SplicedBacks(nodes, backs, rank[0], x), level)
  {
    var k := rank[0];
    var nodes', links' := With(nodes, k + 1, x), SplicedLinks(links, rank, x, level);
    var backs' := SplicedBacks(nodes, backs, k, x);
    GoodHeights(nodes, level, k, x);
    AscendingWith(nodes, x.Key(), k, x);
    forall i {:trigger links'[i]} | 0 <= i < level ensures LevelShape(nodes', links'[i], i) {
      SplicedLevel(nodes, links, backs, level, update, rank, x, i);
    }
    AllSplicedAbove(nodes, links, backs, level, rank, x);
    AllBacksSpliced(nodes, backs, k, x);
  }

  lemma TightSpliced(nodes: seq<Node>, links: seq<seq<Link>>, level: int, k: nat, r: nat, x: Node)
    requires 1 < level <= |links| && r <= k < |nodes| && LevelShape(nodes, links[level - 1], level - 1)
    requires level - 1 < nodes[r].height && level - 1 < nodes[0].height
    requires x.height == level || Tight(nodes, links, level)
    ensures Linked(links[level - 1], k, r, x, level - 1)[0].next != null
  {
    assert LinkShape(nodes, links[level - 1], 0, level - 1);
  }

  /** Opening a level above the top: only the header reaches it, and its span covers the list. */
  lemma GoodOpened(nodes: seq<Node>, links: seq<seq<Link>>, backs: seq<Node?>, level: int)
    requires Good(nodes, links, backs, level) && level < MAX_LEVEL
    ensures Good(nodes, links[level := links[level][0 := Link(null, |nodes| - 1)]], backs, level + 1)
  {
    var top := links[level][0 := Link(null, |nodes| - 1)];
    assert links[level][0].next == null;
    forall p | 0 <= p < |nodes| && level < nodes[p].height ensures LinkShape(nodes, top, p, level) {
      assert p == 0;
    }
    var links' := links[level := top];
    forall i {:trigger links'[i]} | 0 <= i < level ensures LevelShape(nodes, links'[i], i) {
      assert LevelShape(nodes, links[i], i);
    }
    forall i {:trigger links'[i]} | level + 1 <= i < MAX_LEVEL
      ensures |links'[i]| == |nodes| && links'[i][0].next == null
    {
      assert links[i][0].next == null;
    }
  }

  /** The levels of a whole picture after Delete's loop ran on the levels below `done`. */
  ghost function RelinkedAll(nodes: seq<Node>, links: seq<seq<Link>>, k: nat, rank: seq<int>, done: int): seq<seq<Link>>
    requires Leaves(nodes, links, k, rank, done)
  {
    seq(|links|, i requires 0 <= i < |links| => if i < done then Relinked(nodes, links[i], k, rank[i], i) else links[i])
  }

  /** Position k and the positions before it on each level are usable. */
  ghost predicate Leaves(nodes: seq<Node>, links: seq<seq<Link>>, k: nat, rank: seq<int>, level: int) {
    && |rank| == |links| && k < |nodes|
    && (forall i {:trigger links[i]} :: 0 <= i < |links| ==> |links[i]| == |nodes|)
    && (forall i {:trigger rank[i]} :: 0 <= i < |rank| && i < level ==> 0 <= rank[i] < k)
  }

  ghost function WithoutAll(links: seq<seq<Link>>, k: nat): seq<seq<Link>>
    requires forall i {:trigger links[i]} :: 0 <= i < |links| ==> k < |links[i]|
  {
    seq(|links|, i requires 0 <= i < |links| => Without(links[i], k))
  }

  ghost function UnsplicedBacks(nodes: seq<Node>, backs: seq<Node?>, k: nat): seq<Node?>
    requires 0 < k < |backs| == |nodes|
  {
    var b := Without(backs, k);
    if k < |b| then b[k := nodes[k - 1]] else b
  }

  lemma GoodShorter(nodes: seq<Node>, level: int, k: nat)
    requires Distinct(nodes) && Ascending(nodes) && Heights(nodes, level) && 0 < k < |nodes|
    ensures Distinct(Without(nodes, k)) && Ascending(Without(nodes, k)) && Heights(Without(nodes, k), level)
  {
  }

  ghost predicate Removes(nodes: seq<Node>, links: seq<seq<Link>>, backs: seq<Node?>, level: int, key: Entry,
                          update: seq<Node>, rank: seq<int>, k: nat) {
    && Good(nodes, links, backs, level) && |update| == |rank| == MAX_LEVEL
    && Found(nodes, key, level, update, rank) && Between(nodes, key, rank[0]) && k == rank[0] + 1 < |nodes|
  }

  lemma RemovesLeaves(nodes: seq<Node>, links: seq<seq<Link>>, backs: seq<Node?>, level: int, key: Entry,
                      update: seq<Node>, rank: seq<int>, k: nat)
    requires Removes(nodes, links, backs, level, key, update, rank, k)
    ensures Leaves(nodes, links, k, rank, level)
  {
    forall i {:trigger links[i]} | 0 <= i < |links| ensures |links[i]| == |nodes| {
      if i < level { assert LevelShape(nodes, links[i], i); }
    }
    forall i {:trigger rank[i]} | 0 <= i < level ensures 0 <= rank[i] < k {
      BelowLevelZero(nodes, key, k - 1, i, rank[i]);
    }
  }

  lemma UnsplicedLevel(nodes: seq<Node>, links: seq<seq<Link>>, backs: seq<Node?>, level: int, key: Entry,
                       update: seq<Node>, rank: seq<int>, k: nat, i: nat)
    requires Removes(nodes, links, backs, level, key, update, rank, k) && i < level
    ensures Leaves(nodes, links, k, rank, level)
    ensures LevelShape(Without(nodes, k), WithoutAll(RelinkedAll(nodes, links, k, rank, level), k)[i], i)
  {
    RemovesLeaves(nodes, links, backs, level, key, update, rank, k);
    BelowLevelZero(nodes, key, k - 1, i, rank[i]);
    assert LevelShape(nodes, links[i], i);
    UnlinkedShape(nodes, links[i], k, rank[i], i);
  }

  lemma UnsplicedAbove(nodes: seq<Node>, links: seq<seq<Link>>, k: nat, rank: seq<int>, level: int, i: nat)
    requires Leaves(nodes, links, k, rank, level) && level <= i < |links| && 0 < k && links[i][0].next == null
    ensures var links' := WithoutAll(RelinkedAll(nodes, links, k, rank, level), k);
            |links'[i]| == |nodes| - 1 && links'[i][0].next == null
  {
  }

  lemma BacksUnspliced(nodes: seq<Node>, backs: seq<Node?>, k: nat, p: nat)
    requires 0 < k < |backs| == |nodes| && 1 <= p < |nodes| - 1
    requires backs[p] == nodes[p - 1] && backs[p + 1] == nodes[p]
    ensures UnsplicedBacks(nodes, backs, k)[p] == Without(nodes, k)[p - 1]
  {
    var b := Without(backs, k);
    if p < k {
      assert b[p] == backs[p] && Without(nodes, k)[p - 1] == nodes[p - 1];
    } else if p == k {
      assert Without(nodes, k)[p - 1] == nodes[k - 1];
    } else {
      assert b[p] == backs[p + 1] && Without(nodes, k)[p - 1] == nodes[p];
    }
  }

  lemma AllBacksUnspliced(nodes: seq<Node>, backs: seq<Node?>, k: nat)
    requires 0 < k < |nodes| && BackwardIs(nodes, backs)
    ensures BackwardIs(Without(nodes, k), UnsplicedBacks(nodes, backs, k))
  {
    var backs' := UnsplicedBacks(nodes, backs, k);
    forall p {:trigger backs'[p]} | 1 <= p < |backs'| ensures backs'[p] == Without(nodes, k)[p - 1] {
      assert backs[p] == nodes[p - 1] && backs[p + 1] == nodes[p];
      BacksUnspliced(nodes, backs, k, p);
    }
  }

  /** Unlinking the node at position k keeps the whole invariant. */
  lemma GoodUnspliced(nodes: seq<Node>, links: seq<seq<Link>>, backs: seq<Node?>, level: int,
                      key: Entry, update: seq<Node>, rank: seq<int>, k: nat)
    requires Removes(nodes, links, backs, level, key, update, rank, k)
    ensures Leaves(nodes, links, k, rank, level)
    ensures Good(Without(nodes, k), WithoutAll(RelinkedAll(nodes, links, k, rank, level), k),
                 UnsplicedBacks(nodes, backs, k), level)
  {
    GoodShorter(nodes, level, k);
    RemovesLeaves(nodes, links, backs, level, key, update, rank, k);
    var nodes', links' := Without(nodes, k), WithoutAll(RelinkedAll(nodes, links, k, rank, level), k);
    var backs' := UnsplicedBacks(nodes, backs, k);
    forall i {:trigger links'[i]} | 0 <= i < level ensures LevelShape(nodes', links'[i], i) {
      UnsplicedLevel(nodes, links, backs, level, key, update, rank, k, i);
    }
    forall i {:trigger links'[i]} | level <= i < MAX_LEVEL
      ensures |links'[i]| == |nodes'| && links'[i][0].next == null
    {
      assert links[i][0].next == null;
      UnsplicedAbove(nodes, links, k, rank, level, i);
    }
    AllBacksUnspliced(nodes, backs, k);
  }

  lemma AscendingWithout(nodes: seq<Node>, key: Entry, k: nat)
    requires Ascending(nodes) && 0 < k < |nodes| && Between(nodes, key, k - 1) && nodes[k].Key() == key
    ensures Keys(Without(nodes, k)[1..]) == Removed(Keys(nodes[1..]), key)
  {
    KeysBetween(nodes, key, k - 1);
    PresentAt(nodes, key, k - 1);
    assert Keys(Without(nodes, k)[1..]) == Keys(nodes[1..])[..k - 1] + Keys(nodes[1..])[k..];
  }

  /** An empty top level can be closed. */
  lemma GoodClosed(nodes: seq<Node>, links: seq<seq<Link>>, backs: seq<Node?>, level: int)
    requires Good(nodes, links, backs, level) && !Tight(nodes, links, level)
    ensures Good(nodes, links, backs, level - 1)
  {
    assert LevelShape(nodes, links[level - 1], level - 1);
    assert LinkShape(nodes, links[level - 1], 0, level - 1);
  }
}
