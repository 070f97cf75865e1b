/** The descent, and Insert and Delete on the linked nodes. */
module SkipListEdits {
  import opened Order
  import opened RankedSeq
  import opened Towers
  import opened SkipListWrites

  // ----- the descent -----

  /** One level of the descent: from a node below `key`, to the last one below it on level i. */
  method Walk(ghost nodes: seq<Node>, i: nat, start: Node, from: int, key: Entry) returns (x: Node, r: int)
    requires Sized(nodes) && LevelShape(nodes, Links(nodes, i), i) && Ascending(nodes)
    requires 0 <= from < |nodes| && start == nodes[from] && i < start.height
    requires from > 0 ==> Less(start.Key(), key)
    ensures PredAt(nodes, key, i, r) && x == nodes[r] && from <= r
  {
    x, r := start, from;
    assert LinkShape(nodes, Links(nodes, i), r, i);
    while x.forward[i] != null && Less(x.forward[i].Key(), key)
      invariant from <= r < |nodes| && x == nodes[r] && i < x.height
      invariant LinkShape(nodes, Links(nodes, i), r, i)
      invariant r > 0 ==> Less(x.Key(), key)
      decreases |nodes| - r
    {
      r, x := r + x.span[i], x.forward[i];
    }
    if x.forward[i] != null {
      NotBelowAfter(nodes, key, r + x.span[i]);
    }
  }

  ghost predicate Climbable(nodes: seq<Node>, level: int)
    reads nodes
  {
    && |nodes| > 0 && nodes[0].height == MAX_LEVEL && 1 <= level <= MAX_LEVEL && Sized(nodes) && Ascending(nodes)
    && forall i {:trigger Links(nodes, i)} :: 0 <= i < level ==> LevelShape(nodes, Links(nodes, i), i)
  }

  lemma GoodClimbable(nodes: seq<Node>, level: int)
    requires Sized(nodes) && Good(nodes, AllLinks(nodes), Backs(nodes), level)
    ensures Climbable(nodes, level)
  {
    forall i {:trigger Links(nodes, i)} | 0 <= i < level ensures LevelShape(nodes, Links(nodes, i), i) {
      assert LevelShape(nodes, AllLinks(nodes)[i], i);
    }
  }

  /** The descent shared by Insert and Delete: on every active level the last node below (score, member),
      with its position. */
  method Descend(ghost nodes: seq<Node>, header: Node, level: int, member: string, score: real)
    returns (update: seq<Node>, rank: seq<int>)
    requires Climbable(nodes, level) && header == nodes[0]
    ensures |update| == |rank| == MAX_LEVEL && Found(nodes, Entry(score, member), level, update, rank)
    ensures forall i :: level <= i < MAX_LEVEL ==> update[i] == header && rank[i] == 0
  {
    var key := Entry(score, member);
    update := seq(MAX_LEVEL, _ => header);
    rank := seq(MAX_LEVEL, _ => 0);
    var x, r := header, 0;
    for i := level downto 0
      invariant |update| == |rank| == MAX_LEVEL
      invariant 0 <= r < |nodes| && x == nodes[r] && (r > 0 ==> Less(x.Key(), key)) && i <= x.height
      invariant forall j {:trigger rank[j]} :: i <= j < level ==> PredAt(nodes, key, j, rank[j])
      invariant forall j {:trigger rank[j]} :: i <= j < level ==> update[j] == nodes[rank[j]]
      invariant forall j :: level <= j < MAX_LEVEL ==> update[j] == header && rank[j] == 0
    {
      assert LevelShape(nodes, Links(nodes, i), i);
      x, r := Walk(nodes, i, x, r, key);
      update, rank := update[i := x], rank[i := r];
    }
  }

  /** Insert's header expansion, one level: the header's span there covers the whole list. */
  method OpenLevel(ghost nodes: seq<Node>, header: Node, level: int, length: int)
    requires Sized(nodes) && Good(nodes, AllLinks(nodes), Backs(nodes), level) && level < MAX_LEVEL
    requires header == nodes[0] && length == |nodes| - 1
    modifies header`span
    ensures Sized(nodes) && Good(nodes, AllLinks(nodes), Backs(nodes), level + 1)
  {
    ghost var links, backs := AllLinks(nodes), Backs(nodes);
    GoodOpened(nodes, links, backs, level);
    assert links[level] == Links(nodes, level) && links[level][0].next == null;
    SetSpan(nodes, 0, header, level, length);
    assert Links(nodes, level) == links[level][0 := Link(null, |nodes| - 1)];
    assert Backs(nodes) == backs;
  }

  /** Insert's header expansion: opens the levels up to a new node's height. */
  method Expand(ghost nodes: seq<Node>, header: Node, level: int, length: int, newLevel: int) returns (top: int)
    requires Sized(nodes) && Good(nodes, AllLinks(nodes), Backs(nodes), level) && newLevel <= MAX_LEVEL
    requires header == nodes[0] && length == |nodes| - 1
    modifies header`span
    ensures Sized(nodes) && Good(nodes, AllLinks(nodes), Backs(nodes), top)
    ensures top == if newLevel > level then newLevel else level
    ensures top == level ==> AllLinks(nodes) == old(AllLinks(nodes))
  {
    top := level;
    while top < newLevel
      invariant level <= top && (top <= newLevel || top == level)
      invariant Sized(nodes) && Good(nodes, AllLinks(nodes), Backs(nodes), top)
      invariant top == level ==> AllLinks(nodes) == old(AllLinks(nodes))
    {
      OpenLevel(nodes, header, top, length);
      top := top + 1;
    }
  }

  /** What a descent that did not find `key` knows about where it belongs. */
  lemma FoundWhere(nodes: seq<Node>, links: seq<seq<Link>>, backs: seq<Node?>, level: int,
                   key: Entry, update: seq<Node>, rank: seq<int>)
    requires Good(nodes, links, backs, level) && |update| == |rank| == MAX_LEVEL
    requires Found(nodes, key, level, update, rank)
    ensures Between(nodes, key, rank[0]) && Fits(links, rank, level) && update[0] == nodes[rank[0]]
    ensures 0 < update[0].height
    ensures key in Keys(nodes[1..]) <==> rank[0] + 1 < |nodes| && nodes[rank[0] + 1].Key() == key
  {
    LevelZero(nodes, key, rank[0]);
    FoundFits(nodes, links, backs, level, key, update, rank);
    PresentAt(nodes, key, rank[0]);
  }

  /** The levels a descent did not see, because they were opened since, are the header's alone. */
  lemma FoundAbove(nodes: seq<Node>, level: int, top: int, key: Entry, update: seq<Node>, rank: seq<int>)
    requires Heights(nodes, level) && |update| == |rank| == MAX_LEVEL && top <= MAX_LEVEL
    requires Found(nodes, key, level, update, rank)
    requires 0 <= level && forall i :: level <= i < MAX_LEVEL ==> update[i] == nodes[0] && rank[i] == 0
    ensures Found(nodes, key, top, update, rank)
  {
  }

  /** The whole invariant of a list made of `nodes`. */
  ghost predicate Whole(nodes: seq<Node>, level: int)
    reads nodes
  {
    Sized(nodes) && Good(nodes, AllLinks(nodes), Backs(nodes), level) && Tight(nodes, AllLinks(nodes), level)
  }

  lemma TightAfter(nodes: seq<Node>, links: seq<seq<Link>>, backs: seq<Node?>,
                   update: seq<Node>, rank: seq<int>, x: Node, level: nat)
    requires Good(nodes, links, backs, level) && (x.height == level || Tight(nodes, links, level))
    requires |update| == |rank| == MAX_LEVEL && Found(nodes, x.Key(), level, update, rank)
    requires Between(nodes, x.Key(), rank[0]) && Fits(links, rank, level)
    ensures Tight(With(nodes, rank[0] + 1, x), SplicedLinks(links, rank, x, level), level)
  {
    if level > 1 {
      BelowLevelZero(nodes, x.Key(), rank[0], level - 1, rank[level - 1]);
      assert LevelShape(nodes, links[level - 1], level - 1);
      TightSpliced(nodes, links, level, rank[0], rank[level - 1], x);
    }
  }

  lemma AttachPlan(nodes: seq<Node>, links: seq<seq<Link>>, backs: seq<Node?>,
                   update: seq<Node>, rank: seq<int>, x: Node, level: nat)
    requires Good(nodes, links, backs, level) && x !in nodes
    requires 1 <= x.height <= level && (x.height == level || Tight(nodes, links, level))
    requires |update| == |rank| == MAX_LEVEL && Found(nodes, x.Key(), level, update, rank)
    requires x.Key() !in Keys(nodes[1..])
    ensures Between(nodes, x.Key(), rank[0]) && Fits(links, rank, level)
    ensures var nodes' := With(nodes, rank[0] + 1, x);
            && Good(nodes', SplicedLinks(links, rank, x, level), SplicedBacks(nodes, backs, rank[0], x), level)
            && Tight(nodes', SplicedLinks(links, rank, x, level), level)
            && Keys(nodes'[1..]) == Inserted(Keys(nodes[1..]), x.Key())
  {
    FoundWhere(nodes, links, backs, level, x.Key(), update, rank);
    GoodSpliced(nodes, links, backs, level, update, rank, x);
    AscendingWith(nodes, x.Key(), rank[0], x);
    TightAfter(nodes, links, backs, update, rank, x, level);
  }

  /** Insert once the level is chosen. */
  method Attach(ghost nodes: seq<Node>, update: seq<Node>, rank: seq<int>, x: Node, level: nat)
    requires Sized(nodes) && Good(nodes, AllLinks(nodes), Backs(nodes), level) && x !in nodes && Empty(x)
    requires 1 <= x.height <= level && (x.height == level || Tight(nodes, AllLinks(nodes), level))
    requires |update| == |rank| == MAX_LEVEL && Found(nodes, x.Key(), level, update, rank)
    requires x.Key() !in Keys(nodes[1..])
    modifies nodes, x
    ensures 0 <= rank[0] < |nodes| && Whole(With(nodes, rank[0] + 1, x), level)
    ensures Keys(With(nodes, rank[0] + 1, x)[1..]) == Inserted(Keys(nodes[1..]), x.Key())
  {
    AttachPlan(nodes, AllLinks(nodes), Backs(nodes), update, rank, x, level);
    Weave(nodes, update, rank, x, level);
  }

  /** A level in 1..MAX_LEVEL; the coin is any coin. */
  method RandomLevel() returns (level: nat)
    ensures 1 <= level <= MAX_LEVEL
  {
    level := 1;
    var heads: bool := *;
    while heads && level < MAX_LEVEL
      invariant 1 <= level <= MAX_LEVEL
      decreases MAX_LEVEL - level
    {
      level := level + 1;
      heads := *;
    }
  }

  /** Insert's search: where the new node belongs, and whether it is there already. */
  method Locate(ghost nodes: seq<Node>, header: Node, level: int, member: string, score: real)
    returns (update: seq<Node>, rank: seq<int>, present: bool)
    requires Whole(nodes, level) && header == nodes[0]
    ensures |update| == |rank| == MAX_LEVEL && Found(nodes, Entry(score, member), level, update, rank)
    ensures forall i :: level <= i < MAX_LEVEL ==> update[i] == header && rank[i] == 0
    ensures present <==> Entry(score, member) in Keys(nodes[1..])
    ensures 0 <= rank[0] < |nodes| && 0 < |update[0].forward|
    ensures present <==> rank[0] + 1 < |nodes| && nodes[rank[0] + 1].Key() == Entry(score, member)
    ensures update[0].forward[0] == if rank[0] + 1 < |nodes| then nodes[rank[0] + 1] else null
  {
    GoodClimbable(nodes, level);
    update, rank := Descend(nodes, header, level, member, score);
    FoundWhere(nodes, AllLinks(nodes), Backs(nodes), level, Entry(score, member), update, rank);
    assert LevelShape(nodes, AllLinks(nodes)[0], 0);
    NextIs(nodes, level, rank[0]);
    var next := update[0].forward[0];
    present := next != null && next.score == score && next.member == member;
  }

  /** Insert of a key that is not there: any height is chosen, the levels up to it are opened, and the
      new node is linked in. */
  method Grow(ghost nodes: seq<Node>, header: Node, level: int, length: int, update: seq<Node>, rank: seq<int>,
              member: string, score: real) returns (x: Node, top: int)
    requires Whole(nodes, level) && header == nodes[0] && length == |nodes| - 1
    requires |update| == |rank| == MAX_LEVEL && Found(nodes, Entry(score, member), level, update, rank)
    requires forall i :: level <= i < MAX_LEVEL ==> update[i] == header && rank[i] == 0
    requires Entry(score, member) !in Keys(nodes[1..])
    modifies nodes
    ensures fresh(x) && 0 <= rank[0] < |nodes| && Whole(With(nodes, rank[0] + 1, x), top)
    ensures Keys(With(nodes, rank[0] + 1, x)[1..]) == Inserted(Keys(nodes[1..]), Entry(score, member))
  {
    var newLevel := RandomLevel();
    top := Expand(nodes, header, level, length, newLevel);
    FoundAbove(nodes, level, top, Entry(score, member), update, rank);
    x := new Node(member, score, newLevel);
    Attach(nodes, update, rank, x, top);
  }

  lemma LastIs(nodes: seq<Node>, level: int, k: int)
    requires Whole(nodes, level) && 0 <= k < |nodes|
    ensures 0 < |nodes[k].forward| && nodes[k].forward[0] == if k + 1 < |nodes| then nodes[k + 1] else null
  {
    assert LevelShape(nodes, AllLinks(nodes)[0], 0);
    NextIs(nodes, level, k);
  }

  /** Insert on the nodes: nothing is written when the key is there, else it is linked in. */
  method InsertNode(ghost nodes: seq<Node>, header: Node, level: int, length: int, member: string, score: real)
    returns (x: Node?, top: int, ghost grown: seq<Node>)
    requires Whole(nodes, level) && header == nodes[0] && length == |nodes| - 1
    modifies nodes
    ensures Whole(grown, top) && Keys(grown[1..]) == Inserted(Keys(nodes[1..]), Entry(score, member))
    ensures x == null <==> Entry(score, member) in Keys(nodes[1..])
    ensures x == null ==> grown == nodes && top == level
    ensures x != null ==>
              && fresh(x) && |grown| == |nodes| + 1 && grown[0] == header && 0 < |x.forward|
              && (forall n :: n in grown ==> n in nodes || n == x)
              && grown[|nodes|] == if x.forward[0] == null then x else nodes[|nodes| - 1]
  {
    var update, rank, present := Locate(nodes, header, level, member, score);
    if present {
      return null, level, nodes;
    }
    var node, height := Grow(nodes, header, level, length, update, rank, member, score);
    grown := With(nodes, rank[0] + 1, node);
    LastIs(grown, height, rank[0] + 1);
    x, top := node, height;
  }

  /** Delete's level shrink. */
  method Shrink(ghost nodes: seq<Node>, header: Node, level: int) returns (top: int)
    requires Sized(nodes) && Good(nodes, AllLinks(nodes), Backs(nodes), level) && header == nodes[0]
    ensures Whole(nodes, top)
  {
    top := level;
    while top > 1 && header.forward[top - 1] == null
      invariant 1 <= top && Good(nodes, AllLinks(nodes), Backs(nodes), top)
    {
      assert AllLinks(nodes)[top - 1][0] == LinkOf(header, top - 1);
      GoodClosed(nodes, AllLinks(nodes), Backs(nodes), top);
      top := top - 1;
    }
    if top > 1 { assert AllLinks(nodes)[top - 1][0] == LinkOf(header, top - 1); }
  }

  lemma SeversLevel(nodes: seq<Node>, links: seq<seq<Link>>, backs: seq<Node?>, level: int,
                    key: Entry, update: seq<Node>, rank: seq<int>, k: nat, i: nat)
    requires Removes(nodes, links, backs, level, key, update, rank, k) && i < level
    ensures SeversAt(nodes, links, update, rank, nodes[k], i)
  {
    BelowLevelZero(nodes, key, k - 1, i, rank[i]);
    assert LevelShape(nodes, links[i], i);
    UnlinkedShape(nodes, links[i], k, rank[i], i);
  }

  lemma RemovesSevers(nodes: seq<Node>, links: seq<seq<Link>>, backs: seq<Node?>, level: int,
                      key: Entry, update: seq<Node>, rank: seq<int>, k: nat)
    requires Removes(nodes, links, backs, level, key, update, rank, k)
    ensures Severs(nodes, links, update, rank, nodes[k], level)
  {
    forall i | 0 <= i < level ensures SeversAt(nodes, links, update, rank, nodes[k], i) {
      SeversLevel(nodes, links, backs, level, key, update, rank, k, i);
    }
  }

  lemma DetachPlan(nodes: seq<Node>, links: seq<seq<Link>>, backs: seq<Node?>, level: int,
                   key: Entry, update: seq<Node>, rank: seq<int>, k: nat)
    requires Good(nodes, links, backs, level) && |update| == |rank| == MAX_LEVEL
    requires Found(nodes, key, level, update, rank)
    requires k == rank[0] + 1 < |nodes| && nodes[k].Key() == key
    ensures 0 < k && Leaves(nodes, links, k, rank, level) && Severs(nodes, links, update, rank, nodes[k], level)
    ensures Good(Without(nodes, k), WithoutAll(RelinkedAll(nodes, links, k, rank, level), k),
                 UnsplicedBacks(nodes, backs, k), level)
    ensures Keys(Without(nodes, k)[1..]) == Removed(Keys(nodes[1..]), key)
  {
    FoundWhere(nodes, links, backs, level, key, update, rank);
    GoodUnspliced(nodes, links, backs, level, key, update, rank, k);
    AscendingWithout(nodes, key, k);
    RemovesSevers(nodes, links, backs, level, key, update, rank, k);
  }

  lemma LastWithout(nodes: seq<Node>, k: nat, next: Node?, back: Node?)
    requires 0 < k < |nodes| && back == nodes[k - 1] && next == if k + 1 < |nodes| then nodes[k + 1] else null
    ensures var rest := Without(nodes, k);
            && |rest| == |nodes| - 1 && rest[0] == nodes[0] && (forall n :: n in rest ==> n in nodes)
            && rest[|rest| - 1] == if next == null then back else nodes[|nodes| - 1]
  {
  }

  /** Delete's writes, for the node after the one the descent found. */
  method Excise(ghost nodes: seq<Node>, ghost k: nat, ghost key: Entry, update: seq<Node>, rank: seq<int>, x: Node,
      level: int) returns (ghost rest: seq<Node>)
    requires Whole(nodes, level) && |update| == |rank| == MAX_LEVEL && Found(nodes, key, level, update, rank)
    requires k == rank[0] + 1 < |nodes| && x == nodes[k] && x.Key() == key
    modifies nodes
    ensures |rest| == |nodes| - 1 && rest != [] && rest[0] == nodes[0] && (forall n :: n in rest ==> n in nodes)
    ensures Sized(rest) && Good(rest, AllLinks(rest), Backs(rest), level) && 0 < |x.forward|
    ensures Keys(rest[1..]) == Removed(Keys(nodes[1..]), key)
    ensures rest[|rest| - 1] == if x.forward[0] == null then x.backward else nodes[|nodes| - 1]
  {
    ghost var links, backs := AllLinks(nodes), Backs(nodes);
    LastIs(nodes, level, k);
    assert backs[k] == x.backward;
    DetachPlan(nodes, links, backs, level, key, update, rank, k);
    Detach(nodes, k, update, rank, x, level);
    rest := Without(nodes, k);
    LastWithout(nodes, k, x.forward[0], x.backward);
  }

  /** Delete on the nodes: nothing is written unless the key is there. */
  method DeleteNode(ghost nodes: seq<Node>, header: Node, level: int, member: string, score: real)
    returns (x: Node?, top: int, ghost rest: seq<Node>)
    requires Whole(nodes, level) && header == nodes[0]
    modifies nodes
    ensures Whole(rest, top) && Keys(rest[1..]) == Removed(Keys(nodes[1..]), Entry(score, member))
    ensures x == null <==> Entry(score, member) !in Keys(nodes[1..])
    ensures x == null ==> rest == nodes && top == level
    ensures x != null ==>
              && |rest| == |nodes| - 1 && rest != [] && rest[0] == header && 0 < |x.forward|
              && (forall n :: n in rest ==> n in nodes)
              && rest[|rest| - 1] == if x.forward[0] == null then x.backward else nodes[|nodes| - 1]
  {
    var update, rank, present := Locate(nodes, header, level, member, score);
    if !present {
      return null, level, nodes;
    }
    var node: Node := update[0].forward[0];
    rest := Excise(nodes, rank[0] + 1, Entry(score, member), update, rank, node, level);
    top := Shrink(rest, header, level);
    x := node;
  }
}
