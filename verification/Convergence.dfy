/** State-based gossip over any join: what a node holds after any schedule of stale, repeated or
    reordered deliveries is the least upper bound of the states whose news reached it. */
module Convergence {

  /** `join` is a join on the states that satisfy `ok`. */
  ghost predicate Lawful<T(!new)>(ok: T -> bool, join: (T, T) -> T) {
    && (forall a, b :: ok(a) && ok(b) ==> ok(join(a, b)))
    && (forall a :: ok(a) ==> join(a, a) == a)
    && (forall a, b :: ok(a) && ok(b) ==> join(a, b) == join(b, a))
    && (forall a, b, c :: ok(a) && ok(b) && ok(c) ==> join(join(a, b), c) == join(a, join(b, c)))
  }

  ghost predicate Below<T>(join: (T, T) -> T, a: T, b: T) {
    join(a, b) == b
  }

  ghost predicate Bounds<T>(join: (T, T) -> T, x: T, init: seq<T>, from: set<nat>) {
    forall i: nat :: i in from && i < |init| ==> Below(join, init[i], x)
  }

  /** x is the join of exactly the states init[i] for i in `from`: the least state above them all. */
  ghost predicate IsJoinOf<T(!new)>(ok: T -> bool, join: (T, T) -> T, x: T, init: seq<T>, from: set<nat>) {
    && ok(x)
    && Bounds(join, x, init, from)
    && forall y :: ok(y) && Bounds(join, y, init, from) ==> Below(join, x, y)
  }

  lemma Transitive<T(!new)>(ok: T -> bool, join: (T, T) -> T, a: T, b: T, c: T)
    requires Lawful(ok, join) && ok(a) && ok(b) && ok(c) && Below(join, a, b) && Below(join, b, c)
    ensures Below(join, a, c)
  {
    assert join(join(a, b), c) == join(a, join(b, c));
  }

  lemma JoinAbove<T(!new)>(ok: T -> bool, join: (T, T) -> T, a: T, b: T)
    requires Lawful(ok, join) && ok(a) && ok(b)
    ensures Below(join, a, join(a, b)) && Below(join, b, join(a, b))
  {
    assert join(join(a, a), b) == join(a, join(a, b));
    assert join(join(b, b), a) == join(b, join(b, a));
  }

  lemma JoinLeast<T(!new)>(ok: T -> bool, join: (T, T) -> T, a: T, b: T, y: T)
    requires Lawful(ok, join) && ok(a) && ok(b) && ok(y) && Below(join, a, y) && Below(join, b, y)
    ensures Below(join, join(a, b), y)
  {
    assert join(join(a, b), y) == join(a, join(b, y));
  }

  /** The join of two joins is the join over both sets. */
  lemma JoinOfUnion<T(!new)>(ok: T -> bool, join: (T, T) -> T, x: T, y: T, init: seq<T>, r: set<nat>, s: set<nat>)
    requires Lawful(ok, join) && (forall i :: 0 <= i < |init| ==> ok(init[i]))
    requires IsJoinOf(ok, join, x, init, r) && IsJoinOf(ok, join, y, init, s)
    ensures IsJoinOf(ok, join, join(x, y), init, r + s)
  {
    JoinAbove(ok, join, x, y);
    forall i: nat | i in r + s && i < |init| ensures Below(join, init[i], join(x, y)) {
      if i in r { Transitive(ok, join, init[i], x, join(x, y)); } else { Transitive(ok, join, init[i], y, join(x, y)); }
    }
    forall z | ok(z) && Bounds(join, z, init, r + s) ensures Below(join, join(x, y), z) {
      assert Bounds(join, z, init, r) && Bounds(join, z, init, s);
      JoinLeast(ok, join, x, y, z);
    }
  }

  lemma JoinUnique<T(!new)>(ok: T -> bool, join: (T, T) -> T, x: T, y: T, init: seq<T>, from: set<nat>)
    requires Lawful(ok, join) && IsJoinOf(ok, join, x, init, from) && IsJoinOf(ok, join, y, init, from)
    ensures x == y
  {
    assert join(x, y) == join(y, x);
  }

  // ----- gossip -----

  /** A state together with the nodes whose news it holds. */
  datatype Held<T> = Held(state: T, from: set<nat>)

  /** The nodes, and every state that was ever sent: a message can be delivered late, often, or never. */
  datatype Net<T> = Net(nodes: seq<Held<T>>, sent: seq<Held<T>>)

  datatype Step = Send(node: nat) | Deliver(node: nat, message: nat)

  /** The first `nodes` states are the nodes'; the rest are snapshots still under way when writing stopped,
      each a source of its own, because it may hold what its sender has overwritten since. */
  ghost function Start<T>(init: seq<T>, nodes: nat): Net<T>
    requires nodes <= |init|
  {
    var held := seq(|init|, i requires 0 <= i < |init| => Held(init[i], {i}));
    Net(held[..nodes], held[nodes..])
  }

  ghost function Next<T>(join: (T, T) -> T, net: Net<T>, step: Step): Net<T> {
    match step
    case Send(i) => if i < |net.nodes| then net.(sent := net.sent + [net.nodes[i]]) else net
    case Deliver(i, k) =>
      if i < |net.nodes| && k < |net.sent| then
        var mine, news := net.nodes[i], net.sent[k];
        net.(nodes := net.nodes[i := Held(join(mine.state, news.state), mine.from + news.from)])
      else net
  }

  ghost function Run<T>(join: (T, T) -> T, net: Net<T>, steps: seq<Step>): Net<T>
    decreases |steps|
  {
    if steps == [] then net else Next(join, Run(join, net, steps[..|steps| - 1]), steps[|steps| - 1])
  }

  ghost predicate Exact<T(!new)>(ok: T -> bool, join: (T, T) -> T, init: seq<T>, net: Net<T>) {
    && (forall i :: 0 <= i < |net.nodes| ==> IsJoinOf(ok, join, net.nodes[i].state, init, net.nodes[i].from))
    && (forall k :: 0 <= k < |net.sent| ==> IsJoinOf(ok, join, net.sent[k].state, init, net.sent[k].from))
  }

  lemma StartExact<T(!new)>(ok: T -> bool, join: (T, T) -> T, init: seq<T>, nodes: nat)
    requires Lawful(ok, join) && nodes <= |init| && forall i :: 0 <= i < |init| ==> ok(init[i])
    ensures Exact(ok, join, init, Start(init, nodes)) && |Start(init, nodes).nodes| == nodes
  {
    forall i: nat | i < |init| ensures IsJoinOf(ok, join, init[i], init, {i}) {
      assert join(init[i], init[i]) == init[i];
    }
    var net := Start(init, nodes);
    assert forall i :: 0 <= i < nodes ==> net.nodes[i] == Held(init[i], {i});
    assert forall k :: 0 <= k < |net.sent| ==> net.sent[k] == Held(init[nodes + k], {nodes + k});
  }

  lemma StepExact<T(!new)>(ok: T -> bool, join: (T, T) -> T, init: seq<T>, net: Net<T>, step: Step)
    requires Lawful(ok, join) && (forall i :: 0 <= i < |init| ==> ok(init[i])) && Exact(ok, join, init, net)
    ensures Exact(ok, join, init, Next(join, net, step)) && |Next(join, net, step).nodes| == |net.nodes|
  {
    match step
    case Send(i) => if i < |net.nodes| { SentExact(ok, join, init, net, i); }
    case Deliver(i, k) =>
      if i < |net.nodes| && k < |net.sent| {
        JoinOfUnion(ok, join, net.nodes[i].state, net.sent[k].state, init, net.nodes[i].from, net.sent[k].from);
        var mine, news := net.nodes[i], net.sent[k];
        HeardExact(ok, join, init, net, i, Held(join(mine.state, news.state), mine.from + news.from));
      }
  }

  lemma SentExact<T(!new)>(ok: T -> bool, join: (T, T) -> T, init: seq<T>, net: Net<T>, i: nat)
    requires i < |net.nodes| && Exact(ok, join, init, net)
    ensures Exact(ok, join, init, net.(sent := net.sent + [net.nodes[i]]))
  {
    var sent := net.sent + [net.nodes[i]];
    forall k | 0 <= k < |sent| ensures IsJoinOf(ok, join, sent[k].state, init, sent[k].from) {
      if k < |net.sent| { assert sent[k] == net.sent[k]; }
    }
  }

  lemma HeardExact<T(!new)>(ok: T -> bool, join: (T, T) -> T, init: seq<T>, net: Net<T>, i: nat, h: Held<T>)
    requires i < |net.nodes| && Exact(ok, join, init, net) && IsJoinOf(ok, join, h.state, init, h.from)
    ensures Exact(ok, join, init, net.(nodes := net.nodes[i := h]))
  {
    var nodes := net.nodes[i := h];
    forall j | 0 <= j < |nodes| ensures IsJoinOf(ok, join, nodes[j].state, init, nodes[j].from) {
      if j != i { assert nodes[j] == net.nodes[j]; }
    }
  }

  /** For any schedule, each node's state is the join of the states of exactly the nodes whose news
      reached it. */
  lemma {:induction false} GossipExact<T(!new)>(ok: T -> bool, join: (T, T) -> T, init: seq<T>, nodes: nat,
      steps: seq<Step>)
    requires Lawful(ok, join) && nodes <= |init| && forall i :: 0 <= i < |init| ==> ok(init[i])
    ensures Exact(ok, join, init, Run(join, Start(init, nodes), steps))
    ensures |Run(join, Start(init, nodes), steps).nodes| == nodes
    decreases |steps|
  {
    if steps == [] {
      StartExact(ok, join, init, nodes);
    } else {
      GossipExact(ok, join, init, nodes, steps[..|steps| - 1]);
      StepExact(ok, join, init, Run(join, Start(init, nodes), steps[..|steps| - 1]), steps[|steps| - 1]);
    }
  }

  /** Nodes that heard from the same nodes hold the same state, in whatever order, from whatever stale
      copies, and in whichever of two runs they heard it. */
  lemma GossipConverges<T(!new)>(ok: T -> bool, join: (T, T) -> T, init: seq<T>, nodes: nat,
                                 stepsA: seq<Step>, stepsB: seq<Step>, i: nat, j: nat)
    requires Lawful(ok, join) && (forall i :: 0 <= i < |init| ==> ok(init[i])) && i < nodes && j < nodes <= |init|
    ensures var a, b := Run(join, Start(init, nodes), stepsA), Run(join, Start(init, nodes), stepsB);
            && |a.nodes| == |b.nodes| == nodes
            && (a.nodes[i].from == b.nodes[j].from ==> a.nodes[i].state == b.nodes[j].state)
  {
    GossipExact(ok, join, init, nodes, stepsA);
    GossipExact(ok, join, init, nodes, stepsB);
    var a, b := Run(join, Start(init, nodes), stepsA), Run(join, Start(init, nodes), stepsB);
    if a.nodes[i].from == b.nodes[j].from {
      JoinUnique(ok, join, a.nodes[i].state, b.nodes[j].state, init, a.nodes[i].from);
    }
  }
}
