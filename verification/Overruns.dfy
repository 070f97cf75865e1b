/** How far a limit can be overrun when checkpoints fall between other operations and snapshots are restored on live
    nodes: by at most what rotations, stale copies and restores have lost, and by that much in some run. */
module Overruns {
  import opened Wrappers
  import opened Crdt
  import opened MeshNode
  import opened Recovery
  import opened Mesh

  /** Any possible step, whatever it falls between; a snapshot of the live state as it was after the first `since`
      steps of the run; and a restore on a live node. */
  datatype Step =
    | Plain(op: Op)
    | Stamp(node: nat, since: nat, at: int)
    | Restore(node: nat)

  ghost function NodeOf(step: Step): nat {
    if step.Plain? then step.op.node else step.node
  }

  ghost predicate Allowed(c: Cluster, step: Step, before: nat) {
    match step
    case Plain(op) => Possible(c, op)
    case Stamp(i, since, at) => i < |c.nodes| && since <= before && c.nodes[i].clock < at
    case Restore(i) => i < |c.nodes|
  }

  ghost function After(ids: seq<string>, steps: seq<Step>): (c: Cluster)
    ensures |c.nodes| == |ids|
    decreases |steps|
  {
    if steps == [] then Empty(ids)
    else
      var front, step := steps[..|steps| - 1], steps[|steps| - 1];
      var c := After(ids, front);
      if !Allowed(c, step, |front|) then c
      else
        match step
        case Plain(op) => Cluster(c.nodes[op.node := Effect(ids, c, op)],
                                  if op.Publish? then c.sent + [OnWire(c.nodes[op.node].live)] else c.sent)
        case Stamp(i, since, at) =>
          c.(nodes := c.nodes[i := DoSnapshot(c.nodes[i], After(ids, front[..since]).nodes[i].live, at)])
        case Restore(i) => c.(nodes := c.nodes[i := DoRestore(c.nodes[i])])
  }

  ghost predicate IsAdmission(c: Cluster, step: Step, key: string) {
    step.Plain? && Possible(c, step.op) && step.op.Consume? && step.op.key == key
    && Admits(c.nodes[step.op.node].live, key, step.op.limit)
  }

  ghost function Short(kept: nat, had: nat): nat {
    if kept < had then had - kept else 0
  }

  /** What a step takes from a node's own count, on its disk or in its live state. */
  ghost function LostBy(ids: seq<string>, steps: seq<Step>, key: string): nat
    requires steps != []
  {
    var front, step := steps[..|steps| - 1], steps[|steps| - 1];
    var c := After(ids, front);
    if !Allowed(c, step, |front|) then 0
    else
      var n, self := c.nodes[NodeOf(step)], ids[NodeOf(step)];
      match step
      case Plain(op) => if op.Rotate? then Charges(n.disk.wal, key, Base(n.disk).at) else 0
      case Stamp(i, since, _) => Short(SlotOf(After(ids, front[..since]).nodes[i].live, key, self),
                                       SlotOf(n.live, key, self))
      case Restore(_) => Short(SlotOf(DoRestore(n).live, key, self), SlotOf(n.live, key, self))
  }

  /** Requests for `key` that node i admitted, and admissions it lost. */
  ghost function AdmittedAt(ids: seq<string>, steps: seq<Step>, key: string, i: nat): nat
    decreases |steps|
  {
    if steps == [] then 0
    else
      var front, step := steps[..|steps| - 1], steps[|steps| - 1];
      AdmittedAt(ids, front, key, i) + (if NodeOf(step) == i && IsAdmission(After(ids, front), step, key) then 1 else 0)
  }

  ghost function LostAt(ids: seq<string>, steps: seq<Step>, key: string, i: nat): nat
    decreases |steps|
  {
    if steps == [] then 0
    else LostAt(ids, steps[..|steps| - 1], key, i)
         + (if NodeOf(steps[|steps| - 1]) == i then LostBy(ids, steps, key) else 0)
  }

  ghost predicate LimitsWithin(steps: seq<Step>, key: string, limit: nat) {
    forall k :: 0 <= k < |steps| && steps[k].Plain? && steps[k].op.Consume? && steps[k].op.key == key ==>
                  steps[k].op.limit <= limit
  }

  // ----- what a step does to a node's own count -----

  /** x admissions are still counted, in the live state and on the disk, and are within the limit. */
  ghost predicate Counts(self: string, n: Node, key: string, limit: nat, x: int) {
    && x <= SlotOf(n.live, key, self) && x <= SlotOf(Recovered(self, n.disk), key, self) && x <= limit
    && Base(n.disk).at <= n.clock
  }

  lemma LoggedSlot(self: string, n: Node, live: Live, entry: Log, key: string)
    ensures SlotOf(Recovered(self, Logged(n, live, entry).disk), key, self) ==
            SlotOf(Recovered(self, n.disk), key, self)
            + (if entry.at > Base(n.disk).at && entry.Consume? && entry.key == key then 1 else 0)
  {
    ReplayAppend(Base(n.disk).state, self, n.disk.wal, entry, Base(n.disk).at);
  }

  lemma ConsumeCounts(self: string, n: Node, key: string, limit: nat, x: int, k: string, l: int, at: int)
    requires Counts(self, n, key, limit, x) && n.clock < at && (k == key ==> l <= limit)
    ensures Counts(self, DoConsume(n, self, k, l, at), key, limit,
                   if k == key && Admits(n.live, key, l) then x + 1 else x)
  {
    LoggedSlot(self, n, Charged(n.live, self, k), Log.Consume(at, k), key);
    SlotAtMostTotal(CountsOf(n.live.limiters, key), self);
  }

  /** Logging anything but an admission. */
  lemma WriteCounts(self: string, n: Node, key: string, limit: nat, x: int, live: Live, entry: Log)
    requires Counts(self, n, key, limit, x) && n.clock < entry.at && !entry.Consume? && live.limiters == n.live.limiters
    ensures Counts(self, Logged(n, live, entry), key, limit, x)
  {
    LoggedSlot(self, n, live, entry, key);
  }

  lemma {:induction false} AdoptAllCounts(self: string, n: Node, peer: Live, order: seq<(Key, int)>, key: string,
      limit: nat, x: int)
    requires Counts(self, n, key, limit, x) && Ticks(n.clock, order)
    ensures Counts(self, AdoptAll(n, peer, order), key, limit, x)
    ensures AdoptAll(n, peer, order).clock <= LastTick(n.clock, order)
    decreases |order|
  {
    if order != [] {
      var m := AdoptAll(n, peer, order[..|order| - 1]);
      var (name, w) := order[|order| - 1];
      AdoptAllCounts(self, n, peer, order[..|order| - 1], key, limit, x);
      if name in peer.cache {
        var e := CoarseEntry(peer.cache[name]);
        WriteCounts(self, m, key, limit, x, m.live.(cache := m.live.cache[name := e]),
                    Put(w, name, e.(timestamp := Version(e.timestamp, w))));
      }
    }
  }

  lemma MergeCounts(self: string, n: Node, peer: Live, order: seq<(Key, int)>, key: string, limit: nat, x: int)
    requires Counts(self, n, key, limit, x) && Ticks(n.clock, order)
    ensures Counts(self, DoMerge(n, peer, order), key, limit, x)
  {
    AdoptAllCounts(self, n.(live := MergedSets(n.live, peer)), peer, order, key, limit, x);
  }

  /** A snapshot may be short of the live count by what was admitted since it was copied. */
  lemma StampCounts(self: string, n: Node, copy: Live, at: int, key: string, limit: nat, x: int)
    requires Counts(self, n, key, limit, x) && n.clock < at
    ensures Counts(self, DoSnapshot(n, copy, at), key, limit,
                   x - Short(SlotOf(copy, key, self), SlotOf(n.live, key, self)))
  {
    ReplayCounts(OnWire(copy), self, n.disk.wal, at, key);
  }

  lemma RotateCounts(self: string, n: Node, key: string, limit: nat, x: int)
    requires Counts(self, n, key, limit, x)
    ensures Counts(self, DoRotate(n), key, limit, x - Charges(n.disk.wal, key, Base(n.disk).at))
  {
    RotateLoses(self, n, key);
  }

  lemma RestoreCounts(self: string, n: Node, key: string, limit: nat, x: int)
    requires Counts(self, n, key, limit, x)
    ensures Counts(self, DoRestore(n), key, limit,
                   x - Short(SlotOf(DoRestore(n).live, key, self), SlotOf(n.live, key, self)))
  {
  }

  lemma WritesCounts(self: string, n: Node, op: Op, key: string, limit: nat, x: int)
    requires Counts(self, n, key, limit, x)
    ensures op.See? && n.clock < op.at ==> Counts(self, DoSee(n, op.nonce, op.at), key, limit, x)
    ensures op.Commit? && n.clock < op.t < op.w ==> Counts(self, DoCommit(n, self, op.name, op.value, op.t, op.w), key,
                                                           limit, x)
    ensures op.Cleanup? && n.clock < op.now ==> Counts(self, DoCleanup(n, op.now), key, limit, x)
  {
    match op
    case See(_, nonce, at) =>
      if n.clock < at { WriteCounts(self, n, key, limit, x, n.live.(seen := n.live.seen + {nonce}), Seen(at, nonce)); }
    case Commit(_, name, value, t, w) =>
      if n.clock < t < w {
        WriteCounts(self, n, key, limit, x, n.live.(cache := n.live.cache[name := CacheEntry(value, None, t, self)]),
                    Put(w, name, CacheEntry(value, None, Version(t, w), self)));
      }
    case _ =>
  }

  lemma SetCounts(self: string, n: Node, op: Op, key: string, limit: nat, x: int)
    requires Counts(self, n, key, limit, x) && op.Set? && SetTimes(n.clock, op.ttl, op.t, op.e, op.w)
    ensures Counts(self, DoSet(n, self, op.name, op.value, op.ttl, op.t, op.e, op.w), key, limit, x)
  {
    var expiresAt := if op.ttl > 0 then Some(op.e + op.ttl) else None;
    WriteCounts(self, n, key, limit, x,
                n.live.(cache := n.live.cache[op.name := CacheEntry(op.value, expiresAt, op.t, self)]),
                Put(op.w, op.name, CacheEntry(op.value, Coarse(expiresAt), Version(0, op.w), self)));
  }

  lemma EffectCounts(ids: seq<string>, c: Cluster, op: Op, key: string, limit: nat, x: int)
    requires |c.nodes| == |ids| && Possible(c, op) && Counts(ids[op.node], c.nodes[op.node], key, limit, x)
    requires op.Consume? && op.key == key ==> op.limit <= limit
    ensures Counts(ids[op.node], Effect(ids, c, op), key, limit,
                   if IsAdmission(c, Plain(op), key) then x + 1
                   else if op.Rotate? then x - Charges(c.nodes[op.node].disk.wal, key, Base(c.nodes[op.node].disk).at)
                   else x)
  {
    var n, self := c.nodes[op.node], ids[op.node];
    match op
    case Consume(_, k, l, at) => ConsumeCounts(self, n, key, limit, x, k, l, at);
    case Set(_, _, _, _, _, _, _) => SetCounts(self, n, op, key, limit, x);
    case Deliver(_, k, order) => MergeCounts(self, n, c.sent[k], order, key, limit, x);
    case Checkpoint(_, at) => StampCounts(self, n, n.live, at, key, limit, x);
    case Rotate(_) => RotateCounts(self, n, key, limit, x);
    case Publish(_) =>
    case Crash(_) =>
    case _ => WritesCounts(self, n, op, key, limit, x);
  }

  // ----- over a whole run -----

  lemma {:induction false} StillCounted(ids: seq<string>, steps: seq<Step>, key: string, limit: nat, i: nat)
    requires LimitsWithin(steps, key, limit) && i < |ids|
    ensures Counts(ids[i], After(ids, steps).nodes[i], key, limit,
                   AdmittedAt(ids, steps, key, i) - LostAt(ids, steps, key, i))
    decreases |steps|
  {
    if steps != [] {
      var front, step := steps[..|steps| - 1], steps[|steps| - 1];
      StillCounted(ids, front, key, limit, i);
      var c, x := After(ids, front), AdmittedAt(ids, front, key, i) - LostAt(ids, front, key, i);
      if NodeOf(step) == i && Allowed(c, step, |front|) {
        match step
        case Plain(op) => EffectCounts(ids, c, op, key, limit, x);
        case Stamp(_, since, at) => StampCounts(ids[i], c.nodes[i], After(ids, front[..since]).nodes[i].live, at, key,
                                                limit, x);
        case Restore(_) => RestoreCounts(ids[i], c.nodes[i], key, limit, x);
      }
    }
  }

  /** A node admits no more requests for a key than the limit and what it has lost. */
  lemma NodeOverrun(ids: seq<string>, steps: seq<Step>, key: string, limit: nat, i: nat)
    requires LimitsWithin(steps, key, limit) && i < |ids|
    ensures AdmittedAt(ids, steps, key, i) <= limit + LostAt(ids, steps, key, i)
  {
    StillCounted(ids, steps, key, limit, i);
  }

  ghost function Sum(f: nat -> nat, m: nat): nat {
    if m == 0 then 0 else Sum(f, m - 1) + f(m - 1)
  }

  lemma {:induction false} SumWithin(f: nat -> nat, g: nat -> nat, limit: nat, m: nat)
    requires forall i: nat :: i < m ==> f(i) <= limit + g(i)
    ensures Sum(f, m) <= m * limit + Sum(g, m)
  {
    if m > 0 { SumWithin(f, g, limit, m - 1); }
  }

  /** In every run, checkpoints and restores at any point of it, N nodes with limit L admit at most N * L requests for
      a key and as many more as rotations, stale copies and restores have lost. */
  lemma OverrunBounded(ids: seq<string>, steps: seq<Step>, key: string, limit: nat)
    requires LimitsWithin(steps, key, limit)
    ensures Sum(i => AdmittedAt(ids, steps, key, i), |ids|) <=
            |ids| * limit + Sum(i => LostAt(ids, steps, key, i), |ids|)
  {
    forall i: nat | i < |ids| ensures AdmittedAt(ids, steps, key, i) <= limit + LostAt(ids, steps, key, i) {
      NodeOverrun(ids, steps, key, limit, i);
    }
    SumWithin(i => AdmittedAt(ids, steps, key, i), i => LostAt(ids, steps, key, i), limit, |ids|);
  }

  // ----- the bound is reached -----

  /** What one more operation does to the node that acts, and that it leaves the others alone. */
  lemma PlainMore(ids: seq<string>, steps: seq<Step>, op: Op, key: string, n: Node, r: Node)
    requires Possible(After(ids, steps), op) && n == After(ids, steps).nodes[op.node]
    requires r == Effect(ids, After(ids, steps), op)
    ensures var more := steps + [Plain(op)];
            && After(ids, more).nodes == After(ids, steps).nodes[op.node := r]
            && AdmittedAt(ids, more, key, op.node) == AdmittedAt(ids, steps, key, op.node)
               + (if op.Consume? && op.key == key && Admits(n.live, key, op.limit) then 1 else 0)
            && LostAt(ids, more, key, op.node) == LostAt(ids, steps, key, op.node)
               + (if op.Rotate? then Charges(n.disk.wal, key, Base(n.disk).at) else 0)
  {
    Snoc(steps, Plain(op));
  }

  lemma OthersStay(ids: seq<string>, steps: seq<Step>, op: Op, key: string, i: nat)
    requires op.node != i
    ensures AdmittedAt(ids, steps + [Plain(op)], key, i) == AdmittedAt(ids, steps, key, i)
    ensures LostAt(ids, steps + [Plain(op)], key, i) == LostAt(ids, steps, key, i)
  {
    Snoc(steps, Plain(op));
  }

  /** Node i sees `view` admissions, has admitted as many and those it lost. */
  ghost predicate Account(ids: seq<string>, steps: seq<Step>, key: string, i: nat, view: nat, lost: nat) {
    && i < |ids| && Total(CountsOf(After(ids, steps).nodes[i].live.limiters, key)) == view
    && AdmittedAt(ids, steps, key, i) == view + lost && LostAt(ids, steps, key, i) == lost
  }

  /** The account of node i when the nodes before m have used up the limit and node m has admitted k requests since. */
  ghost predicate Booked(ids: seq<string>, steps: seq<Step>, key: string, limit: nat, m: nat, k: nat, r: nat, i: nat) {
    Account(ids, steps, key, i, if i < m then limit else if i == m then k else 0, if i == 0 then r else 0)
  }

  /** The nodes before m have used up the limit, node m has admitted k requests since, and node 0 has lost r. */
  ghost predicate Ledger(ids: seq<string>, steps: seq<Step>, key: string, limit: nat, m: nat, k: nat, r: nat) {
    && m < |ids| && LimitsWithin(steps, key, limit)
    && forall i: nat :: i < |ids| ==> Booked(ids, steps, key, limit, m, k, r, i)
  }

  lemma AccountStays(ids: seq<string>, steps: seq<Step>, op: Op, key: string, n: Node, r: Node, i: nat, view: nat,
      lost: nat)
    requires Possible(After(ids, steps), op) && n == After(ids, steps).nodes[op.node]
    requires r == Effect(ids, After(ids, steps), op)
    requires op.node != i && Account(ids, steps, key, i, view, lost)
    ensures Account(ids, steps + [Plain(op)], key, i, view, lost)
  {
    PlainMore(ids, steps, op, key, n, r);
    OthersStay(ids, steps, op, key, i);
  }

  lemma ConsumeAccount(ids: seq<string>, steps: seq<Step>, key: string, limit: nat, m: nat, view: nat, lost: nat)
    requires Account(ids, steps, key, m, view, lost) && view < limit
    ensures var op := Op.Consume(m, key, limit, After(ids, steps).nodes[m].clock + 1);
            Possible(After(ids, steps), op) && Account(ids, steps + [Plain(op)], key, m, view + 1, lost)
  {
    var n := After(ids, steps).nodes[m];
    var op := Op.Consume(m, key, limit, n.clock + 1);
    var r := DoConsume(n, ids[m], key, limit, n.clock + 1);
    PlainMore(ids, steps, op, key, n, r);
    IncrementAddsOne(CountsOf(n.live.limiters, key), ids[m]);
    assert CountsOf(r.live.limiters, key) == Incremented(CountsOf(n.live.limiters, key), ids[m]);
    assert After(ids, steps + [Plain(op)]).nodes[m] == r;
  }

  lemma LedgerMore(ids: seq<string>, steps: seq<Step>, key: string, limit: nat, m: nat, k: nat, r: nat)
    returns (more: seq<Step>)
    requires Ledger(ids, steps, key, limit, m, k, r) && k < limit
    ensures Ledger(ids, more, key, limit, m, k + 1, r)
  {
    var c := After(ids, steps);
    var op := Op.Consume(m, key, limit, c.nodes[m].clock + 1);
    var next := k + 1;
    more := steps + [Plain(op)];
    assert Booked(ids, steps, key, limit, m, k, r, m);
    ConsumeAccount(ids, steps, key, limit, m, k, if m == 0 then r else 0);
    forall i: nat | i < |ids| ensures Booked(ids, more, key, limit, m, next, r, i) {
      if i != m {
        assert Booked(ids, steps, key, limit, m, k, r, i);
        AccountStays(ids, steps, op, key, c.nodes[m], Effect(ids, c, op), i, if i < m then limit else 0,
                     if i == 0 then r else 0);
      }
    }
  }

  lemma {:induction false} Fill(ids: seq<string>, steps: seq<Step>, key: string, limit: nat, m: nat, k: nat, r: nat)
    returns (more: seq<Step>)
    requires Ledger(ids, steps, key, limit, m, k, r) && k <= limit
    ensures Ledger(ids, more, key, limit, |ids| - 1, limit, r)
    decreases |ids| - m, limit - k
  {
    if k < limit {
      more := LedgerMore(ids, steps, key, limit, m, k, r);
      more := Fill(ids, more, key, limit, m, k + 1, r);
    } else if m + 1 < |ids| {
      var next := m + 1;
      forall i: nat | i < |ids| ensures Booked(ids, steps, key, limit, next, 0, r, i) {
        assert Booked(ids, steps, key, limit, m, limit, r, i);
      }
      more := Fill(ids, steps, key, limit, next, 0, r);
    } else {
      more := steps;
    }
  }

  // ----- rounds that lose an admission each -----

  /** The log is empty, and nothing is counted for the key. */
  ghost predicate Idle(n: Node, key: string) {
    n.disk.wal == [] && Total(CountsOf(n.live.limiters, key)) == 0
  }

  /** A snapshot, and an admission that is only in the log. */
  ghost function Charge(self: string, n: Node, key: string, limit: nat): Node {
    DoConsume(DoSnapshot(n, n.live, n.clock + 1), self, key, limit, n.clock + 2)
  }

  lemma RoundForgets(self: string, n: Node, key: string, limit: nat)
    requires Idle(n, key) && 0 < limit
    ensures Admits(DoSnapshot(n, n.live, n.clock + 1).live, key, limit)
    ensures var m := Charge(self, n, key, limit);
            Charges(m.disk.wal, key, Base(m.disk).at) == 1 && Idle(DoCrash(DoRotate(m), self), key)
  {
    var m := Charge(self, n, key, limit);
    assert m.disk.wal == [Log.Consume(n.clock + 2, key)];
    assert Charges(m.disk.wal[..0], key, Base(m.disk).at) == 0;
  }

  /** Node 0 is idle after losing r admissions, and nobody else has done anything. */
  ghost predicate Started(ids: seq<string>, steps: seq<Step>, key: string, limit: nat, r: nat) {
    Ledger(ids, steps, key, limit, 0, 0, r) && Idle(After(ids, steps).nodes[0], key)
  }

  lemma LimitsMore(steps: seq<Step>, op: Op, key: string, limit: nat)
    requires LimitsWithin(steps, key, limit) && (op.Consume? ==> op.limit == limit)
    ensures LimitsWithin(steps + [Plain(op)], key, limit)
  {
    var more := steps + [Plain(op)];
    forall k | 0 <= k < |more| && more[k].Plain? && more[k].op.Consume? && more[k].op.key == key
      ensures more[k].op.limit <= limit
    {
      if k < |steps| { assert more[k] == steps[k]; }
    }
  }

  /** One step of node 0, by which it has admitted a and lost l more. */
  lemma FirstMore(ids: seq<string>, steps: seq<Step>, op: Op, key: string, limit: nat, n: Node, r: Node)
    requires Possible(After(ids, steps), op) && op.node == 0 && n == After(ids, steps).nodes[0]
    requires r == Effect(ids, After(ids, steps), op) && LimitsWithin(steps, key, limit)
    requires op.Consume? ==> op.limit == limit
    requires forall i: nat :: 0 < i < |ids| ==> Account(ids, steps, key, i, 0, 0)
    ensures var more := steps + [Plain(op)];
            && LimitsWithin(more, key, limit) && After(ids, more).nodes[0] == r
            && AdmittedAt(ids, more, key, 0) == AdmittedAt(ids, steps, key, 0)
               + (if op.Consume? && op.key == key && Admits(n.live, key, limit) then 1 else 0)
            && LostAt(ids, more, key, 0) == LostAt(ids, steps, key, 0)
               + (if op.Rotate? then Charges(n.disk.wal, key, Base(n.disk).at) else 0)
            && forall i: nat :: 0 < i < |ids| ==> Account(ids, more, key, i, 0, 0)
  {
    PlainMore(ids, steps, op, key, n, r);
    LimitsMore(steps, op, key, limit);
    assert After(ids, steps + [Plain(op)]).nodes[0] == r;
    forall i: nat | 0 < i < |ids| ensures Account(ids, steps + [Plain(op)], key, i, 0, 0) {
      assert Account(ids, steps, key, i, 0, 0);
      AccountStays(ids, steps, op, key, n, r, i, 0, 0);
    }
  }

  lemma RoundStarts(ids: seq<string>, steps: seq<Step>, key: string, limit: nat, n: Node) returns (more: seq<Step>)
    requires ids != [] && 0 < limit && LimitsWithin(steps, key, limit)
    requires n == After(ids, steps).nodes[0] && Idle(n, key)
    requires forall i: nat :: 0 < i < |ids| ==> Account(ids, steps, key, i, 0, 0)
    ensures LimitsWithin(more, key, limit) && After(ids, more).nodes[0] == Charge(ids[0], n, key, limit)
    ensures AdmittedAt(ids, more, key, 0) == AdmittedAt(ids, steps, key, 0) + 1
    ensures LostAt(ids, more, key, 0) == LostAt(ids, steps, key, 0)
    ensures forall i: nat :: 0 < i < |ids| ==> Account(ids, more, key, i, 0, 0)
  {
    RoundForgets(ids[0], n, key, limit);
    var m := DoSnapshot(n, n.live, n.clock + 1);
    var one, two := Checkpoint(0, n.clock + 1), Op.Consume(0, key, limit, n.clock + 2);
    FirstMore(ids, steps, one, key, limit, n, m);
    FirstMore(ids, steps + [Plain(one)], two, key, limit, m, Charge(ids[0], n, key, limit));
    more := steps + [Plain(one)] + [Plain(two)];
  }

  lemma RoundEnds(ids: seq<string>, steps: seq<Step>, key: string, limit: nat, n: Node) returns (more: seq<Step>)
    requires ids != [] && n == After(ids, steps).nodes[0] && LimitsWithin(steps, key, limit)
    requires Charges(n.disk.wal, key, Base(n.disk).at) == 1
    requires forall i: nat :: 0 < i < |ids| ==> Account(ids, steps, key, i, 0, 0)
    ensures LimitsWithin(more, key, limit) && After(ids, more).nodes[0] == DoCrash(DoRotate(n), ids[0])
    ensures AdmittedAt(ids, more, key, 0) == AdmittedAt(ids, steps, key, 0)
    ensures LostAt(ids, more, key, 0) == LostAt(ids, steps, key, 0) + 1
    ensures forall i: nat :: 0 < i < |ids| ==> Account(ids, more, key, i, 0, 0)
  {
    FirstMore(ids, steps, Rotate(0), key, limit, n, DoRotate(n));
    FirstMore(ids, steps + [Plain(Rotate(0))], Crash(0), key, limit, DoRotate(n), DoCrash(DoRotate(n), ids[0]));
    more := steps + [Plain(Rotate(0))] + [Plain(Crash(0))];
  }

  /** A checkpoint with an admission between snapshot and rotation, and a crash. */
  lemma RoundMore(ids: seq<string>, steps: seq<Step>, key: string, limit: nat, r: nat) returns (more: seq<Step>)
    requires 0 < limit && Started(ids, steps, key, limit, r)
    ensures Started(ids, more, key, limit, r + 1)
  {
    var n := After(ids, steps).nodes[0];
    assert Booked(ids, steps, key, limit, 0, 0, r, 0);
    forall i: nat | 0 < i < |ids| ensures Account(ids, steps, key, i, 0, 0) {
      assert Booked(ids, steps, key, limit, 0, 0, r, i);
    }
    RoundForgets(ids[0], n, key, limit);
    more := RoundStarts(ids, steps, key, limit, n);
    more := RoundEnds(ids, more, key, limit, Charge(ids[0], n, key, limit));
    var next := r + 1;
    forall i: nat | i < |ids| ensures Booked(ids, more, key, limit, 0, 0, next, i) {
      if i > 0 { assert Account(ids, more, key, i, 0, 0); }
    }
  }

  lemma {:induction false} Rounds(ids: seq<string>, key: string, limit: nat, r: nat) returns (steps: seq<Step>)
    requires ids != [] && 0 < limit
    ensures Started(ids, steps, key, limit, r)
  {
    if r == 0 {
      steps := [];
      forall i: nat | i < |ids| ensures Booked(ids, steps, key, limit, 0, 0, 0, i) {
        assert Empty(ids).nodes[i] == NEW_NODE;
      }
    } else {
      steps := Rounds(ids, key, limit, r - 1);
      steps := RoundMore(ids, steps, key, limit, r - 1);
    }
  }

  lemma {:induction false} SumExact(f: nat -> nat, g: nat -> nat, limit: nat, m: nat)
    requires forall i: nat :: i < m ==> f(i) == limit + g(i)
    ensures Sum(f, m) == m * limit + Sum(g, m)
  {
    if m > 0 { SumExact(f, g, limit, m - 1); }
  }

  lemma {:induction false} SumFirst(g: nat -> nat, m: nat)
    requires forall i: nat :: 0 < i < m ==> g(i) == 0
    ensures Sum(g, m) == if m > 0 then g(0) else 0
  {
    if m > 1 { SumFirst(g, m - 1); }
  }

  /** The bound is attained for every number of nodes, every limit and every number of losses: without the losses there
      is no bound. */
  lemma OverrunReached(ids: seq<string>, key: string, limit: nat, r: nat) returns (steps: seq<Step>)
    requires ids != [] && 0 < limit
    ensures LimitsWithin(steps, key, limit) && Sum(i => LostAt(ids, steps, key, i), |ids|) == r
    ensures Sum(i => AdmittedAt(ids, steps, key, i), |ids|) == |ids| * limit + r
  {
    steps := Rounds(ids, key, limit, r);
    steps := Fill(ids, steps, key, limit, 0, 0, r);
    forall i: nat | i < |ids|
      ensures AdmittedAt(ids, steps, key, i) == limit + LostAt(ids, steps, key, i)
      ensures LostAt(ids, steps, key, i) == if i == 0 then r else 0
    {
      assert Booked(ids, steps, key, limit, |ids| - 1, limit, r, i);
    }
    SumExact(i => AdmittedAt(ids, steps, key, i), i => LostAt(ids, steps, key, i), limit, |ids|);
    SumFirst(i => LostAt(ids, steps, key, i), |ids|);
  }
}
