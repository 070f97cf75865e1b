/** Many nodes' copies of one stream: appends, retention and merges of stale, repeated or reordered
    snapshots, in any interleaving and with any clocks, between restarts. */
module StreamReplicas {
  import opened Wrappers
  import opened StreamLog
  import opened Retention
  import opened Streams
  import Gossip = Convergence

  datatype Copy = Copy(entries: seq<Entry>, lastSequence: int)

  datatype Op =
    | Add(node: nat, fields: map<string, string>, now: int, later: int)
    | Trim(node: nat, now: int)
    | Send(node: nat)
    | Deliver(node: nat, message: nat, now: int)

  datatype Cluster = Cluster(copies: seq<Copy>, sent: seq<seq<Entry>>)

  ghost function Empty(ids: seq<string>): Cluster {
    Cluster(seq(|ids|, i => Copy([], 0)), [])
  }

  function Appended(c: Copy, node: string, fields: map<string, string>, now: int): Entry {
    NewEntry(now, c.lastSequence + 1, node, fields)
  }

  ghost function Do(p: Policy, ids: seq<string>, c: Cluster, op: Op): (r: Cluster)
    requires |c.copies| == |ids|
    ensures |r.copies| == |ids|
  {
    if op.node >= |ids| then c
    else
      var mine := c.copies[op.node];
      match op
      case Add(i, fields, now, later) =>
        c.(copies := c.copies[i := Copy(Retained(p, later, mine.entries + [Appended(mine, ids[i], fields, now)]),
                                        mine.lastSequence + 1)])
      case Trim(i, now) => c.(copies := c.copies[i := mine.(entries := Retained(p, now, mine.entries))])
      case Send(i) => c.(sent := c.sent + [mine.entries])
      case Deliver(i, k, now) =>
        if k < |c.sent| then c.(copies := c.copies[i := mine.(entries := MergedLog(p, now, mine.entries, c.sent[k]))])
        else c
  }

  ghost function After(p: Policy, ids: seq<string>, ops: seq<Op>): (c: Cluster)
    ensures |c.copies| == |ids|
    decreases |ops|
  {
    if ops == [] then Empty(ids) else Do(p, ids, After(p, ids, ops[..|ops| - 1]), ops[|ops| - 1])
  }

  // ----- an identifier names one entry -----

  type Registry = map<string, Entry>

  /** Every entry ever appended, by its identifier. */
  ghost function Written(p: Policy, ids: seq<string>, ops: seq<Op>): Registry
    decreases |ops|
  {
    if ops == [] then map[]
    else
      var before, op := After(p, ids, ops[..|ops| - 1]), ops[|ops| - 1];
      var reg := Written(p, ids, ops[..|ops| - 1]);
      if op.Add? && op.node < |ids|
      then var e := Appended(before.copies[op.node], ids[op.node], op.fields, op.now); reg[e.id := e]
      else reg
  }

  /** Only entries that were appended, each under the identifier made from it. */
  ghost predicate Genuine(reg: Registry, s: set<Entry>) {
    forall e :: e in s ==> e.id in reg && reg[e.id] == e && e.id == EntryId(e.timestamp, e.sequence, e.node)
  }

  ghost predicate WellNamed(reg: Registry) {
    forall id :: id in reg ==> reg[id].id == id == EntryId(reg[id].timestamp, reg[id].sequence, reg[id].node)
  }

  ghost predicate GoodLog(n: nat, reg: Registry, entries: seq<Entry>) {
    Genuine(reg, Elements(entries)) && DistinctIds(entries) && |entries| <= n
  }

  /** No sequence number of this node's is ahead of its counter. */
  ghost predicate Counted(reg: Registry, node: string, lastSequence: int) {
    forall id :: id in reg && reg[id].node == node ==> reg[id].sequence <= lastSequence
  }

  ghost predicate Tracked(n: nat, ids: seq<string>, c: Cluster, reg: Registry) {
    && |c.copies| == |ids|
    && WellNamed(reg)
    && (forall i :: 0 <= i < |ids| ==>
          GoodLog(n, reg, c.copies[i].entries) && Counted(reg, ids[i], c.copies[i].lastSequence))
    && (forall k :: 0 <= k < |c.sent| ==> GoodLog(n, reg, c.sent[k]))
  }

  lemma GenuineUntied(reg: Registry, s: set<Entry>)
    requires Genuine(reg, s)
    ensures Untied(s)
  {
    forall a, b | a in s && b in s && a != b ensures Before(a, b) || Before(b, a) { BeforeTotal(a, b); }
  }

  /** A new identifier is made from a sequence number that the node has not used. */
  lemma NewId(reg: Registry, c: Copy, node: string, fields: map<string, string>, now: int)
    requires WellNamed(reg) && Counted(reg, node, c.lastSequence)
    ensures Appended(c, node, fields, now).id !in reg
  {
    var e := Appended(c, node, fields, now);
    if e.id in reg {
      var other := reg[e.id];
      EntryIdInjective(other.timestamp, other.sequence, other.node, now, c.lastSequence + 1, node);
      assert false;
    }
  }

  lemma LastOfIds(n: nat, s: seq<Entry>)
    requires DistinctIds(s)
    ensures DistinctIds(LastOf(n, s)) && Elements(LastOf(n, s)) <= Elements(s) && |LastOf(n, s)| <= n
  {
  }

  lemma SuffixIds(s: seq<Entry>, t: seq<Entry>)
    requires Suffix(s, t) && DistinctIds(t)
    ensures DistinctIds(s) && Elements(s) <= Elements(t)
  {
  }

  lemma RetainedGood(p: Policy, now: int, entries: seq<Entry>)
    requires DistinctIds(entries)
    ensures var r := Retained(p, now, entries);
            DistinctIds(r) && Elements(r) <= Elements(entries) && |r| <= p.maxEntries
  {
    var young := Young(entries, now, p.maxAge);
    YoungKeeps(entries, now, p.maxAge);
    forall e | e in young ensures e in entries { YoungHas(entries, now, p.maxAge, e); }
    LastOfIds(p.maxEntries, young);
    LightSuffix(LastOf(p.maxEntries, young), p.maxSize);
    SuffixIds(Retained(p, now, entries), LastOf(p.maxEntries, young));
  }

  lemma {:induction false} UniteHas(mine: seq<Entry>, peer: seq<Entry>, e: Entry)
    requires e in Unite(mine, peer)
    ensures e in mine || e in peer
  {
    if peer != [] {
      assert peer == peer[..|peer| - 1] + [peer[|peer| - 1]];
      if e in Unite(mine, peer[..|peer| - 1]) { UniteHas(mine, peer[..|peer| - 1], e); }
    }
  }

  lemma {:induction false} UniteGood(mine: seq<Entry>, peer: seq<Entry>)
    requires DistinctIds(mine)
    ensures DistinctIds(Unite(mine, peer)) && |mine| <= |Unite(mine, peer)| && mine == Unite(mine, peer)[..|mine|]
  {
    if peer != [] { UniteGood(mine, peer[..|peer| - 1]); }
  }

  lemma MergedGood(p: Policy, now: int, mine: seq<Entry>, peer: seq<Entry>)
    requires DistinctIds(mine) && |mine| <= p.maxEntries
    ensures var r := MergedLog(p, now, mine, peer);
            DistinctIds(r) && Elements(r) <= Elements(mine) + Elements(peer) && |r| <= p.maxEntries
  {
    UniteGood(mine, peer);
    forall e | e in Unite(mine, peer) ensures e in mine || e in peer { UniteHas(mine, peer, e); }
    SortIds(Unite(mine, peer));
    SortElements(Unite(mine, peer));
    RetainedGood(p, now, SortEntries(Unite(mine, peer)));
  }

  lemma TrackedLog(p: Policy, ids: seq<string>, c: Cluster, reg: Registry, i: nat, entries: seq<Entry>)
    requires Tracked(p.maxEntries, ids, c, reg) && i < |ids| && GoodLog(p.maxEntries, reg, entries)
    ensures Tracked(p.maxEntries, ids, c.(copies := c.copies[i := c.copies[i].(entries := entries)]), reg)
  {
  }

  lemma GoodLogMore(n: nat, reg: Registry, e: Entry, entries: seq<Entry>)
    requires GoodLog(n, reg, entries) && e.id !in reg
    ensures GoodLog(n, reg[e.id := e], entries)
  {
  }

  lemma CountedMore(reg: Registry, e: Entry, node: string, lastSequence: int)
    requires Counted(reg, node, lastSequence) && (e.node == node ==> e.sequence <= lastSequence)
    ensures Counted(reg[e.id := e], node, lastSequence)
  {
  }

  /** The log after an append, before anything is dropped. */
  lemma AppendedGood(n: nat, reg: Registry, e: Entry, entries: seq<Entry>)
    requires GoodLog(n, reg, entries) && e.id !in reg && e.id == EntryId(e.timestamp, e.sequence, e.node)
    ensures DistinctIds(entries + [e]) && Genuine(reg[e.id := e], Elements(entries + [e]))
  {
    GoodLogMore(n, reg, e, entries);
    ElementsMore(entries, e);
    var all := entries + [e];
    forall k | 0 <= k < |entries| ensures all[k].id != e.id { assert all[k] in Elements(entries); }
  }

  lemma TrackedAdd(p: Policy, ids: seq<string>, c: Cluster, reg: Registry, i: nat, fields: map<string, string>,
      now: int, later: int)
    requires Distinct(ids) && Tracked(p.maxEntries, ids, c, reg) && i < |ids|
    ensures var e := Appended(c.copies[i], ids[i], fields, now);
            Tracked(p.maxEntries, ids, Do(p, ids, c, Add(i, fields, now, later)), reg[e.id := e])
  {
    var mine := c.copies[i];
    var e := Appended(mine, ids[i], fields, now);
    var reg' := reg[e.id := e];
    assert GoodLog(p.maxEntries, reg, mine.entries);
    NewId(reg, mine, ids[i], fields, now);
    AppendedGood(p.maxEntries, reg, e, mine.entries);
    RetainedGood(p, later, mine.entries + [e]);
    var copies' := Do(p, ids, c, Add(i, fields, now, later)).copies;
    forall j | 0 <= j < |ids|
      ensures GoodLog(p.maxEntries, reg', copies'[j].entries) && Counted(reg', ids[j], copies'[j].lastSequence)
    {
      if j != i {
        assert ids[i] != ids[j];
        GoodLogMore(p.maxEntries, reg, e, c.copies[j].entries);
      }
      CountedMore(reg, e, ids[j], copies'[j].lastSequence);
    }
    forall k | 0 <= k < |c.sent| ensures GoodLog(p.maxEntries, reg', c.sent[k]) {
      GoodLogMore(p.maxEntries, reg, e, c.sent[k]);
    }
  }

  /** In every reachable state: each entry, in any log or message, is the one that was appended under its
      identifier, no log holds an identifier twice, and none is longer than the bound. */
  lemma {:induction false} AlwaysTracked(p: Policy, ids: seq<string>, ops: seq<Op>)
    requires Distinct(ids)
    ensures Tracked(p.maxEntries, ids, After(p, ids, ops), Written(p, ids, ops))
    decreases |ops|
  {
    if ops != [] {
      AlwaysTracked(p, ids, ops[..|ops| - 1]);
      var c, reg, op := After(p, ids, ops[..|ops| - 1]), Written(p, ids, ops[..|ops| - 1]), ops[|ops| - 1];
      if op.node < |ids| {
        var mine := c.copies[op.node].entries;
        assert GoodLog(p.maxEntries, reg, mine);
        match op
        case Add(i, fields, now, later) => TrackedAdd(p, ids, c, reg, i, fields, now, later);
        case Trim(i, now) =>
          RetainedGood(p, now, mine);
          TrackedLog(p, ids, c, reg, i, Retained(p, now, mine));
        case Send(i) =>
        case Deliver(i, k, now) =>
          if k < |c.sent| {
            assert GoodLog(p.maxEntries, reg, c.sent[k]);
            MergedGood(p, now, mine, c.sent[k]);
            TrackedLog(p, ids, c, reg, i, MergedLog(p, now, mine, c.sent[k]));
          }
      }
    }
  }

  /** The logs that occur in a cluster: the nodes', then the messages'. */
  ghost function Logs(c: Cluster): (logs: seq<seq<Entry>>)
    ensures |logs| == |c.copies| + |c.sent|
    ensures forall i :: 0 <= i < |c.copies| ==> logs[i] == c.copies[i].entries
    ensures forall k :: 0 <= k < |c.sent| ==> logs[|c.copies| + k] == c.sent[k]
  {
    seq(|c.copies|, i requires 0 <= i < |c.copies| => c.copies[i].entries) + c.sent
  }

  lemma LogIsGood(n: nat, ids: seq<string>, c: Cluster, reg: Registry, k: nat)
    requires Tracked(n, ids, c, reg) && k < |Logs(c)|
    ensures GoodLog(n, reg, Logs(c)[k])
  {
    if k >= |c.copies| { assert Logs(c)[k] == c.sent[k - |c.copies|]; }
  }

  lemma LogsGood(p: Policy, ids: seq<string>, ops: seq<Op>, k: nat)
    requires Distinct(ids) && k < |Logs(After(p, ids, ops))|
    ensures GoodLog(p.maxEntries, Written(p, ids, ops), Logs(After(p, ids, ops))[k])
  {
    AlwaysTracked(p, ids, ops);
    LogIsGood(p.maxEntries, ids, After(p, ids, ops), Written(p, ids, ops), k);
  }

  /** Two entries under one identifier, in whatever logs or messages, are the same entry. */
  lemma SameIdSameEntry(p: Policy, ids: seq<string>, ops: seq<Op>, i: nat, j: nat, a: Entry, b: Entry)
    requires Distinct(ids) && i < |Logs(After(p, ids, ops))| && j < |Logs(After(p, ids, ops))|
    requires a in Logs(After(p, ids, ops))[i] && b in Logs(After(p, ids, ops))[j] && a.id == b.id
    ensures a == b
  {
    LogsGood(p, ids, ops, i);
    LogsGood(p, ids, ops, j);
    assert a in Elements(Logs(After(p, ids, ops))[i]) && b in Elements(Logs(After(p, ids, ops))[j]);
  }

  /** What the k-th operation of a run appends. */
  ghost function AppendedBy(p: Policy, ids: seq<string>, ops: seq<Op>, k: nat): Entry
    requires k < |ops| && ops[k].Add? && ops[k].node < |ids|
  {
    Appended(After(p, ids, ops[..k]).copies[ops[k].node], ids[ops[k].node], ops[k].fields, ops[k].now)
  }

  lemma {:induction false} AppendedIsWritten(p: Policy, ids: seq<string>, ops: seq<Op>, j: nat, k: nat)
    requires Distinct(ids) && j < k <= |ops| && ops[j].Add? && ops[j].node < |ids|
    ensures AppendedBy(p, ids, ops, j).id in Written(p, ids, ops[..k])
    decreases k
  {
    assert ops[..k][..k - 1] == ops[..k - 1];
    if j < k - 1 { AppendedIsWritten(p, ids, ops, j, k - 1); }
  }

  /** No two appends of a run, on whatever nodes and at whatever times, make the same identifier. */
  lemma AppendedIdsDiffer(p: Policy, ids: seq<string>, ops: seq<Op>, j: nat, k: nat)
    requires Distinct(ids) && j < k < |ops|
    requires ops[j].Add? && ops[j].node < |ids| && ops[k].Add? && ops[k].node < |ids|
    ensures AppendedBy(p, ids, ops, j).id != AppendedBy(p, ids, ops, k).id
  {
    AlwaysTracked(p, ids, ops[..k]);
    AppendedIsWritten(p, ids, ops, j, k);
    var i := ops[k].node;
    NewId(Written(p, ids, ops[..k]), After(p, ids, ops[..k]).copies[i], ids[i], ops[k].fields, ops[k].now);
  }

  // ----- merging by count alone -----

  ghost predicate Fresh(p: Policy, now: int, e: Entry) {
    !TooOld(e, now, p.maxAge)
  }

  /** The merge brings nothing new, or of the n last entries of the union none is past its age and together they
      are not over the size. */
  ghost predicate Roomy(p: Policy, now: int, mine: seq<Entry>, peer: seq<Entry>) {
    var last := LastOf(p.maxEntries, SortEntries(Unite(mine, peer)));
    Elements(peer) <= Elements(mine) || ((forall e :: e in last ==> Fresh(p, now, e)) && Size(last) <= p.maxSize)
  }

  lemma {:induction false} UniteElements(reg: Registry, mine: seq<Entry>, peer: seq<Entry>)
    requires Genuine(reg, Elements(mine)) && Genuine(reg, Elements(peer))
    ensures Elements(Unite(mine, peer)) == Elements(mine) + Elements(peer)
  {
    if peer != [] {
      var front, last := peer[..|peer| - 1], peer[|peer| - 1];
      assert Elements(peer) == Elements(front) + {last} by { assert peer == front + [last]; }
      UniteElements(reg, mine, front);
      var before := Unite(mine, front);
      if Find(before, last.id).Some? {
        var i := Find(before, last.id).value;
        assert before[i] in Elements(before) && last in Elements(peer) && before[i] == last;
      } else {
        assert Elements(before + [last]) == Elements(before) + {last};
      }
    }
  }

  lemma GenuineUnited(reg: Registry, entries: seq<Entry>)
    requires Genuine(reg, Elements(entries)) && DistinctIds(entries)
    ensures Ordered(SortEntries(entries)) && Elements(SortEntries(entries)) == Elements(entries)
  {
    forall i, j | 0 <= i < j < |entries| ensures Before(entries[i], entries[j]) || Before(entries[j], entries[i]) {
      assert entries[i] in Elements(entries) && entries[j] in Elements(entries);
      BeforeTotal(entries[i], entries[j]);
    }
    SortOrdered(entries);
    SortElements(entries);
  }

  lemma IdsCard(s: seq<Entry>)
    requires DistinctIds(s)
    ensures |Elements(s)| == |s|
  {
    forall i, j | 0 <= i < j < |s| ensures s[i] != s[j] { assert s[i].id != s[j].id; }
    ElementsCard(s);
  }

  lemma NothingNew(reg: Registry, mine: seq<Entry>, peer: seq<Entry>)
    requires Genuine(reg, Elements(mine)) && Genuine(reg, Elements(peer)) && DistinctIds(mine)
    ensures |Unite(mine, peer)| == |mine| <==> Elements(mine) + Elements(peer) == Elements(mine)
  {
    UniteElements(reg, mine, peer);
    UniteGood(mine, peer);
    IdsCard(mine);
    IdsCard(Unite(mine, peer));
    if |Unite(mine, peer)| == |mine| { assert Unite(mine, peer) == mine; }
  }

  lemma OrderedTimely(s: seq<Entry>)
    requires Ordered(s)
    ensures Timely(s)
  {
  }

  /** Where the n last entries are fresh, dropping older ones by age first changes nothing. */
  lemma FreshLast(p: Policy, now: int, sorted: seq<Entry>)
    requires Ordered(sorted) && forall e :: e in LastOf(p.maxEntries, sorted) ==> Fresh(p, now, e)
    ensures LastOf(p.maxEntries, Young(sorted, now, p.maxAge)) == LastOf(p.maxEntries, sorted)
  {
    var young, last := Young(sorted, now, p.maxAge), LastOf(p.maxEntries, sorted);
    OrderedTimely(sorted);
    YoungSuffix(sorted, now, p.maxAge);
    if |young| < |last| {
      assert last[0] == sorted[|sorted| - |last|] && last[0] in last;
      YoungHas(sorted, now, p.maxAge, last[0]);
      OrderedDistinct(sorted);
      assert false;
    }
  }

  lemma LightWhole(s: seq<Entry>, maxSize: int)
    requires s != []
    ensures if Size(s) <= maxSize then Light(s, maxSize) == s else |Light(s, maxSize)| < |s|
  {
    if Size(s) > maxSize { LightSuffix(s[1..], maxSize); }
  }

  lemma RetainedOrdered(p: Policy, now: int, sorted: seq<Entry>)
    requires Ordered(sorted)
    ensures Ordered(Retained(p, now, sorted))
  {
    OrderedTimely(sorted);
    RetainedSuffix(p, now, sorted);
  }

  /** Retention is a cut by count alone exactly when the n last entries are fresh and not over the size. */
  lemma RetainsByCountIff(p: Policy, now: int, sorted: seq<Entry>)
    requires Ordered(sorted) && sorted != [] && p.maxEntries > 0
    ensures var last := LastOf(p.maxEntries, sorted);
            Elements(Retained(p, now, sorted)) == Kept(p.maxEntries, Elements(sorted))
            <==> (forall e :: e in last ==> Fresh(p, now, e)) && Size(last) <= p.maxSize
  {
    var last, r := LastOf(p.maxEntries, sorted), Retained(p, now, sorted);
    LastIsKept(p.maxEntries, sorted);
    if forall e :: e in last ==> Fresh(p, now, e) {
      FreshLast(p, now, sorted);
      LightWhole(last, p.maxSize);
      RetainedOrdered(p, now, sorted);
      OrderedDistinct(r);
      OrderedDistinct(last);
    } else {
      var e :| e in last && !Fresh(p, now, e);
      if e in r { RetainedFresh(p, now, sorted, e); }
      assert e in Elements(last) && e !in Elements(r);
    }
  }

  lemma RetainedFresh(p: Policy, now: int, s: seq<Entry>, e: Entry)
    requires e in Retained(p, now, s)
    ensures Fresh(p, now, e)
  {
    var young := Young(s, now, p.maxAge);
    LightSuffix(LastOf(p.maxEntries, young), p.maxSize);
    assert e in young;
    YoungHas(s, now, p.maxAge, e);
  }

  /** A merge keeps the n last entries of both logs exactly when it brings nothing new, or the n last are fresh and
      not over the size. With nothing new the log stays as it is, in order or not; with something new it is put in
      order. */
  lemma MergeKeepsIff(p: Policy, now: int, reg: Registry, mine: seq<Entry>, peer: seq<Entry>)
    requires GoodLog(p.maxEntries, reg, mine) && GoodLog(p.maxEntries, reg, peer)
    ensures Elements(MergedLog(p, now, mine, peer)) == Kept(p.maxEntries, Elements(mine) + Elements(peer))
            <==> Roomy(p, now, mine, peer)
    ensures if Elements(peer) <= Elements(mine) then MergedLog(p, now, mine, peer) == mine
            else Ordered(MergedLog(p, now, mine, peer))
  {
    assert Elements(peer) <= Elements(mine) <==> Elements(mine) + Elements(peer) == Elements(mine);
    var all := Unite(mine, peer);
    NothingNew(reg, mine, peer);
    if |all| == |mine| {
      IdsCard(mine);
      KeptAll(p.maxEntries, Elements(mine));
    } else {
      UniteElements(reg, mine, peer);
      UniteGood(mine, peer);
      GenuineUnited(reg, all);
      SomethingNew(mine, peer);
      RetainsByCountIff(p, now, SortEntries(all));
      RetainedOrdered(p, now, SortEntries(all));
    }
  }

  lemma SomethingNew(mine: seq<Entry>, peer: seq<Entry>)
    requires |Unite(mine, peer)| != |mine|
    ensures peer != [] && SortEntries(Unite(mine, peer)) != []
  {
    SortElements(Unite(mine, peer));
    if Unite(mine, peer) == [] { UniteLonger(mine, peer); }
  }

  lemma {:induction false} UniteLonger(mine: seq<Entry>, peer: seq<Entry>)
    ensures |mine| <= |Unite(mine, peer)|
  {
    if peer != [] { UniteLonger(mine, peer[..|peer| - 1]); }
  }

  // ----- once appending stops -----

  ghost function Joined(n: nat, a: set<Entry>, b: set<Entry>): set<Entry> {
    Kept(n, a + b)
  }

  ghost predicate Bounded(n: nat, reg: Registry, s: set<Entry>) {
    Genuine(reg, s) && |s| <= n
  }

  lemma JoinedBounded(n: nat, reg: Registry, a: set<Entry>, b: set<Entry>)
    requires Bounded(n, reg, a) && Bounded(n, reg, b)
    ensures Bounded(n, reg, Joined(n, a, b)) && Joined(n, a, b) == Joined(n, b, a)
  {
    GenuineUntied(reg, a + b);
    KeptCard(n, a + b);
    assert a + b == b + a;
  }

  lemma JoinedAssociates(n: nat, reg: Registry, a: set<Entry>, b: set<Entry>, c: set<Entry>)
    requires Genuine(reg, a) && Genuine(reg, b) && Genuine(reg, c)
    ensures Joined(n, Joined(n, a, b), c) == Joined(n, a, Joined(n, b, c))
  {
    GenuineUntied(reg, c + (a + b));
    KeptUnion(n, c, a + b);
    assert c + (a + b) == a + (b + c);
    KeptUnion(n, a, b + c);
    assert Kept(n, a + b) + c == c + Kept(n, a + b);
  }

  lemma JoinLawful(n: nat, reg: Registry)
    ensures Gossip.Lawful(s => Bounded(n, reg, s), (a, b) => Joined(n, a, b))
  {
    forall a | Bounded(n, reg, a) ensures Joined(n, a, a) == a {
      assert a + a == a;
      KeptAll(n, a);
    }
    forall a, b | Bounded(n, reg, a) && Bounded(n, reg, b)
      ensures Bounded(n, reg, Joined(n, a, b)) && Joined(n, a, b) == Joined(n, b, a)
    {
      JoinedBounded(n, reg, a, b);
    }
    forall a, b, c | Bounded(n, reg, a) && Bounded(n, reg, b) && Bounded(n, reg, c)
      ensures Joined(n, Joined(n, a, b), c) == Joined(n, a, Joined(n, b, c))
    {
      JoinedAssociates(n, reg, a, b, c);
    }
  }

  ghost predicate Exchange(p: Policy, c: Cluster, op: Op) {
    match op
    case Send(i) => i < |c.copies|
    case Deliver(i, k, now) => i < |c.copies| && k < |c.sent| && Roomy(p, now, c.copies[i].entries, c.sent[k])
    case _ => false
  }

  /** A run of exchanges in which nothing is past its age and no union is over the size. */
  ghost predicate Exchanging(p: Policy, ids: seq<string>, ops: seq<Op>, more: seq<Op>)
    decreases |more|
  {
    more == [] ||
    (Exchanging(p, ids, ops, more[..|more| - 1]) && Exchange(p, After(p, ids, ops + more[..|more| - 1]),
                                                             more[|more| - 1]))
  }

  ghost function StepOf(op: Op): Gossip.Step {
    match op
    case Deliver(i, k, _) => Gossip.Step.Deliver(i, k)
    case _ => Gossip.Step.Send(op.node)
  }

  ghost function Steps(more: seq<Op>): (steps: seq<Gossip.Step>)
    ensures |steps| == |more| && forall k :: 0 <= k < |more| ==> steps[k] == StepOf(more[k])
  {
    seq(|more|, k requires 0 <= k < |more| => StepOf(more[k]))
  }

  /** What the nodes hold, then what is under way. */
  ghost function Sources(c: Cluster): (r: seq<set<Entry>>)
    ensures |r| == |Logs(c)| && forall k :: 0 <= k < |r| ==> r[k] == Elements(Logs(c)[k])
  {
    seq(|Logs(c)|, k requires 0 <= k < |Logs(c)| => Elements(Logs(c)[k]))
  }

  ghost predicate Mirrors(c: Cluster, net: Gossip.Net<set<Entry>>) {
    && |c.copies| == |net.nodes| && |c.sent| == |net.sent|
    && (forall i :: 0 <= i < |c.copies| ==> Elements(c.copies[i].entries) == net.nodes[i].state)
    && (forall k :: 0 <= k < |c.sent| ==> Elements(c.sent[k]) == net.sent[k].state)
  }

  ghost function Network(p: Policy, c: Cluster, more: seq<Op>): Gossip.Net<set<Entry>> {
    Gossip.Run((a, b) => Joined(p.maxEntries, a, b), Gossip.Start(Sources(c), |c.copies|), Steps(more))
  }

  lemma NetworkStep(p: Policy, c: Cluster, more: seq<Op>)
    requires more != []
    ensures Network(p, c, more) ==
            Gossip.Next((a, b) => Joined(p.maxEntries, a, b), Network(p, c, more[..|more| - 1]),
                        StepOf(more[|more| - 1]))
  {
    assert Steps(more)[..|more| - 1] == Steps(more[..|more| - 1]);
  }

  lemma MirrorStep(p: Policy, ids: seq<string>, c: Cluster, reg: Registry, net: Gossip.Net<set<Entry>>, op: Op)
    requires Tracked(p.maxEntries, ids, c, reg) && Mirrors(c, net) && Exchange(p, c, op)
    ensures Mirrors(Do(p, ids, c, op), Gossip.Next((a, b) => Joined(p.maxEntries, a, b), net, StepOf(op)))
  {
    if op.Deliver? {
      MergeKeepsIff(p, op.now, reg, c.copies[op.node].entries, c.sent[op.message]);
    }
  }

  lemma MirrorAfter(p: Policy, ids: seq<string>, ops: seq<Op>, net: Gossip.Net<set<Entry>>, op: Op)
    requires Distinct(ids) && Mirrors(After(p, ids, ops), net) && Exchange(p, After(p, ids, ops), op)
    ensures Mirrors(Do(p, ids, After(p, ids, ops), op),
                    Gossip.Next((a, b) => Joined(p.maxEntries, a, b), net, StepOf(op)))
  {
    AlwaysTracked(p, ids, ops);
    MirrorStep(p, ids, After(p, ids, ops), Written(p, ids, ops), net, op);
  }

  lemma AfterMore(p: Policy, ids: seq<string>, ops: seq<Op>, more: seq<Op>)
    requires more != []
    ensures After(p, ids, ops + more) == Do(p, ids, After(p, ids, ops + more[..|more| - 1]), more[|more| - 1])
  {
    FrontOfBoth(ops, more);
  }

  lemma {:induction false} ExchangesMirror(p: Policy, ids: seq<string>, ops: seq<Op>, more: seq<Op>)
    requires Distinct(ids) && Exchanging(p, ids, ops, more)
    ensures Mirrors(After(p, ids, ops + more), Network(p, After(p, ids, ops), more))
    decreases |more|
  {
    if more == [] {
      assert ops + more == ops;
      MirrorStart(p, After(p, ids, ops));
    } else {
      ExchangesMirror(p, ids, ops, more[..|more| - 1]);
      MirrorMore(p, ids, ops, more);
    }
  }

  lemma MirrorStart(p: Policy, c: Cluster)
    ensures Mirrors(c, Network(p, c, []))
  {
    var net := Gossip.Start(Sources(c), |c.copies|);
    assert Steps([]) == [] && Network(p, c, []) == net;
    forall i | 0 <= i < |c.copies| ensures Elements(c.copies[i].entries) == net.nodes[i].state {
      assert net.nodes[i].state == Sources(c)[i];
    }
    forall k | 0 <= k < |c.sent| ensures Elements(c.sent[k]) == net.sent[k].state {
      assert net.sent[k].state == Sources(c)[|c.copies| + k];
    }
  }

  lemma MirrorMore(p: Policy, ids: seq<string>, ops: seq<Op>, more: seq<Op>)
    requires Distinct(ids) && more != []
    requires Mirrors(After(p, ids, ops + more[..|more| - 1]), Network(p, After(p, ids, ops), more[..|more| - 1]))
    requires Exchange(p, After(p, ids, ops + more[..|more| - 1]), more[|more| - 1])
    ensures Mirrors(After(p, ids, ops + more), Network(p, After(p, ids, ops), more))
  {
    AfterMore(p, ids, ops, more);
    NetworkStep(p, After(p, ids, ops), more);
    MirrorAfter(p, ids, ops + more[..|more| - 1], Network(p, After(p, ids, ops), more[..|more| - 1]), more[|more| - 1]);
  }

  lemma SourceBounded(p: Policy, ids: seq<string>, ops: seq<Op>, k: nat)
    requires Distinct(ids) && k < |Sources(After(p, ids, ops))|
    ensures Bounded(p.maxEntries, Written(p, ids, ops), Sources(After(p, ids, ops))[k])
  {
    LogsGood(p, ids, ops, k);
    IdsCard(Logs(After(p, ids, ops))[k]);
  }

  /** After any run let appending stop and let the merges be roomy. What each node keeps is then the join, here the
      n last entries of the union, of the logs of exactly the sources it has heard from since. */
  lemma StreamsHoldTheJoin(p: Policy, ids: seq<string>, ops: seq<Op>, more: seq<Op>, i: nat)
    requires Distinct(ids) && i < |ids| && Exchanging(p, ids, ops, more)
    ensures var reg, net := Written(p, ids, ops), Network(p, After(p, ids, ops), more);
            |net.nodes| == |ids| &&
            Gossip.IsJoinOf(s => Bounded(p.maxEntries, reg, s), (a, b) => Joined(p.maxEntries, a, b),
                            Elements(After(p, ids, ops + more).copies[i].entries), Sources(After(p, ids, ops)),
                            net.nodes[i].from)
  {
    var c, reg := After(p, ids, ops), Written(p, ids, ops);
    JoinLawful(p.maxEntries, reg);
    forall k | 0 <= k < |Sources(c)| ensures Bounded(p.maxEntries, reg, Sources(c)[k]) {
      SourceBounded(p, ids, ops, k);
    }
    ExchangesMirror(p, ids, ops, more);
    Gossip.GossipExact(s => Bounded(p.maxEntries, reg, s), (a, b) => Joined(p.maxEntries, a, b), Sources(c), |ids|,
                       Steps(more));
  }

  /** Convergence: after any run, let appending stop and let nothing age or outgrow the size. Two nodes that
      heard from the same sources since, in any two schedules, hold the same entries; and where both logs
      are in order, as every log is that has taken something over, the same log. */
  lemma StreamsConverge(p: Policy, ids: seq<string>, ops: seq<Op>, moreA: seq<Op>, moreB: seq<Op>, i: nat, j: nat)
    requires Distinct(ids) && i < |ids| && j < |ids|
    requires Exchanging(p, ids, ops, moreA) && Exchanging(p, ids, ops, moreB)
    ensures var a, b := Network(p, After(p, ids, ops), moreA), Network(p, After(p, ids, ops), moreB);
            var s, t := After(p, ids, ops + moreA).copies[i].entries, After(p, ids, ops + moreB).copies[j].entries;
            && |a.nodes| == |b.nodes| == |ids|
            && (a.nodes[i].from == b.nodes[j].from ==>
                  Elements(s) == Elements(t) && (Ordered(s) && Ordered(t) ==> s == t))
  {
    var c, reg := After(p, ids, ops), Written(p, ids, ops);
    JoinLawful(p.maxEntries, reg);
    forall k | 0 <= k < |Sources(c)| ensures Bounded(p.maxEntries, reg, Sources(c)[k]) {
      SourceBounded(p, ids, ops, k);
    }
    ExchangesMirror(p, ids, ops, moreA);
    ExchangesMirror(p, ids, ops, moreB);
    Gossip.GossipConverges(s => Bounded(p.maxEntries, reg, s), (a, b) => Joined(p.maxEntries, a, b), Sources(c), |ids|,
                           Steps(moreA), Steps(moreB), i, j);
    var s, t := After(p, ids, ops + moreA).copies[i].entries, After(p, ids, ops + moreB).copies[j].entries;
    if Ordered(s) && Ordered(t) && Elements(s) == Elements(t) { OrderedUnique(s, t); }
  }

  // ----- reading after a merge -----

  lemma MergedNew(p: Policy, now: int, reg: Registry, mine: seq<Entry>, peer: seq<Entry>)
    requires GoodLog(p.maxEntries, reg, mine) && GoodLog(p.maxEntries, reg, peer) && !(Elements(peer) <= Elements(mine))
    ensures var r := MergedLog(p, now, mine, peer); Ordered(r) && GoodLog(p.maxEntries, reg, r)
  {
    MergeKeepsIff(p, now, reg, mine, peer);
    MergedGood(p, now, mine, peer);
  }

  lemma FoundIs(reg: Registry, r: seq<Entry>, o: Entry)
    requires Genuine(reg, Elements(r)) && Genuine(reg, {o})
    ensures o in r <==> Find(r, o.id).Some?
    ensures o in r ==> r[Find(r, o.id).value] == o
  {
    if Find(r, o.id).Some? { assert r[Find(r, o.id).value] in Elements(r) && o in {o}; }
  }

  lemma AfterInOrder(r: seq<Entry>, k: nat, e: Entry)
    requires Ordered(r) && k < |r| && e in r
    ensures e in r[k + 1..] <==> Before(r[k], e)
  {
    var j :| 0 <= j < |r| && r[j] == e;
    BeforeTotal(r[k], e);
    if j > k { assert r[k + 1..][j - k - 1] == e; }
    if e in r[k + 1..] {
      var i :| 0 <= i < |r[k + 1..]| && r[k + 1..][i] == e;
      assert r[k + 1 + i] == e;
    }
  }

  /** What a consumer whose offset is at entry o is given after a merge that brought something new: an entry of the
      merged log is missed exactly when it has been put before o, which is still there. */
  lemma MergedEntryMissedIff(p: Policy, now: int, reg: Registry, mine: seq<Entry>, peer: seq<Entry>, o: Entry, e: Entry)
    requires GoodLog(p.maxEntries, reg, mine) && GoodLog(p.maxEntries, reg, peer) && !(Elements(peer) <= Elements(mine))
    requires Genuine(reg, {o}) && e in MergedLog(p, now, mine, peer)
    ensures var r := MergedLog(p, now, mine, peer);
            e !in RangeOf(r, o.id, "-", |r|) <==> o in r && !Before(o, e)
  {
    var r := MergedLog(p, now, mine, peer);
    MergedNew(p, now, reg, mine, peer);
    FoundIs(reg, r, o);
    RangeAll(r, o.id);
    assert o in {o};
    EntryIdIsNoMark(o.timestamp, o.sequence, o.node);
    if o in r { AfterInOrder(r, Find(r, o.id).value, e); }
  }

  // ----- the byte limit is the exception -----

  lemma MergeOne(p: Policy, now: int, mine: seq<Entry>, e: Entry)
    requires Find(mine, e.id).None?
    ensures MergedLog(p, now, mine, [e]) == Retained(p, now, SortEntries(mine + [e]))
  {
    assert Unite(mine, []) == mine;
    assert [e][..0] == [];
  }

  lemma RetainedInOrder(p: Policy, now: int, s: seq<Entry>, sorted: seq<Entry>)
    requires |s| <= p.maxEntries && Ordered(sorted) && Elements(sorted) == Elements(s)
    requires forall i, j :: 0 <= i < j < |s| ==> Before(s[i], s[j]) || Before(s[j], s[i])
    requires (forall e :: e in s ==> Fresh(p, now, e)) && |sorted| == |s|
    ensures Retained(p, now, SortEntries(s)) == Light(sorted, p.maxSize)
  {
    SortOrdered(s);
    SortElements(s);
    OrderedUnique(SortEntries(s), sorted);
    forall e | e in sorted ensures Fresh(p, now, e) { assert e in Elements(sorted); }
    YoungAll(sorted, now, p.maxAge);
  }

  lemma LightOf(s: seq<Entry>, maxSize: int)
    requires s != []
    ensures Size(s) == EntrySize(s[0]) + Size(s[1..])
    ensures Light(s, maxSize) == if Size(s) <= maxSize then s else Light(s[1..], maxSize)
  {
  }

  lemma SizeOfPair(x: Entry, y: Entry)
    ensures Size([x, y]) == EntrySize(x) + EntrySize(y) && Size([y]) == EntrySize(y)
  {
    assert [x, y][1..] == [y] && [y][1..] == [];
    assert Size([y]) == EntrySize(y) + Size([]);
  }

  /** Three fresh entries in order, each under its own identifier. */
  ghost predicate InOrder(p: Policy, now: int, a: Entry, e: Entry, f: Entry) {
    && Before(a, e) && Before(e, f) && a.id != e.id && e.id != f.id && a.id != f.id
    && Fresh(p, now, a) && Fresh(p, now, e) && Fresh(p, now, f) && 3 <= p.maxEntries
  }

  /** What the byte limit leaves of two entries, and of three. */
  ghost function OfTwo(x: Entry, y: Entry, maxSize: int): seq<Entry> {
    if EntrySize(x) + EntrySize(y) <= maxSize then [x, y] else if EntrySize(y) <= maxSize then [y] else []
  }

  ghost function OfThree(a: Entry, e: Entry, f: Entry, maxSize: int): seq<Entry> {
    if EntrySize(a) + EntrySize(e) + EntrySize(f) <= maxSize then [a, e, f] else OfTwo(e, f, maxSize)
  }

  lemma LightOne(x: Entry, maxSize: int)
    ensures Light([x], maxSize) == if EntrySize(x) <= maxSize then [x] else []
  {
    assert [x][1..] == [] && Size([x]) == EntrySize(x) + Size([]);
  }

  lemma LightTwo(x: Entry, y: Entry, maxSize: int)
    ensures Light([x, y], maxSize) == OfTwo(x, y, maxSize)
  {
    SizeOfPair(x, y);
    assert [x, y][1..] == [y];
    LightOf([x, y], maxSize);
    LightOne(y, maxSize);
  }

  lemma LightThree(a: Entry, e: Entry, f: Entry, maxSize: int)
    ensures Light([a, e, f], maxSize) == OfThree(a, e, f, maxSize)
  {
    assert [a, e, f][1..] == [e, f];
    LightOf([a, e, f], maxSize);
    SizeOfPair(e, f);
    LightTwo(e, f, maxSize);
  }

  lemma MergeEmpty(p: Policy, now: int, x: Entry)
    requires Fresh(p, now, x) && 1 <= p.maxEntries
    ensures MergedLog(p, now, [], [x]) == if EntrySize(x) <= p.maxSize then [x] else []
  {
    MergeOne(p, now, [], x);
    assert [] + [x] == [x];
    RetainedInOrder(p, now, [x], [x]);
    LightOne(x, p.maxSize);
  }

  lemma MergePair(p: Policy, now: int, x: Entry, y: Entry, first: Entry, second: Entry)
    requires ((x == first && y == second) || (x == second && y == first)) && x.id != y.id
    requires Before(first, second) && Fresh(p, now, x) && Fresh(p, now, y) && 2 <= p.maxEntries
    ensures MergedLog(p, now, [x], [y]) == OfTwo(first, second, p.maxSize)
  {
    MergeOne(p, now, [x], y);
    assert [x] + [y] == [x, y];
    EitherOrder(p, now, x, y, first, second);
    RetainedInOrder(p, now, [x, y], [first, second]);
    LightTwo(first, second, p.maxSize);
  }

  lemma EitherOrder(p: Policy, now: int, x: Entry, y: Entry, first: Entry, second: Entry)
    requires ((x == first && y == second) || (x == second && y == first)) && Before(first, second)
    requires Fresh(p, now, x) && Fresh(p, now, y)
    ensures Ordered([first, second]) && Elements([first, second]) == Elements([x, y])
    ensures forall i, j :: 0 <= i < j < |[x, y]| ==> Before([x, y][i], [x, y][j]) || Before([x, y][j], [x, y][i])
    ensures forall z :: z in [x, y] ==> Fresh(p, now, z)
  {
    var s, sorted := [x, y], [first, second];
    assert s[0] == x && s[1] == y && sorted[0] == first && sorted[1] == second;
    forall z ensures z in s <==> z in sorted {
    }
  }

  lemma AnyOrder(p: Policy, now: int, a: Entry, e: Entry, f: Entry, s: seq<Entry>)
    requires InOrder(p, now, a, e, f) && (s == [a, f, e] || s == [e, f, a])
    ensures Ordered([a, e, f]) && Elements([a, e, f]) == Elements(s)
    ensures forall i, j :: 0 <= i < j < |s| ==> Before(s[i], s[j]) || Before(s[j], s[i])
    ensures forall z :: z in s ==> Fresh(p, now, z)
  {
    BeforeTransitive(a, e, f);
    var sorted := [a, e, f];
    assert s[1] == f && sorted[0] == a && sorted[1] == e && sorted[2] == f;
    assert (s[0] == a && s[2] == e) || (s[0] == e && s[2] == a);
    forall z ensures z in s <==> z in sorted {
    }
  }

  lemma MergeThird(p: Policy, now: int, a: Entry, e: Entry, f: Entry, x: Entry, y: Entry, last: Entry)
    requires InOrder(p, now, a, e, f)
    requires (x == a && y == f && last == e) || (x == e && y == f && last == a)
    ensures MergedLog(p, now, [x, y], [last]) == OfThree(a, e, f, p.maxSize)
  {
    MergeOne(p, now, [x, y], last);
    assert [x, y] + [last] == [x, y, last];
    AnyOrder(p, now, a, e, f, [x, y, last]);
    RetainedInOrder(p, now, [x, y, last], [a, e, f]);
    LightThree(a, e, f, p.maxSize);
  }

  /** The first and the last entry, then the one between them. */
  ghost function OneResult(a: Entry, e: Entry, f: Entry, maxSize: int): seq<Entry> {
    if EntrySize(a) + EntrySize(f) <= maxSize then OfThree(a, e, f, maxSize)
    else if EntrySize(f) <= maxSize then OfTwo(e, f, maxSize)
    else if EntrySize(e) <= maxSize then [e] else []
  }

  /** The two later ones, then the first. */
  ghost function OtherResult(a: Entry, e: Entry, f: Entry, maxSize: int): seq<Entry> {
    if EntrySize(e) + EntrySize(f) <= maxSize then OfThree(a, e, f, maxSize)
    else if EntrySize(f) <= maxSize then OfTwo(a, f, maxSize)
    else if EntrySize(a) <= maxSize then [a] else []
  }

  lemma OneOrder(p: Policy, now: int, a: Entry, e: Entry, f: Entry)
    requires InOrder(p, now, a, e, f)
    ensures MergedLog(p, now, MergedLog(p, now, [a], [f]), [e]) ==
            OneResult(a, e, f, p.maxSize)
  {
    BeforeTransitive(a, e, f);
    MergePair(p, now, a, f, a, f);
    var two := MergedLog(p, now, [a], [f]);
    assert two == OfTwo(a, f, p.maxSize);
    if EntrySize(a) + EntrySize(f) <= p.maxSize {
      assert two == [a, f];
      MergeThird(p, now, a, e, f, a, f, e);
    } else if EntrySize(f) <= p.maxSize {
      assert two == [f];
      MergePair(p, now, f, e, e, f);
    } else {
      assert two == [];
      MergeEmpty(p, now, e);
    }
  }

  lemma OtherOrder(p: Policy, now: int, a: Entry, e: Entry, f: Entry)
    requires InOrder(p, now, a, e, f)
    ensures MergedLog(p, now, MergedLog(p, now, [e], [f]), [a]) ==
            OtherResult(a, e, f, p.maxSize)
  {
    BeforeTransitive(a, e, f);
    MergePair(p, now, e, f, e, f);
    var two := MergedLog(p, now, [e], [f]);
    assert two == OfTwo(e, f, p.maxSize);
    if EntrySize(e) + EntrySize(f) <= p.maxSize {
      assert two == [e, f];
      MergeThird(p, now, a, e, f, e, f, a);
    } else if EntrySize(f) <= p.maxSize {
      assert two == [f];
      MergePair(p, now, f, a, a, f);
    } else {
      assert two == [];
      MergeEmpty(p, now, a);
    }
  }

  /** Three one-entry logs merged in two orders give the same log exactly when either the last entry fits and it is
      not so that it fits with the first but not with the second, or none of the three fits alone. */
  lemma OrderIsIrrelevantIff(p: Policy, now: int, a: Entry, e: Entry, f: Entry)
    requires InOrder(p, now, a, e, f)
    ensures MergedLog(p, now, MergedLog(p, now, [a], [f]), [e]) == MergedLog(p, now, MergedLog(p, now, [e], [f]), [a])
            <==> if EntrySize(f) <= p.maxSize
                 then !(EntrySize(a) + EntrySize(f) <= p.maxSize < EntrySize(e) + EntrySize(f))
                 else EntrySize(a) > p.maxSize && EntrySize(e) > p.maxSize
  {
    OneOrder(p, now, a, e, f);
    OtherOrder(p, now, a, e, f);
    SameResultIff(a, e, f, p.maxSize);
  }

  lemma SameResultIff(a: Entry, e: Entry, f: Entry, maxSize: int)
    requires a.id != e.id && a.id != f.id && e.id != f.id
    ensures OneResult(a, e, f, maxSize) == OtherResult(a, e, f, maxSize)
            <==> if EntrySize(f) <= maxSize
                 then !(EntrySize(a) + EntrySize(f) <= maxSize < EntrySize(e) + EntrySize(f))
                 else EntrySize(a) > maxSize && EntrySize(e) > maxSize
  {
    SequencesDiffer(a, e, f);
  }

  lemma SequencesDiffer(a: Entry, e: Entry, f: Entry)
    requires a.id != e.id && a.id != f.id && e.id != f.id
    ensures [a] != [e] && [a, f] != [f] && [a, f] != [e, f] && [f] != [a] && [f] != [e]
    ensures [a] != [] && [e] != [] && [a, f][0] == a && [e, f][0] == e && [f][0] == f
  {
    assert [a][0] == a && [e][0] == e && |[a, f]| == 2 && |[f]| == 1;
  }
}
