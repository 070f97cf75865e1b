/** One node of the mesh as values: the live state, the write-ahead log and the latest snapshot, and each
    operation's effect on them. Times are in nanoseconds, and every reading of a clock is a parameter. */
module MeshNode {
  import opened Wrappers
  import opened Order
  import opened Crdt

  const MILLI := 1_000_000

  type Key = (string, string)  // namespace and key

  datatype CacheEntry = CacheEntry(value: string, expiresAt: Option<int>, timestamp: int, node: string)

  datatype Live = Live(limiters: map<string, Counts>, seen: set<string>, cache: map<Key, CacheEntry>)

  /** A log entry; a Put's entry carries the logged version as its timestamp. */
  datatype Log =
    | Consume(at: int, key: string)
    | Seen(at: int, key: string)
    | Put(at: int, name: Key, entry: CacheEntry)

  datatype Snapshot = Snapshot(at: int, state: Live)

  datatype Disk = Disk(wal: seq<Log>, snapshot: Option<Snapshot>)

  /** What is only said about a run: the nonces first seen here, and the keys whose live entry is a plain
      Set that has not been through the disk. */
  datatype History = History(recorded: set<string>, plain: set<Key>)

  /** `rotating` holds between writing a snapshot and rotating the log. */
  datatype Node = Node(live: Live, disk: Disk, clock: int, rotating: bool, history: History)

  const NOTHING := Live(map[], {}, map[])
  const NEW_NODE := Node(NOTHING, Disk([], None), MILLI, false, History({}, {}))

  function CountsOf(limiters: map<string, Counts>, key: string): Counts {
    if key in limiters then limiters[key] else map[]
  }

  /** What one node is counted for on one rate-limit key. */
  function SlotOf(s: Live, key: string, node: string): nat {
    Slot(CountsOf(s.limiters, key), node)
  }

  // ----- milliseconds -----

  /** An expiry as it survives the wire and the disk: whole milliseconds, and none if that is not positive. */
  function Coarse(t: Option<int>): Option<int> {
    match t
    case None => None
    case Some(ns) => if ns / MILLI > 0 then Some(ns / MILLI * MILLI) else None
  }

  function CoarseEntry(e: CacheEntry): CacheEntry {
    e.(expiresAt := Coarse(e.expiresAt))
  }

  /** The state as gossip and snapshots carry it. */
  function OnWire(s: Live): (w: Live)
    ensures w.limiters == s.limiters && w.seen == s.seen && w.cache.Keys == s.cache.Keys
  {
    s.(cache := map k | k in s.cache :: CoarseEntry(s.cache[k]))
  }

  predicate Expired(e: CacheEntry, now: int) {
    e.expiresAt.Some? && now > e.expiresAt.value
  }

  // ----- local operations -----

  function Logged(n: Node, live: Live, entry: Log): Node {
    n.(live := live, disk := n.disk.(wal := n.disk.wal + [entry]), clock := entry.at)
  }

  function Charged(s: Live, self: string, key: string): Live {
    s.(limiters := s.limiters[key := Incremented(CountsOf(s.limiters, key), self)])
  }

  /** Consume admits while the node's own view of the total is below the limit. */
  ghost predicate Admits(s: Live, key: string, limit: int) {
    Total(CountsOf(s.limiters, key)) < limit
  }

  ghost function DoConsume(n: Node, self: string, key: string, limit: int, at: int): Node {
    if Admits(n.live, key, limit) then Logged(n, Charged(n.live, self, key), Consume(at, key))
    else n.(live := n.live.(limiters := n.live.limiters[key := CountsOf(n.live.limiters, key)]))
  }

  function DoSee(n: Node, nonce: string, at: int): Node {
    if nonce in n.live.seen then n
    else Logged(n, n.live.(seen := n.live.seen + {nonce}), Seen(at, nonce))
           .(history := n.history.(recorded := n.history.recorded + {nonce}))
  }

  /** A logged version of 0 is replaced by the time of logging. */
  function Version(version: int, at: int): int {
    if version == 0 then at else version
  }

  /** Set: the live entry is stamped t; the log call, with no version of its own, is stamped w. */
  function DoSet(n: Node, self: string, name: Key, value: string, ttl: int, t: int, e: int, w: int): Node {
    var expiresAt := if ttl > 0 then Some(e + ttl) else None;
    Logged(n, n.live.(cache := n.live.cache[name := CacheEntry(value, expiresAt, t, self)]),
           Put(w, name, CacheEntry(value, Coarse(expiresAt), Version(0, w), self)))
      .(history := n.history.(plain := n.history.plain + {name}))
  }

  /** One write of a committed transaction: no expiry, and the log carries the live version. */
  function DoCommit(n: Node, self: string, name: Key, value: string, t: int, w: int): Node {
    Logged(n, n.live.(cache := n.live.cache[name := CacheEntry(value, None, t, self)]),
           Put(w, name, CacheEntry(value, None, Version(t, w), self)))
      .(history := n.history.(plain := n.history.plain - {name}))
  }

  function DoCleanup(n: Node, now: int): Node {
    n.(live := n.live.(cache := map k | k in n.live.cache
          && !Expired(n.live.cache[k], now) :: n.live.cache[k]), clock := now)
  }

  // ----- merging a peer's state -----

  predicate Newer(cache: map<Key, CacheEntry>, name: Key, e: CacheEntry) {
    name !in cache || VersionLess(cache[name].timestamp, cache[name].node, e.timestamp, e.node)
  }

  function MergedLimiters(mine: map<string, Counts>, peer: map<string, Counts>): (r: map<string, Counts>)
    ensures forall k :: CountsOf(r, k) == MergedCounts(CountsOf(mine, k), CountsOf(peer, k))
  {
    map k | k in mine.Keys + peer.Keys
          && (k in mine || peer[k] != map[]) :: MergedCounts(CountsOf(mine, k), CountsOf(peer, k))
  }

  function MergedSets(s: Live, peer: Live): Live {
    s.(limiters := MergedLimiters(s.limiters, peer.limiters), seen := s.seen + peer.seen)
  }

  /** One cache entry of a merge: adopted when strictly newer, and then logged under its own version. */
  function Adopt(n: Node, name: Key, e: CacheEntry, w: int): Node {
    if !Newer(n.live.cache, name, e) then n
    else Logged(n, n.live.(cache := n.live.cache[name := CoarseEntry(e)]),
                Put(w, name, CoarseEntry(e).(timestamp := Version(e.timestamp, w))))
           .(history := n.history.(plain := n.history.plain - {name}))
  }

  /** The cache part of a merge, over some of the peer's keys in some order with a log time for each. */
  function AdoptAll(n: Node, peer: Live, order: seq<(Key, int)>): Node
    decreases |order|
  {
    if order == [] then n
    else
      var before := AdoptAll(n, peer, order[..|order| - 1]);
      var (name, w) := order[|order| - 1];
      if name in peer.cache then Adopt(before, name, peer.cache[name], w) else before
  }

  function DoMerge(n: Node, peer: Live, order: seq<(Key, int)>): Node {
    AdoptAll(n.(live := MergedSets(n.live, peer)), peer, order)
  }

  /** A merge of cache entries leaves the rest of the node alone. */
  lemma {:induction false} AdoptAllKeeps(n: Node, peer: Live, order: seq<(Key, int)>)
    ensures var m := AdoptAll(n, peer, order);
            m.live.limiters == n.live.limiters && m.live.seen == n.live.seen && m.disk.snapshot == n.disk.snapshot
    decreases |order|
  {
    if order != [] { AdoptAllKeeps(n, peer, order[..|order| - 1]); }
  }

  ghost predicate InOrder(order: seq<(Key, int)>, name: Key) {
    exists i :: 0 <= i < |order| && order[i].0 == name
  }

  /** The order of a merge names every entry of the peer's that is newer than the local one. */
  ghost predicate Covers(cache: map<Key, CacheEntry>, peer: map<Key, CacheEntry>, order: seq<(Key, int)>) {
    forall name :: name in peer && Newer(cache, name, peer[name]) ==> InOrder(order, name)
  }

  // ----- snapshot, log rotation and recovery -----

  /** The snapshot of a copy of the live state, stamped `at`. */
  function DoSnapshot(n: Node, copy: Live, at: int): Node {
    n.(disk := n.disk.(snapshot := Some(Snapshot(at, OnWire(copy)))), clock := at, rotating := true)
  }

  function DoRotate(n: Node): Node {
    n.(disk := n.disk.(wal := []), rotating := false)
  }

  function Apply(s: Live, self: string, entry: Log): Live {
    match entry
    case Consume(_, key) => Charged(s, self, key)
    case Seen(_, key) => s.(seen := s.seen + {key})
    case Put(_, name, e) => s.(cache := s.cache[name := e])
  }

  /** The log from the snapshot's time on, in order, over the snapshot. */
  function Replay(s: Live, self: string, wal: seq<Log>, after: int): Live
    decreases |wal|
  {
    if wal == [] then s
    else
      var before := Replay(s, self, wal[..|wal| - 1], after);
      var last := wal[|wal| - 1];
      if last.at > after then Apply(before, self, last) else before
  }

  function Base(disk: Disk): Snapshot {
    match disk.snapshot
    case None => Snapshot(0, NOTHING)
    case Some(s) => s
  }

  function Recovered(self: string, disk: Disk): Live {
    Replay(Base(disk).state, self, disk.wal, Base(disk).at)
  }

  /** A crash keeps the disk, and the next start recovers from it. */
  function DoCrash(n: Node, self: string): Node {
    n.(live := Recovered(self, n.disk), rotating := false, history := n.history.(plain := {}))
  }

  // ----- laws of replay -----

  lemma ReplayAppend(s: Live, self: string, wal: seq<Log>, entry: Log, after: int)
    ensures Replay(s, self, wal + [entry], after) ==
            if entry.at > after then Apply(Replay(s, self, wal, after), self, entry) else Replay(s, self, wal, after)
  {
    assert (wal + [entry])[..|wal|] == wal;
  }

  lemma {:induction false} ReplayNone(s: Live, self: string, wal: seq<Log>, after: int)
    requires forall i :: 0 <= i < |wal| ==> wal[i].at <= after
    ensures Replay(s, self, wal, after) == s
    decreases |wal|
  {
    if wal != [] { ReplayNone(s, self, wal[..|wal| - 1], after); }
  }

  // ----- what the operations mean to a caller -----

  /** A request is counted exactly when the total was below the limit: once, for this node and this key only, and with
      one log entry; nothing else changes. */
  lemma ConsumeMeaning(n: Node, self: string, key: string, limit: int, at: int)
    ensures var ok, r := Total(CountsOf(n.live.limiters, key)) < limit, DoConsume(n, self, key, limit, at);
            && r.live.seen == n.live.seen && r.live.cache == n.live.cache && r.disk.snapshot == n.disk.snapshot
            && r.disk.wal == n.disk.wal + (if ok then [Consume(at, key)] else [])
            && forall k, m :: SlotOf(r.live, k, m) ==
                 SlotOf(n.live, k, m) + (if ok && k == key && m == self then 1 else 0)
  {
    var r := DoConsume(n, self, key, limit, at);
    forall k, m ensures SlotOf(r.live, k, m) == SlotOf(n.live, k, m)
        + (if Total(CountsOf(n.live.limiters, key)) < limit && k == key && m == self then 1 else 0)
    {
      assert k != key ==> CountsOf(r.live.limiters, k) == CountsOf(n.live.limiters, k);
    }
  }

  /** A value that was set is there until its ttl is over, and for good without one; no other name changes. */
  lemma SetMeaning(n: Node, self: string, name: Key, value: string, ttl: int, t: int, e: int, w: int, now: int)
    ensures var c, r := n.live.cache, DoSet(n, self, name, value, ttl, t, e, w).live;
            && name in r.cache && r.cache - {name} == c - {name}
            && r.cache[name].value == value && r.cache[name].timestamp == t && r.cache[name].node == self
            && (Expired(r.cache[name], now) <==> 0 < ttl && e + ttl < now)
            && r.seen == n.live.seen && r.limiters == n.live.limiters
  {
  }

  /** What a Set logs: the expiry in whole milliseconds, and the time of logging as version. */
  lemma SetLogs(n: Node, self: string, name: Key, value: string, ttl: int, t: int, e: int, w: int)
    requires 0 < ttl ==> 1_000_000 <= e + ttl
    ensures var wal, r := n.disk.wal, DoSet(n, self, name, value, ttl, t, e, w).disk.wal;
            && |r| == |wal| + 1 && wal <= r && r[|wal|].Put? && r[|wal|].at == w && r[|wal|].name == name
            && var logged := r[|wal|].entry;
            && logged.value == value && logged.node == self && logged.timestamp == w
            && (logged.expiresAt.None? <==> ttl <= 0)
            && (0 < ttl ==>
                  && logged.expiresAt.value % 1_000_000 == 0
                  && 0 <= e + ttl - logged.expiresAt.value < 1_000_000)
  {
  }

  lemma CommitMeaning(n: Node, self: string, name: Key, value: string, t: int, w: int)
    requires t != 0
    ensures var c, wal, r := n.live.cache, n.disk.wal, DoCommit(n, self, name, value, t, w);
            && name in r.live.cache && r.live.cache - {name} == c - {name}
            && r.live.cache[name] == CacheEntry(value, None, t, self)
            && r.live.seen == n.live.seen && r.live.limiters == n.live.limiters
            && r.disk.wal == wal + [Put(w, name, CacheEntry(value, None, t, self))]
  {
  }

  /** A cleanup leaves exactly the entries without an expiry or with one that is not over, as they are. */
  lemma CleanupMeaning(n: Node, now: int, name: Key)
    ensures var c, r := n.live.cache, DoCleanup(n, now).live.cache;
            && (name in r <==> name in c && (c[name].expiresAt.Some? ==> now <= c[name].expiresAt.value))
            && (name in r ==> r[name] == c[name])
  {
  }

  /** One log entry that is replayed: an admission of this node's on the key, a nonce, or a cache entry with the
      version it was logged under. */
  lemma ApplyMeaning(s: Live, self: string, entry: Log)
    ensures var r := Apply(s, self, entry);
            && r.seen == s.seen + (if entry.Seen? then {entry.key} else {})
            && (entry.Put? ==> r.cache == s.cache[entry.name := entry.entry]) && (!entry.Put? ==> r.cache == s.cache)
            && forall k, m :: SlotOf(r, k, m) ==
                 SlotOf(s, k, m) + (if entry.Consume? && k == entry.key && m == self then 1 else 0)
  {
    var r := Apply(s, self, entry);
    forall k, m ensures SlotOf(r, k, m) ==
        SlotOf(s, k, m) + (if entry.Consume? && k == entry.key && m == self then 1 else 0)
    {
      assert entry.Consume? && k != entry.key ==> CountsOf(r.limiters, k) == CountsOf(s.limiters, k);
    }
  }

  /** What a peer or a snapshot is given: everything as it is, but an expiry in whole milliseconds, and none for one
      in the first millisecond. */
  lemma WireMeaning(s: Live, name: Key)
    ensures OnWire(s).limiters == s.limiters && OnWire(s).seen == s.seen
    ensures name in OnWire(s).cache <==> name in s.cache
    ensures name in s.cache ==>
              var e, w := s.cache[name], OnWire(s).cache[name];
              && w.value == e.value && w.timestamp == e.timestamp && w.node == e.node
              && (w.expiresAt.Some? <==> e.expiresAt.Some? && 1_000_000 <= e.expiresAt.value)
              && (w.expiresAt.Some? ==>
                    w.expiresAt.value % 1_000_000 == 0 && 0 <= e.expiresAt.value - w.expiresAt.value < 1_000_000)
  {
    if name in s.cache && s.cache[name].expiresAt.Some? { CoarseMeaning(s.cache[name].expiresAt.value); }
  }

  lemma AllWireMeaning(s: Live)
    ensures forall name :: name in s.cache ==>
              var e, w := s.cache[name], OnWire(s).cache[name];
              && w.value == e.value && w.timestamp == e.timestamp && w.node == e.node
              && (w.expiresAt.Some? <==> e.expiresAt.Some? && 1_000_000 <= e.expiresAt.value)
              && (w.expiresAt.Some? ==>
                    w.expiresAt.value % 1_000_000 == 0 && 0 <= e.expiresAt.value - w.expiresAt.value < 1_000_000)
  {
    forall name | name in s.cache
      ensures var e, w := s.cache[name], OnWire(s).cache[name];
              && w.value == e.value && w.timestamp == e.timestamp && w.node == e.node
              && (w.expiresAt.Some? <==> e.expiresAt.Some? && 1_000_000 <= e.expiresAt.value)
              && (w.expiresAt.Some? ==>
                    w.expiresAt.value % 1_000_000 == 0 && 0 <= e.expiresAt.value - w.expiresAt.value < 1_000_000)
    {
      WireMeaning(s, name);
    }
  }

  lemma CoarseMeaning(ns: int)
    ensures Coarse(Some(ns)).Some? <==> 1_000_000 <= ns
    ensures 1_000_000 <= ns ==>
              Coarse(Some(ns)).value % 1_000_000 == 0 && 0 <= ns - Coarse(Some(ns)).value < 1_000_000
  {
  }

  // ----- what a merge means to a caller -----

  /** A later timestamp, or the same one and no smaller node. */
  ghost predicate NotOlder(a: CacheEntry, b: CacheEntry) {
    b.timestamp < a.timestamp || (b.timestamp == a.timestamp && !LexLess(a.node, b.node))
  }

  lemma NotOlderTransitive(a: CacheEntry, b: CacheEntry, c: CacheEntry)
    ensures NotOlder(a, a) && (NotOlder(a, b) && NotOlder(b, c) ==> NotOlder(a, c))
    ensures NotOlder(a, b) || VersionLess(a.timestamp, a.node, b.timestamp, b.node)
    ensures VersionLess(a.timestamp, a.node, b.timestamp, b.node) ==> NotOlder(b, a)
  {
    LexTotal(a.node, a.node);
    LexTotal(a.node, b.node);
    LexTotal(b.node, c.node);
    if LexLess(a.node, c.node) && LexLess(c.node, b.node) { LexTransitive(a.node, c.node, b.node); }
  }

  /** The entry of a name as the merge goes on: it came from one side, and neither side's is newer. */
  ghost predicate Newest(before: map<Key, CacheEntry>, peer: map<Key, CacheEntry>, seen: bool, name: Key,
      after: map<Key, CacheEntry>)
  {
    && (name in before ==> name in after && NotOlder(after[name], before[name]))
    && (seen && name in peer ==> name in after && NotOlder(after[name], peer[name]))
    && (name in after ==>
          || (name in before && after[name] == before[name])
          || (name in peer && after[name] == CoarseEntry(peer[name])))
  }

  lemma AdoptNewest(before: map<Key, CacheEntry>, peer: map<Key, CacheEntry>, seen: bool, name: Key, n: Node,
      other: Key, w: int)
    requires Newest(before, peer, seen, name, n.live.cache) && other in peer
    ensures Newest(before, peer, seen || other == name, name, Adopt(n, other, peer[other], w).live.cache)
  {
    if other == name && name in n.live.cache {
      NotOlderTransitive(n.live.cache[name], peer[name], peer[name]);
      if name in before { NotOlderTransitive(peer[name], n.live.cache[name], before[name]); }
    }
    NotOlderTransitive(peer[other], peer[other], peer[other]);
  }

  lemma InOrderMore(front: seq<(Key, int)>, other: Key, w: int, name: Key)
    ensures InOrder(front + [(other, w)], name) <==> InOrder(front, name) || other == name
  {
    var order := front + [(other, w)];
    if InOrder(front, name) {
      var i :| 0 <= i < |front| && front[i].0 == name;
      assert order[i].0 == name;
    }
    assert order[|front|].0 == other;
  }

  lemma {:induction false} AdoptAllNewest(n: Node, peer: Live, order: seq<(Key, int)>, name: Key)
    ensures Newest(n.live.cache, peer.cache, InOrder(order, name), name, AdoptAll(n, peer, order).live.cache)
    decreases |order|
  {
    if order == [] {
      if name in n.live.cache { NotOlderTransitive(n.live.cache[name], n.live.cache[name], n.live.cache[name]); }
    } else {
      var front := order[..|order| - 1];
      var (other, w) := order[|order| - 1];
      AdoptAllNewest(n, peer, front, name);
      InOrderMore(front, other, w, name);
      FrontLast(order);
      NewestMore(n, peer, order, AdoptAll(n, peer, front), InOrder(front, name), name);
    }
  }

  lemma NewestMore(n: Node, peer: Live, order: seq<(Key, int)>, m: Node, seen: bool, name: Key)
    requires order != [] && m == AdoptAll(n, peer, order[..|order| - 1])
    requires Newest(n.live.cache, peer.cache, seen, name, m.live.cache)
    ensures Newest(n.live.cache, peer.cache, seen || order[|order| - 1].0 == name, name,
                   AdoptAll(n, peer, order).live.cache)
  {
    var (other, w) := order[|order| - 1];
    if other in peer.cache { AdoptNewest(n.live.cache, peer.cache, seen, name, m, other, w); }
  }

  /** A merge adds the peer's nonces, keeps for every key and node the larger count, and leaves under every name
      one side's entry, with an expiry in whole milliseconds if it is the peer's: neither side's has a later
      timestamp, nor at that timestamp a greater node. */
  lemma MergeMeaning(n: Node, peer: Live, order: seq<(Key, int)>, name: Key)
    requires Covers(n.live.cache, peer.cache, order)
    ensures var r := DoMerge(n, peer, order).live;
            && (name in n.live.cache ==> name in r.cache && NotOlder(r.cache[name], n.live.cache[name]))
            && (name in peer.cache ==> name in r.cache && NotOlder(r.cache[name], peer.cache[name]))
            && (name in r.cache ==>
                  || (name in n.live.cache && r.cache[name] == n.live.cache[name])
                  || (name in peer.cache && r.cache[name] == CoarseEntry(peer.cache[name])))
  {
    var m := n.(live := MergedSets(n.live, peer));
    AdoptAllNewest(m, peer, order, name);
    if name in peer.cache && !InOrder(order, name) {
      assert !Newer(n.live.cache, name, peer.cache[name]);
      var now := DoMerge(n, peer, order).live.cache[name];
      NotOlderTransitive(n.live.cache[name], peer.cache[name], peer.cache[name]);
      NotOlderTransitive(now, n.live.cache[name], peer.cache[name]);
    }
  }
}
