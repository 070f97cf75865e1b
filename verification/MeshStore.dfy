/** The store's methods over live maps of counters, a nonce set, a cache and the disk, each tied to the
    node step of the same name. */
module MeshStores {
  import opened Wrappers
  import opened Order
  import opened Crdt
  import opened MeshNode
  import opened Recovery
  import opened Persistence

  /** A clock whose readings rise strictly. */
  class Clock {
    var last: int

    method Now() returns (t: int)
      modifies this
      ensures old(last) < t == last
    {
      t :| t > last;
      last := t;
    }
  }

  /** The part of a map whose keys have been visited. */
  ghost function Without<K, V>(m: map<K, V>, rest: set<K>): map<K, V> {
    map k | k in m && k !in rest :: m[k]
  }

  ghost function CleanedCache(cache: map<Key, CacheEntry>, rest: set<Key>, now: int): map<Key, CacheEntry> {
    map k | k in cache && (k in rest || !Expired(cache[k], now)) :: cache[k]
  }

  ghost predicate SameOn(a: map<Key, CacheEntry>, b: map<Key, CacheEntry>, names: set<Key>) {
    forall name :: name in names ==> (name in a <==> name in b) && (name in a ==> a[name] == b[name])
  }

  lemma CoversMore(cache: map<Key, CacheEntry>, peer: map<Key, CacheEntry>, order: seq<(Key, int)>, rest: set<Key>,
      name: Key, w: int)
    requires Covers(cache, Without(peer, rest), order) && name in rest
    ensures Covers(cache, Without(peer, rest - {name}), order + [(name, w)])
  {
    var more := order + [(name, w)];
    assert more[|order|].0 == name;
    forall k | k in Without(peer, rest - {name}) && Newer(cache, k, peer[k]) ensures InOrder(more, k) {
      if k != name {
        assert k in Without(peer, rest) && InOrder(order, k);
        var i :| 0 <= i < |order| && order[i].0 == k;
        assert more[i].0 == k;
      }
    }
  }

  /** After one more entry, adopted or not. */
  lemma CoversOne(cache: map<Key, CacheEntry>, peer: map<Key, CacheEntry>, order: seq<(Key, int)>, rest: set<Key>,
      name: Key, w: int)
    requires Covers(cache, Without(peer, rest), order) && name in rest && name in peer
    ensures Covers(cache, Without(peer, rest - {name}), order + [(name, w)])
    ensures !Newer(cache, name, peer[name]) ==> Covers(cache, Without(peer, rest - {name}), order)
  {
    CoversMore(cache, peer, order, rest, name, w);
    WithoutOne(peer, rest, name);
  }

  lemma SameIsNewer(a: map<Key, CacheEntry>, b: map<Key, CacheEntry>, names: set<Key>, name: Key, e: CacheEntry)
    requires SameOn(a, b, names) && name in names
    ensures Newer(a, name, e) <==> Newer(b, name, e)
  {
  }

  lemma MergedEntry(n: Node, peer: Live, order: seq<(Key, int)>, name: Key, w: int, clock: int)
    requires name in peer.cache && Ticks(clock, order)
    ensures AdoptAll(n, peer, order + [(name, w)]) == Adopt(AdoptAll(n, peer, order), name, peer.cache[name], w)
    ensures LastTick(clock, order) < w ==> Ticks(clock, order + [(name, w)])
    ensures LastTick(clock, order + [(name, w)]) == w
  {
    assert (order + [(name, w)])[..|order|] == order;
  }

  lemma WithoutOne<K, V>(m: map<K, V>, rest: set<K>, k: K)
    requires k in rest && k in m
    ensures Without(m, rest - {k}) == Without(m, rest)[k := m[k]]
  {
  }

  lemma WithoutEnds<K, V>(m: map<K, V>)
    ensures Without(m, m.Keys) == map[] && Without(m, {}) == m
  {
  }

  /** The merge with one more key of the peer's. */
  ghost function OneMoreKey(now: map<string, Counts>, key: string, counts: Counts): map<string, Counts> {
    if counts == map[] then now else now[key := MergedCounts(CountsOf(now, key), counts)]
  }

  lemma OneMoreKeyAt(mine: map<string, Counts>, done: map<string, Counts>, key: string, counts: Counts, k: string)
    requires key !in done
    ensures var a, b := MergedLimiters(mine, done[key := counts]), OneMoreKey(MergedLimiters(mine, done), key, counts);
            (k in a <==> k in b) && (k in a ==> a[k] == b[k])
  {
    if k == key {
      assert MergedCounts(CountsOf(mine, key), map[]) == CountsOf(mine, key);
    } else {
      assert CountsOf(done[key := counts], k) == CountsOf(done, k);
    }
  }

  lemma MergedLimitersStep(mine: map<string, Counts>, done: map<string, Counts>, key: string, counts: Counts)
    requires key !in done
    ensures MergedLimiters(mine, done[key := counts]) == OneMoreKey(MergedLimiters(mine, done), key, counts)
  {
    var a, b := MergedLimiters(mine, done[key := counts]), OneMoreKey(MergedLimiters(mine, done), key, counts);
    assert forall k :: (k in a <==> k in b) && (k in a ==> a[k] == b[k]) by {
      forall k ensures (k in a <==> k in b) && (k in a ==> a[k] == b[k]) { OneMoreKeyAt(mine, done, key, counts, k); }
    }
    SameMaps(a, b);
  }

  lemma MergedWithNothing(mine: map<string, Counts>)
    ensures MergedLimiters(mine, map[]) == mine
  {
    forall k | k in mine ensures MergedCounts(CountsOf(mine, k), CountsOf(map[], k)) == mine[k] {
      assert MergedCounts(mine[k], map[]) == mine[k];
    }
  }

  /** Every counter is known, and no counter serves two keys. */
  ghost predicate Apart(limiters: map<string, GCounter>, counters: set<GCounter>) {
    && (forall k :: k in limiters ==> limiters[k] in counters)
    && (forall k, l :: k in limiters && l in limiters && k != l ==> limiters[k] != limiters[l])
  }

  ghost function CountsIn(limiters: map<string, GCounter>, counters: set<GCounter>): (r: map<string, Counts>)
    requires Apart(limiters, counters)
    reads counters
    ensures r.Keys == limiters.Keys
  {
    map k | k in limiters :: limiters[k].counts
  }

  /** The cache part of a merge completes it. */
  lemma MergedIs(start: Node, n: Node, peer: Live, order: seq<(Key, int)>, live: Live, disk: Disk)
    requires n == start.(live := MergedSets(start.live, peer))
    requires live == n.live.(cache := AdoptAll(n, peer, order).live.cache)
    requires disk == n.disk.(wal := AdoptAll(n, peer, order).disk.wal)
    ensures live == DoMerge(start, peer, order).live && disk == DoMerge(start, peer, order).disk
  {
    AdoptAllKeeps(n, peer, order);
  }

  lemma MergeMeans(n: Node, peer: Live, order: seq<(Key, int)>)
    requires Covers(n.live.cache, peer.cache, order)
    ensures var s, r := n.live, DoMerge(n, peer, order).live;
            && r.seen == s.seen + peer.seen
            && (forall k :: CountsOf(r.limiters, k) ==
                            MergedCounts(CountsOf(s.limiters, k), CountsOf(peer.limiters, k)))
            && (forall name :: name in s.cache ==> name in r.cache && NotOlder(r.cache[name], s.cache[name]))
            && (forall name :: name in peer.cache ==> name in r.cache && NotOlder(r.cache[name], peer.cache[name]))
            && (forall name :: name in r.cache ==>
                  || (name in s.cache && r.cache[name] == s.cache[name])
                  || (name in peer.cache && r.cache[name] == CoarseEntry(peer.cache[name])))
  {
    AdoptAllKeeps(n.(live := MergedSets(n.live, peer)), peer, order);
    forall name
      ensures var s, r := n.live, DoMerge(n, peer, order).live;
              && (name in s.cache ==> name in r.cache && NotOlder(r.cache[name], s.cache[name]))
              && (name in peer.cache ==> name in r.cache && NotOlder(r.cache[name], peer.cache[name]))
              && (name in r.cache ==>
                    || (name in s.cache && r.cache[name] == s.cache[name])
                    || (name in peer.cache && r.cache[name] == CoarseEntry(peer.cache[name])))
    {
      MergeMeaning(n, peer, order, name);
    }
  }

  class MeshStore {
    const nodeName: string
    const clock: Clock
    const replay: GSet
    const persistence: PersistenceEngine
    var limiters: map<string, GCounter>
    var cache: map<Key, CacheEntry>

    ghost var counters: set<GCounter>  // every counter in use

    ghost predicate Valid()
      reads this`limiters, this`counters
    {
      Apart(limiters, counters)
    }

    ghost function CountsNow(): (r: map<string, Counts>)
      requires Valid()
      reads this`limiters, this`counters, counters
      ensures r.Keys == limiters.Keys
    {
      CountsIn(limiters, counters)
    }

    ghost function State(): Live
      requires Valid()
      reads this, counters, replay
    {
      Live(CountsNow(), replay.items, cache)
    }

    /** This store as a node; the clock and the history play no part in what an operation does. */
    ghost function AsNode(): Node
      requires Valid()
      reads this, counters, replay, persistence
    {
      Node(State(), persistence.Disk(), 0, false, History({}, {}))
    }

    /** A store starts from what its disk holds. */
    constructor (nodeName: string, clock: Clock, persistence: PersistenceEngine)
      ensures Valid() && this.nodeName == nodeName && this.clock == clock && this.persistence == persistence
      ensures fresh(replay) && fresh(counters)
      ensures State() == Recovered(nodeName, persistence.Disk())
    {
      this.nodeName, this.clock, this.persistence := nodeName, clock, persistence;
      limiters, cache, counters := map[], map[], {};
      replay := new GSet.Restore({});
      new;
      assert State() == NOTHING;
      RecoverFromDisk();
    }

    /** Restores the snapshot, then applies the log entries after it in order. */
    method RecoverFromDisk()
      requires Valid() && State() == NOTHING
      modifies this, counters, replay
      ensures Valid() && fresh(counters - old(counters))
      ensures State() == Recovered(nodeName, persistence.Disk())
      ensures persistence.snapshot.None? ==> State() == ApplyAll(NOTHING, nodeName, NewerThan(persistence.wal, 0))
      ensures persistence.snapshot.Some? ==>
                var s := persistence.snapshot.value;
                State() == ApplyAll(s.state, nodeName, NewerThan(persistence.wal, s.at))
    {
      var after := 0;
      if persistence.snapshot.Some? {
        ApplySnapshot(persistence.snapshot.value.state);
        after := persistence.snapshot.value.at;
      }
      ReplayIsFilterThenApply(State(), nodeName, persistence.wal, after);
      var entries := persistence.ReplayWAL(after);
      ApplyEntries(entries);
    }

    method ApplyEntries(entries: seq<Log>)
      requires Valid()
      modifies this, counters, replay
      ensures Valid() && fresh(counters - old(counters))
      ensures State() == ApplyAll(old(State()), nodeName, entries)
    {
      for i := 0 to |entries|
        invariant Valid() && fresh(counters - old(counters))
        invariant State() == ApplyAll(old(State()), nodeName, entries[..i])
      {
        assert entries[..i + 1][..i] == entries[..i];
        ApplyEntry(entries[i]);
      }
      assert entries[..|entries|] == entries;
    }

    /** Replaces the live state by a snapshot's. */
    method ApplySnapshot(s: Live)
      requires Valid()
      modifies this, replay
      ensures Valid() && fresh(counters) && State() == s
    {
      RestoreLimiters(s.limiters);
      replay.items := s.seen;
      cache := s.cache;
    }

    /** Puts the live state back to the latest snapshot; without one it is an error and changes nothing. */
    method RestoreFromLatestSnapshot() returns (ok: bool)
      requires Valid()
      modifies this, replay
      ensures Valid() && fresh(counters - old(counters)) && ok == persistence.snapshot.Some?
      ensures State() == DoRestore(old(AsNode())).live
      ensures State() == if ok then persistence.snapshot.value.state else old(State())
    {
      if persistence.snapshot.None? { return false; }
      ApplySnapshot(persistence.snapshot.value.state);
      return true;
    }

    method Restore(key: string, counts: Counts)
      requires Valid() && key !in limiters
      modifies this`limiters, this`counters
      ensures Valid() && fresh(counters - old(counters))
      ensures CountsNow() == old(CountsNow())[key := counts]
    {
      var counter := new GCounter.Restore(counts);
      limiters, counters := limiters[key := counter], counters + {counter};
    }

    method RestoreLimiters(counts: map<string, Counts>)
      modifies this`limiters, this`counters
      ensures Valid() && fresh(counters) && CountsNow() == counts
    {
      limiters, counters := map[], {};
      var rest := counts.Keys;
      WithoutEnds(counts);
      while rest != {}
        invariant Valid() && fresh(counters) && rest <= counts.Keys
        invariant CountsNow() == Without(counts, rest)
      {
        var k :| k in rest;
        WithoutOne(counts, rest, k);
        Restore(k, counts[k]);
        rest := rest - {k};
      }
    }

    /** One log entry applied to the live state. */
    method ApplyEntry(entry: Log)
      requires Valid()
      modifies this, counters, replay
      ensures Valid() && fresh(counters - old(counters))
      ensures State() == Apply(old(State()), nodeName, entry)
      ensures replay.items == old(replay.items) + (if entry.Seen? then {entry.key} else {})
      ensures cache == if entry.Put? then old(cache)[entry.name := entry.entry] else old(cache)
      ensures forall k, m :: SlotOf(State(), k, m) ==
                SlotOf(old(State()), k, m) + (if entry.Consume? && k == entry.key && m == nodeName then 1 else 0)
    {
      ApplyMeaning(State(), nodeName, entry);
      match entry
      case Consume(_, key) =>
        ghost var s := State();
        var counter := CounterFor(key);
        Charge(counter, key);
        UpdateTwice(s.limiters, key, CountsOf(s.limiters, key), Incremented(CountsOf(s.limiters, key), nodeName));
      case Seen(_, key) => replay.Add(key);
      case Put(_, name, e) => cache := cache[name := e];
    }

    /** The counter of a key, created when it is new. */
    method CounterFor(key: string) returns (counter: GCounter)
      requires Valid()
      modifies this`limiters, this`counters
      ensures Valid() && key in limiters && counter == limiters[key] && fresh(counters - old(counters))
      ensures CountsNow() == old(CountsNow())[key := CountsOf(old(CountsNow()), key)]
    {
      if key in limiters {
        counter := limiters[key];
      } else {
        counter := new GCounter();
        limiters, counters := limiters[key := counter], counters + {counter};
      }
    }

    /** One more admission of this node's on a key. */
    method Charge(counter: GCounter, ghost key: string)
      requires Valid() && key in limiters && counter == limiters[key]
      modifies counter
      ensures CountsNow() == old(CountsNow())[key := Incremented(old(CountsNow())[key], nodeName)]
    {
      counter.Increment(nodeName);
    }

    /** One admission, counted and logged. */
    method Admit(counter: GCounter, key: string) returns (ghost at: int)
      requires Valid() && key in limiters && counter == limiters[key]
      modifies counter, clock, persistence`wal
      ensures old(clock.last) < at == clock.last
      ensures CountsNow() == old(CountsNow())[key := Incremented(old(CountsNow())[key], nodeName)]
      ensures persistence.wal == old(persistence.wal) + [Log.Consume(at, key)]
    {
      Charge(counter, key);
      var now := clock.Now();
      persistence.LogOperation(Log.Consume(0, key), now);
      at := now;
    }

    /** The counter of a key, and the total that this node sees. */
    method View(key: string) returns (counter: GCounter, current: int)
      requires Valid()
      modifies this`limiters, this`counters
      ensures Valid() && key in limiters && counter == limiters[key] && fresh(counters - old(counters))
      ensures CountsNow() == old(CountsNow())[key := CountsOf(old(CountsNow()), key)]
      ensures current == Total(CountsOf(old(CountsNow()), key))
    {
      counter := CounterFor(key);
      assert counter.counts == CountsNow()[key];
      current := counter.Value();
    }

    /** Admits while this node's view of the total is below the limit. */
    method TryConsume(key: string, limit: int) returns (ok: bool, remaining: int, ghost at: int)
      requires Valid()
      modifies this`limiters, this`counters, clock, counters, persistence`wal
      ensures Valid() && fresh(counters - old(counters)) && old(clock.last) <= at == clock.last
      ensures ok <==> Total(CountsOf(old(State()).limiters, key)) < limit
      ensures ok ==> old(clock.last) < at
      ensures remaining == if ok then limit - Total(CountsOf(old(State()).limiters, key)) - 1 else 0
      ensures 0 <= remaining
      ensures State() == DoConsume(old(AsNode()), nodeName, key, limit, at).live
      ensures persistence.Disk() == DoConsume(old(AsNode()), nodeName, key, limit, at).disk
      ensures forall k, m :: SlotOf(State(), k, m) ==
                SlotOf(old(State()), k, m) + (if ok && k == key && m == nodeName then 1 else 0)
      ensures persistence.wal == old(persistence.wal) + (if ok then [Log.Consume(at, key)] else [])
    {
      ghost var before, n := CountsNow(), AsNode();
      var counter, current := View(key);
      remaining, at, ok := 0, clock.last, current < limit;
      if ok {
        remaining := limit - current - 1;
        at := Admit(counter, key);
        UpdateTwice(before, key, CountsOf(before, key), Incremented(CountsOf(before, key), nodeName));
      }
      ConsumeMeaning(n, nodeName, key, limit, at);
    }

    /** The reset time is a window from now, in milliseconds, and is kept nowhere. */
    method Consume(key: string, limit: int, window: int)
      returns (ok: bool, remaining: int, resetAt: int, ghost at: int)
      requires Valid()
      modifies this`limiters, this`counters, clock, counters, persistence`wal
      ensures Valid() && fresh(counters - old(counters)) && old(clock.last) <= at < clock.last
      ensures ok <==> Total(CountsOf(old(State()).limiters, key)) < limit
      ensures ok ==> old(clock.last) < at
      ensures remaining == if ok then limit - Total(CountsOf(old(State()).limiters, key)) - 1 else 0
      ensures 0 <= remaining
      ensures resetAt == (clock.last + window) / MILLI
      ensures State() == DoConsume(old(AsNode()), nodeName, key, limit, at).live
      ensures persistence.Disk() == DoConsume(old(AsNode()), nodeName, key, limit, at).disk
      ensures forall k, m :: SlotOf(State(), k, m) ==
                SlotOf(old(State()), k, m) + (if ok && k == key && m == nodeName then 1 else 0)
      ensures persistence.wal == old(persistence.wal) + (if ok then [Log.Consume(at, key)] else [])
    {
      ok, remaining, at := TryConsume(key, limit);
      var now := clock.Now();
      resetAt := (now + window) / MILLI;
    }

    /** Whether a nonce was seen; a new one is recorded. */
    method Seen(nonce: string) returns (seen: bool, ghost at: int)
      requires Valid()
      modifies clock, replay, persistence`wal
      ensures Valid() && old(clock.last) <= at == clock.last && (!seen ==> old(clock.last) < at)
      ensures seen <==> nonce in old(replay.items)
      ensures replay.items == old(replay.items) + {nonce}
      ensures persistence.wal == old(persistence.wal) + (if seen then [] else [Log.Seen(at, nonce)])
      ensures State() == DoSee(old(AsNode()), nonce, at).live
      ensures persistence.Disk() == DoSee(old(AsNode()), nonce, at).disk
    {
      seen := replay.Contains(nonce);
      at := clock.last;
      if !seen {
        replay.Add(nonce);
        var now := clock.Now();
        persistence.LogOperation(Log.Seen(0, nonce), now);
        at := now;
      }
    }

    method Get(name: Key) returns (value: Option<string>, now: int)
      requires Valid()
      modifies clock
      ensures old(clock.last) < now == clock.last
      ensures value == Recovery.Get(State(), name, now)
      ensures value == if name in cache && (cache[name].expiresAt.Some? ==> now <= cache[name].expiresAt.value)
                       then Some(cache[name].value) else None
    {
      now := clock.Now();
      if name !in cache || (cache[name].expiresAt.Some? && now > cache[name].expiresAt.value) {
        return None, now;
      }
      return Some(cache[name].value), now;
    }

    /** Stores a value, whatever was there; a ttl of zero or less means no expiry. */
    method Set(name: Key, value: string, ttl: int) returns (ghost t: int, ghost e: int, ghost w: int)
      requires Valid()
      modifies this`cache, clock, persistence`wal
      ensures Valid() && SetTimes(old(clock.last), ttl, t, e, w) && w == clock.last
      ensures State() == DoSet(old(AsNode()), nodeName, name, value, ttl, t, e, w).live
      ensures persistence.Disk() == DoSet(old(AsNode()), nodeName, name, value, ttl, t, e, w).disk
      ensures name in cache && cache - {name} == old(cache) - {name}
      ensures cache[name] == CacheEntry(value, if ttl > 0 then Some(e + ttl) else None, t, nodeName)
    {
      var ts := clock.Now();
      var now, expiresAt := ts, None;
      if ttl > 0 {
        now := clock.Now();
        expiresAt := Some(now + ttl);
      }
      cache := cache[name := CacheEntry(value, expiresAt, ts, nodeName)];
      var logged := clock.Now();
      persistence.LogOperation(Put(0, name, CacheEntry(value, Coarse(expiresAt), 0, nodeName)), logged);
      t, e, w := ts, now, logged;
      assert CountsNow() == old(CountsNow());
    }

    /** One write of a committed transaction. */
    method CommitWrite(name: Key, value: string) returns (ghost t: int, ghost w: int)
      requires Valid()
      modifies this`cache, clock, persistence`wal
      ensures Valid() && old(clock.last) < t < w == clock.last
      ensures State() == DoCommit(old(AsNode()), nodeName, name, value, t, w).live
      ensures persistence.Disk() == DoCommit(old(AsNode()), nodeName, name, value, t, w).disk
      ensures name in cache && cache - {name} == old(cache) - {name}
      ensures cache[name] == CacheEntry(value, None, t, nodeName)
    {
      var ts := clock.Now();
      cache := cache[name := CacheEntry(value, None, ts, nodeName)];
      var logged := clock.Now();
      persistence.LogOperation(Put(0, name, CacheEntry(value, None, ts, nodeName)), logged);
      t, w := ts, logged;
    }

    /** Deletes every expired entry. */
    method Cleanup() returns (ghost at: int)
      requires Valid()
      modifies this`cache, clock
      ensures Valid() && old(clock.last) < at == clock.last
      ensures State() == DoCleanup(old(AsNode()), at).live
      ensures forall name :: name in cache <==>
                name in old(cache) && (old(cache)[name].expiresAt.Some? ==> at <= old(cache)[name].expiresAt.value)
      ensures forall name :: name in cache ==> cache[name] == old(cache)[name]
    {
      var now := clock.Now();
      at := now;
      var rest := cache.Keys;
      while rest != {}
        invariant rest <= old(cache).Keys
        invariant cache == CleanedCache(old(cache), rest, now) && clock.last == now
      {
        var name :| name in rest;
        if cache[name].expiresAt.Some? && now > cache[name].expiresAt.value {
          cache := cache - {name};
        }
        rest := rest - {name};
      }
    }

    // ----- gossip -----

    /** This node's state for a peer or a snapshot. */
    method GetState() returns (state: Live)
      requires Valid()
      ensures state == OnWire(State())
      ensures state.limiters == CountsNow() && state.seen == replay.items && state.cache.Keys == cache.Keys
      ensures forall name :: name in cache ==>
                var e, w := cache[name], state.cache[name];
                && w.value == e.value && w.timestamp == e.timestamp && w.node == e.node
                && (w.expiresAt.Some? <==> e.expiresAt.Some? && 1_000_000 <= e.expiresAt.value)
                && (w.expiresAt.Some? ==>
                      && w.expiresAt.value % 1_000_000 == 0
                      && 0 <= e.expiresAt.value - w.expiresAt.value < 1_000_000)
    {
      var counts: map<string, Counts> := map[];
      var keys := limiters.Keys;
      while keys != {}
        invariant keys <= limiters.Keys && counts == Without(CountsNow(), keys)
      {
        var k :| k in keys;
        counts := counts[k := limiters[k].counts];
        keys := keys - {k};
      }
      var entries: map<Key, CacheEntry> := map[];
      var names := cache.Keys;
      while names != {}
        invariant names <= cache.Keys && entries == Without(OnWire(State()).cache, names)
      {
        var name :| name in names;
        entries := entries[name := CoarseEntry(cache[name])];
        names := names - {name};
      }
      state := Live(counts, replay.items, entries);
      assert state.limiters == CountsNow();
      AllWireMeaning(State());
    }

    /** Writes a snapshot of the current state and then starts a new log. */
    method CreateSnapshot() returns (ghost at: int)
      requires Valid()
      modifies clock, persistence
      ensures Valid() && old(clock.last) < at == clock.last
      ensures State() == old(State())
      ensures persistence.Disk() == DoRotate(DoSnapshot(old(AsNode()), old(State()), at)).disk
      ensures persistence.wal == [] && persistence.snapshot == Some(Snapshot(at, OnWire(State())))
    {
      var copy := GetState();
      var now := clock.Now();
      persistence.CreateSnapshot(copy, now);
      persistence.RotateWAL();
      at := now;
    }

    /** Merges a peer's counts for one key. */
    method MergeCounter(key: string, counts: Counts)
      requires Valid()
      modifies this`limiters, this`counters, counters
      ensures Valid() && fresh(counters - old(counters))
      ensures CountsNow() == old(CountsNow())[key := MergedCounts(CountsOf(old(CountsNow()), key), counts)]
    {
      ghost var before := CountsNow();
      var counter := CounterFor(key);
      MergeInto(counter, key, counts);
      UpdateTwice(before, key, CountsOf(before, key), MergedCounts(CountsOf(before, key), counts));
    }

    method MergeInto(counter: GCounter, ghost key: string, counts: Counts)
      requires Valid() && key in limiters && counter == limiters[key]
      modifies counter
      ensures CountsNow() == old(CountsNow())[key := MergedCounts(old(CountsNow())[key], counts)]
    {
      counter.Merge(counts);
    }

    /** A peer's empty counter is skipped. */
    method MergeKey(key: string, counts: Counts)
      requires Valid()
      modifies this`limiters, this`counters, counters
      ensures Valid() && fresh(counters - old(counters))
      ensures CountsNow() == OneMoreKey(old(CountsNow()), key, counts)
    {
      if |counts| != 0 {
        MergeCounter(key, counts);
      }
    }

    /** The counter part of a merge. */
    method MergeLimiters(peer: map<string, Counts>)
      requires Valid()
      modifies this`limiters, this`counters, counters
      ensures Valid() && fresh(counters - old(counters))
      ensures CountsNow() == MergedLimiters(old(CountsNow()), peer)
    {
      ghost var before := CountsNow();
      var rest := peer.Keys;
      WithoutEnds(peer);
      MergedWithNothing(before);
      while rest != {}
        invariant rest <= peer.Keys && Valid() && fresh(counters - old(counters))
        invariant CountsNow() == MergedLimiters(before, Without(peer, rest))
      {
        var key :| key in rest;
        MergedLimitersStep(before, Without(peer, rest), key, peer[key]);
        WithoutOne(peer, rest, key);
        MergeKey(key, peer[key]);
        rest := rest - {key};
      }
    }

    /** One cache entry of a merge: adopted when strictly newer, and logged under its own version. */
    method AdoptEntry(name: Key, e: CacheEntry, ghost n: Node) returns (adopted: bool, ghost w: int)
      requires n.live.cache == cache && n.disk.wal == persistence.wal
      modifies this`cache, clock, persistence`wal
      ensures adopted == Newer(old(cache), name, e)
      ensures w == clock.last && (if adopted then old(clock.last) < w else w == old(clock.last))
      ensures cache == Adopt(n, name, e, w).live.cache && persistence.wal == Adopt(n, name, e, w).disk.wal
    {
      w := clock.last;
      adopted := name !in cache || VersionLess(cache[name].timestamp, cache[name].node, e.timestamp, e.node);
      if adopted {
        var entry := CoarseEntry(e);
        cache := cache[name := entry];
        var now := clock.Now();
        persistence.LogOperation(Put(0, name, entry), now);
        w := now;
      }
    }

    /** The cache part of a merge, entry by entry in any order. */
    method MergeCache(peer: map<Key, CacheEntry>, ghost n: Node, ghost all: Live) returns (ghost order: seq<(Key, int)>)
      requires n.live.cache == cache && n.disk.wal == persistence.wal && all.cache == peer
      modifies this`cache, clock, persistence`wal
      ensures Ticks(old(clock.last), order) && Covers(old(cache), peer, order)
      ensures cache == AdoptAll(n, all, order).live.cache
      ensures persistence.wal == AdoptAll(n, all, order).disk.wal
    {
      WithoutEnds(peer);
      order := [];
      var rest := peer.Keys;
      while rest != {}
        invariant rest <= peer.Keys
        invariant Ticks(old(clock.last), order) && LastTick(old(clock.last), order) == clock.last
        invariant cache == AdoptAll(n, all, order).live.cache
        invariant persistence.wal == AdoptAll(n, all, order).disk.wal
        invariant SameOn(cache, old(cache), rest)
        invariant Covers(old(cache), Without(peer, rest), order)
      {
        var name :| name in rest;
        ghost var clock0 := old(clock.last);
        SameIsNewer(cache, old(cache), rest, name, peer[name]);
        var adopted, w := AdoptEntry(name, peer[name], AdoptAll(n, all, order));
        MergedEntry(n, all, order, name, w, clock0);
        CoversOne(old(cache), peer, order, rest, name, w);
        if adopted { order := order + [(name, w)]; }
        rest := rest - {name};
      }
    }

    /** The counter and nonce parts of a merge. */
    method MergeGrowOnly(peer: Live)
      requires Valid()
      modifies this`limiters, this`counters, counters, replay
      ensures Valid() && fresh(counters - old(counters))
      ensures State() == MergedSets(old(State()), peer)
    {
      replay.Merge(peer.seen);
      assert CountsNow() == old(CountsNow());
      MergeLimiters(peer.limiters);
    }

    /** Merges a peer's state. */
    method MergeState(peer: Live) returns (ghost order: seq<(Key, int)>)
      requires Valid()
      modifies this`limiters, this`counters, this`cache, clock, counters, replay, persistence`wal
      ensures Valid() && fresh(counters - old(counters))
      ensures Ticks(old(clock.last), order) && Covers(old(cache), peer.cache, order)
      ensures State() == DoMerge(old(AsNode()), peer, order).live
      ensures replay.items == old(replay.items) + peer.seen
      ensures forall k :: CountsOf(State().limiters, k) ==
                          MergedCounts(CountsOf(old(State()).limiters, k), CountsOf(peer.limiters, k))
      ensures forall name :: name in old(cache) ==> name in cache && NotOlder(cache[name], old(cache)[name])
      ensures forall name :: name in peer.cache ==> name in cache && NotOlder(cache[name], peer.cache[name])
      ensures forall name :: name in cache ==>
                || (name in old(cache) && cache[name] == old(cache)[name])
                || (name in peer.cache && cache[name] == CoarseEntry(peer.cache[name]))
      ensures persistence.Disk() == DoMerge(old(AsNode()), peer, order).disk
    {
      ghost var start := AsNode();
      MergeGrowOnly(peer);
      ghost var n := AsNode();
      assert n == start.(live := MergedSets(start.live, peer));
      label Counted:
      order := MergeCache(peer.cache, n, peer);
      assert unchanged@Counted(counters);
      MergedIs(start, n, peer, order, State(), persistence.Disk());
      MergeMeans(start, peer, order);
    }
  }
}
