/** What a restart gives back: at every point of a run the state recovered from the disk agrees with the
    live state, as long as no write falls between a snapshot and the rotation of the log. */
module Recovery {
  import opened Wrappers
  import opened Crdt
  import opened MeshNode

  /** Log times rise, a snapshot is no newer than the clock, and while the log waits to be rotated nothing
      in it is newer than the snapshot. */
  ghost predicate Timed(n: Node) {
    && MILLI <= n.clock && 0 <= Base(n.disk).at <= n.clock
    && (forall i :: 0 <= i < |n.disk.wal| ==> n.disk.wal[i].at <= n.clock)
    && (n.rotating ==> forall i :: 0 <= i < |n.disk.wal| ==> n.disk.wal[i].at <= Base(n.disk).at)
    && (forall k :: k in n.live.cache && n.live.cache[k].expiresAt.Some? ==> MILLI <= n.live.cache[k].expiresAt.value)
    && Versioned(n.live)
  }

  /** Every entry has a positive version. */
  ghost predicate Versioned(s: Live) {
    forall k :: k in s.cache ==> 0 < s.cache[k].timestamp
  }

  ghost predicate Agrees(live: CacheEntry, recovered: CacheEntry) {
    recovered.value == live.value && recovered.node == live.node && recovered.expiresAt == Coarse(live.expiresAt)
  }

  /** The cache after recovery: each live entry with its value, writer and expiry to the millisecond, and a
      version that is exact but for plain Sets and never lower; anything more has expired. */
  ghost predicate CacheDurable(live: map<Key, CacheEntry>, recovered: map<Key, CacheEntry>, plain: set<Key>,
      clock: int) {
    && (forall k :: k in live ==>
          && k in recovered && Agrees(live[k], recovered[k])
          && live[k].timestamp <= recovered[k].timestamp
          && (k !in plain ==> live[k].timestamp == recovered[k].timestamp))
    && (forall k :: k in recovered && k !in live ==> Expired(recovered[k], clock))
    && (forall k :: k in recovered ==> CoarseEntry(recovered[k]) == recovered[k] && 0 < recovered[k].timestamp)
  }

  ghost predicate SameSlots(a: map<string, Counts>, b: map<string, Counts>, node: string) {
    forall key :: Slot(CountsOf(a, key), node) == Slot(CountsOf(b, key), node)
  }

  /** Own counts exactly, every nonce recorded here, and the cache. */
  ghost predicate Durable(self: string, n: Node) {
    var r := Recovered(self, n.disk);
    && SameSlots(r.limiters, n.live.limiters, self)
    && n.history.recorded <= r.seen <= n.live.seen
    && CacheDurable(n.live.cache, r.cache, n.history.plain, n.clock)
  }

  /** What logging one entry with a rising time does to the recovered state. */
  lemma LoggedRecovers(self: string, n: Node, live: Live, entry: Log)
    requires Timed(n) && !n.rotating && n.clock < entry.at
    ensures Recovered(self, Logged(n, live, entry).disk) == Apply(Recovered(self, n.disk), self, entry)
  {
    ReplayAppend(Base(n.disk).state, self, n.disk.wal, entry, Base(n.disk).at);
  }

  lemma CoarseTwice(t: Option<int>)
    ensures Coarse(Coarse(t)) == Coarse(t)
    ensures Coarse(t).Some? ==> MILLI <= Coarse(t).value && t.Some? && Coarse(t).value <= t.value
    ensures t.Some? && MILLI <= t.value ==> Coarse(t).Some?
  {
  }

  lemma SlotsOf(a: map<string, Counts>, b: map<string, Counts>, self: string, k: string)
    requires SameSlots(a, b, self)
    ensures Slot(CountsOf(a, k), self) == Slot(CountsOf(b, k), self)
  {
  }

  /** One more of its own on both sides; and a counter that was looked up is no other counter. */
  lemma ChargedSlots(a: Live, b: Live, self: string, key: string)
    requires SameSlots(a.limiters, b.limiters, self)
    ensures SameSlots(Charged(a, self, key).limiters, Charged(b, self, key).limiters, self)
    ensures SameSlots(a.limiters, b.limiters[key := CountsOf(b.limiters, key)], self)
  {
    var x, y := Charged(a, self, key).limiters, Charged(b, self, key).limiters;
    var z := b.limiters[key := CountsOf(b.limiters, key)];
    forall k ensures Slot(CountsOf(x, k), self) == Slot(CountsOf(y, k), self) {
      SlotsOf(a.limiters, b.limiters, self, k);
    }
    forall k ensures Slot(CountsOf(a.limiters, k), self) == Slot(CountsOf(z, k), self) {
      SlotsOf(a.limiters, b.limiters, self, k);
      assert CountsOf(z, k) == CountsOf(b.limiters, k);
    }
  }

  /** What logging does to the times. */
  lemma LoggedTimed(n: Node, live: Live, entry: Log)
    requires Timed(n) && !n.rotating && n.clock < entry.at && live.cache == n.live.cache
    ensures Timed(Logged(n, live, entry))
  {
    assert Base(Logged(n, live, entry).disk) == Base(n.disk);
  }

  lemma ConsumeDurable(self: string, n: Node, key: string, limit: int, at: int)
    requires Timed(n) && Durable(self, n) && !n.rotating && n.clock < at
    ensures Timed(DoConsume(n, self, key, limit, at)) && Durable(self, DoConsume(n, self, key, limit, at))
  {
    var r := Recovered(self, n.disk);
    LoggedRecovers(self, n, Charged(n.live, self, key), Consume(at, key));
    LoggedTimed(n, Charged(n.live, self, key), Consume(at, key));
    ChargedSlots(r, n.live, self, key);
  }

  lemma SeeDurable(self: string, n: Node, nonce: string, at: int)
    requires Timed(n) && Durable(self, n) && !n.rotating && n.clock < at
    ensures Timed(DoSee(n, nonce, at)) && Durable(self, DoSee(n, nonce, at))
  {
    LoggedRecovers(self, n, n.live.(seen := n.live.seen + {nonce}), Seen(at, nonce));
  }

  /** The clock readings of a Set in their order; the one for the expiry is taken only when there is one. */
  ghost predicate SetTimes(clock: int, ttl: int, t: int, e: int, w: int) {
    clock < t < w && (ttl > 0 ==> t < e < w)
  }

  lemma CachePut(live: map<Key, CacheEntry>, recovered: map<Key, CacheEntry>, plain: set<Key>, clock: int, name: Key,
      e: CacheEntry, logged: CacheEntry, plain': set<Key>, w: int)
    requires CacheDurable(live, recovered, plain, clock) && clock < w && plain - {name} == plain' - {name}
    requires Agrees(e, logged) && 0 < e.timestamp <= logged.timestamp
    requires name !in plain' ==> e.timestamp == logged.timestamp
    requires CoarseEntry(logged) == logged
    ensures CacheDurable(live[name := e], recovered[name := logged], plain', w)
  {
    forall k | k in live && k != name && k !in plain' ensures k !in plain { assert k !in plain' - {name}; }
  }

  /** A cache entry is stored, and logged as the disk will give it back. */
  lemma PutDurable(self: string, n: Node, name: Key, e: CacheEntry, logged: CacheEntry, w: int, plain: set<Key>)
    requires Timed(n) && Durable(self, n) && !n.rotating && n.clock < w
    requires n.history.plain - {name} == plain - {name}
    requires Agrees(e, logged) && 0 < e.timestamp <= logged.timestamp
    requires name !in plain ==> e.timestamp == logged.timestamp
    requires CoarseEntry(logged) == logged && (e.expiresAt.Some? ==> MILLI <= e.expiresAt.value)
    ensures var m := Logged(n, n.live.(cache := n.live.cache[name := e]), Put(w, name, logged))
                       .(history := n.history.(plain := plain));
            Timed(m) && Durable(self, m)
  {
    LoggedRecovers(self, n, n.live.(cache := n.live.cache[name := e]), Put(w, name, logged));
    CachePut(n.live.cache, Recovered(self, n.disk).cache, n.history.plain, n.clock, name, e, logged, plain, w);
    assert Base(Logged(n, n.live, Put(w, name, logged)).disk) == Base(n.disk);
  }

  lemma SetDurable(self: string, n: Node, name: Key, value: string, ttl: int, t: int, e: int, w: int)
    requires Timed(n) && Durable(self, n) && !n.rotating && SetTimes(n.clock, ttl, t, e, w)
    ensures Timed(DoSet(n, self, name, value, ttl, t, e, w)) && Durable(self, DoSet(n, self, name, value, ttl, t, e, w))
  {
    var expiresAt := if ttl > 0 then Some(e + ttl) else None;
    CoarseTwice(expiresAt);
    PutDurable(self, n, name, CacheEntry(value, expiresAt, t, self),
               CacheEntry(value, Coarse(expiresAt), Version(0, w), self), w, n.history.plain + {name});
  }

  lemma CommitDurable(self: string, n: Node, name: Key, value: string, t: int, w: int)
    requires Timed(n) && Durable(self, n) && !n.rotating && n.clock < t < w
    ensures Timed(DoCommit(n, self, name, value, t, w)) && Durable(self, DoCommit(n, self, name, value, t, w))
  {
    PutDurable(self, n, name, CacheEntry(value, None, t, self), CacheEntry(value, None, Version(t, w), self), w,
               n.history.plain - {name});
  }

  lemma CleanupDurable(self: string, n: Node, now: int)
    requires Timed(n) && Durable(self, n) && n.clock < now
    ensures Timed(DoCleanup(n, now)) && Durable(self, DoCleanup(n, now))
  {
    forall k | k in n.live.cache && Expired(n.live.cache[k], now)
      ensures Expired(Recovered(self, n.disk).cache[k], now)
    {
      CoarseTwice(n.live.cache[k].expiresAt);
    }
  }

  lemma AdoptDurable(self: string, n: Node, name: Key, e: CacheEntry, w: int)
    requires Timed(n) && Durable(self, n) && !n.rotating && n.clock < w && 0 < e.timestamp
    ensures Timed(Adopt(n, name, e, w)) && Durable(self, Adopt(n, name, e, w))
  {
    CoarseTwice(e.expiresAt);
    var c := CoarseEntry(e);
    if Newer(n.live.cache, name, e) {
      PutDurable(self, n, name, c, c.(timestamp := Version(e.timestamp, w)), w, n.history.plain - {name});
    }
  }

  /** A snapshot of the live state, taken with no write between the copy and the stamp. */
  lemma SnapshotDurable(self: string, n: Node, at: int)
    requires Timed(n) && Durable(self, n) && !n.rotating && n.clock < at
    ensures Timed(DoSnapshot(n, n.live, at)) && Durable(self, DoSnapshot(n, n.live, at))
  {
    ReplayNone(OnWire(n.live), self, n.disk.wal, at);
    forall k | k in n.live.cache ensures CoarseEntry(OnWire(n.live).cache[k]) == OnWire(n.live).cache[k] {
      CoarseTwice(n.live.cache[k].expiresAt);
    }
  }

  lemma RotateDurable(self: string, n: Node)
    requires Timed(n) && Durable(self, n) && n.rotating
    ensures Timed(DoRotate(n)) && Durable(self, DoRotate(n))
  {
    ReplayNone(Base(n.disk).state, self, n.disk.wal, Base(n.disk).at);
  }

  /** A crash, also between the snapshot and the rotation. */
  lemma CrashDurable(self: string, n: Node)
    requires Timed(n) && Durable(self, n)
    ensures Timed(DoCrash(n, self)) && Durable(self, DoCrash(n, self))
  {
    var r := Recovered(self, n.disk);
    forall k | k in r.cache && r.cache[k].expiresAt.Some? ensures MILLI <= r.cache[k].expiresAt.value {
      CoarseTwice(r.cache[k].expiresAt);
    }
  }

  // ----- merging a peer's state -----

  /** The peer's view of this node's counts is not ahead of them. */
  ghost predicate ViewWithin(peer: map<string, Counts>, mine: map<string, Counts>, self: string) {
    forall key :: Slot(CountsOf(peer, key), self) <= Slot(CountsOf(mine, key), self)
  }

  /** Log times for an order of adoption: each later than the one before and than the clock. */
  ghost predicate Ticks(clock: int, order: seq<(Key, int)>)
    decreases |order|
  {
    order == [] || (Ticks(clock, order[..|order| - 1]) && LastTick(clock, order[..|order| - 1]) < order[|order| - 1].1)
  }

  ghost function LastTick(clock: int, order: seq<(Key, int)>): int {
    if order == [] then clock else order[|order| - 1].1
  }

  lemma {:induction false} AdoptAllDurable(self: string, n: Node, peer: Live, order: seq<(Key, int)>)
    requires Timed(n) && Durable(self, n) && !n.rotating && Ticks(n.clock, order) && Versioned(peer)
    ensures var m := AdoptAll(n, peer, order);
            && Timed(m) && Durable(self, m) && !m.rotating
            && n.clock <= m.clock <= LastTick(n.clock, order)
            && m.live.limiters == n.live.limiters && m.live.seen == n.live.seen
            && m.disk.snapshot == n.disk.snapshot && m.history.recorded == n.history.recorded
    decreases |order|
  {
    if order != [] {
      var front := order[..|order| - 1];
      AdoptAllDurable(self, n, peer, front);
      var (name, w) := order[|order| - 1];
      if name in peer.cache { AdoptDurable(self, AdoptAll(n, peer, front), name, peer.cache[name], w); }
    }
  }

  lemma MergeCountsDurable(self: string, n: Node, peer: Live)
    requires Timed(n) && Durable(self, n) && ViewWithin(peer.limiters, n.live.limiters, self)
    ensures Timed(n.(live := MergedSets(n.live, peer))) && Durable(self, n.(live := MergedSets(n.live, peer)))
  {
    var m := MergedSets(n.live, peer);
    forall key ensures Slot(CountsOf(m.limiters, key), self) == Slot(CountsOf(n.live.limiters, key), self) {
      assert Slot(CountsOf(peer.limiters, key), self) <= Slot(CountsOf(n.live.limiters, key), self);
    }
  }

  lemma MergeDurable(self: string, n: Node, peer: Live, order: seq<(Key, int)>)
    requires Timed(n) && Durable(self, n) && !n.rotating && Ticks(n.clock, order) && Versioned(peer)
    requires ViewWithin(peer.limiters, n.live.limiters, self)
    ensures Timed(DoMerge(n, peer, order)) && Durable(self, DoMerge(n, peer, order))
  {
    MergeCountsDurable(self, n, peer);
    AdoptAllDurable(self, n.(live := MergedSets(n.live, peer)), peer, order);
  }

  // ----- what Get gives back -----

  function Get(s: Live, name: Key, now: int): Option<string> {
    if name !in s.cache || Expired(s.cache[name], now) then None else Some(s.cache[name].value)
  }

  /** After a restart Get answers as before it, except in the part of a millisecond by which the disk
      rounds an expiry down, where a live entry is already gone. */
  lemma RecoveredGet(self: string, n: Node, name: Key, now: int)
    requires Timed(n) && Durable(self, n) && n.clock <= now
    ensures Get(DoCrash(n, self).live, name, now) == Get(n.live, name, now)
            <==> !(name in n.live.cache && n.live.cache[name].expiresAt.Some?
                   && n.live.cache[name].expiresAt.value / MILLI * MILLI < now <= n.live.cache[name].expiresAt.value)
  {
    if name in n.live.cache { CoarseTwice(n.live.cache[name].expiresAt); }
  }

  // ----- writes that fall into a checkpoint -----

  /** How often `key` was charged in the part of the log newer than `after`. */
  ghost function Charges(wal: seq<Log>, key: string, after: int): nat
    decreases |wal|
  {
    if wal == [] then 0
    else Charges(wal[..|wal| - 1], key, after)
         + (if wal[|wal| - 1].at > after && wal[|wal| - 1].Consume? && wal[|wal| - 1].key == key then 1 else 0)
  }

  ghost function Nonces(wal: seq<Log>, after: int): set<string> {
    set e | e in wal && e.at > after && e.Seen? :: e.key
  }

  lemma {:induction false} ReplayCounts(s: Live, self: string, wal: seq<Log>, after: int, key: string)
    ensures SlotOf(Replay(s, self, wal, after), key, self) == SlotOf(s, key, self) + Charges(wal, key, after)
    decreases |wal|
  {
    if wal != [] { ReplayCounts(s, self, wal[..|wal| - 1], after, key); }
  }

  lemma {:induction false} ReplaySeen(s: Live, self: string, wal: seq<Log>, after: int)
    ensures Replay(s, self, wal, after).seen == s.seen + Nonces(wal, after)
    decreases |wal|
  {
    if wal != [] {
      var front, last := wal[..|wal| - 1], wal[|wal| - 1];
      ReplaySeen(s, self, front, after);
      assert forall e :: e in wal <==> e in front || e == last;
    }
  }

  function EntryOf(s: Live, name: Key): Option<CacheEntry> {
    if name in s.cache then Some(s.cache[name]) else None
  }

  /** The last entry logged under a name after some time. */
  function LastPut(wal: seq<Log>, name: Key, after: int): Option<CacheEntry>
    decreases |wal|
  {
    if wal == [] then None
    else
      var last := wal[|wal| - 1];
      if last.at > after && last.Put? && last.name == name then Some(last.entry)
      else LastPut(wal[..|wal| - 1], name, after)
  }

  /** Under each name replay gives the last entry logged since the snapshot, and without one the snapshot's. */
  lemma {:induction false} ReplayCache(s: Live, self: string, wal: seq<Log>, after: int, name: Key)
    ensures EntryOf(Replay(s, self, wal, after), name) ==
            if LastPut(wal, name, after).Some? then LastPut(wal, name, after) else EntryOf(s, name)
    decreases |wal|
  {
    if wal != [] { ReplayCache(s, self, wal[..|wal| - 1], after, name); }
  }

  /** Rotating loses exactly the writes that were logged since the snapshot: each admission since then
      is missing from the recovered count, each nonce since then is forgotten unless the snapshot has it, and each
      name written since then falls back to the snapshot's entry. */
  lemma RotateLoses(self: string, n: Node, key: string)
    ensures var kept, before := Recovered(self, DoRotate(n).disk), Recovered(self, n.disk);
            && SlotOf(kept, key, self) + Charges(n.disk.wal, key, Base(n.disk).at) == SlotOf(before, key, self)
            && kept.seen + Nonces(n.disk.wal, Base(n.disk).at) == before.seen
            && forall name :: EntryOf(before, name) ==
                 if LastPut(n.disk.wal, name, Base(n.disk).at).Some? then LastPut(n.disk.wal, name, Base(n.disk).at)
                 else EntryOf(kept, name)
  {
    forall name ensures EntryOf(Recovered(self, n.disk), name) ==
              if LastPut(n.disk.wal, name, Base(n.disk).at).Some? then LastPut(n.disk.wal, name, Base(n.disk).at)
              else EntryOf(Base(n.disk).state, name)
    {
      ReplayCache(Base(n.disk).state, self, n.disk.wal, Base(n.disk).at, name);
    }
    ReplayCounts(Base(n.disk).state, self, n.disk.wal, Base(n.disk).at, key);
    ReplaySeen(Base(n.disk).state, self, n.disk.wal, Base(n.disk).at);
  }

  /** So a node that was durable before a rotation is so after it, for one key's count, exactly when the key
      was not charged between the snapshot and the rotation. */
  lemma RotateKeepsCountIff(self: string, n: Node, key: string)
    requires Durable(self, n)
    ensures SlotOf(Recovered(self, DoRotate(n).disk), key, self) == SlotOf(n.live, key, self)
            <==> Charges(n.disk.wal, key, Base(n.disk).at) == 0
  {
    RotateLoses(self, n, key);
    assert SlotOf(Recovered(self, n.disk), key, self) == SlotOf(n.live, key, self);
  }

  /** Of the recovered nonces a rotation keeps exactly those that the snapshot has. */
  lemma RotateKeepsNonceIff(self: string, n: Node, nonce: string)
    requires nonce in Recovered(self, n.disk).seen
    ensures nonce in Recovered(self, DoRotate(n).disk).seen <==> nonce in Base(n.disk).state.seen
  {
    ReplaySeen(Base(n.disk).state, self, [], Base(n.disk).at);
  }

  /** A rotation keeps what recovery gives under a name exactly when nothing was logged under it since the snapshot,
      or the last that was is what the snapshot has already. */
  lemma RotateKeepsEntryIff(self: string, n: Node, name: Key)
    ensures EntryOf(Recovered(self, DoRotate(n).disk), name) == EntryOf(Recovered(self, n.disk), name)
            <==> LastPut(n.disk.wal, name, Base(n.disk).at).None?
                 || LastPut(n.disk.wal, name, Base(n.disk).at) == EntryOf(Base(n.disk).state, name)
  {
    RotateLoses(self, n, "");
  }

  // ----- restoring the snapshot on a live node -----

  /** The snapshot replaces the live state, and the log is not replayed; without a snapshot nothing happens. */
  function DoRestore(n: Node): Node {
    if n.disk.snapshot.None? then n else n.(live := Base(n.disk).state)
  }

  /** A node that was durable keeps its own count of a key through a restore exactly when it has charged the key
      nowhere in the log after the snapshot. */
  lemma RestoreKeepsCountIff(self: string, n: Node, key: string)
    requires Durable(self, n) && n.disk.snapshot.Some?
    ensures SlotOf(DoRestore(n).live, key, self) == SlotOf(n.live, key, self)
            <==> Charges(n.disk.wal, key, Base(n.disk).at) == 0
  {
    RotateKeepsCountIff(self, n, key);
  }

  /** Restoring drops the log, so such a node keeps every nonce recorded here exactly when the snapshot has those of
      them that were logged after it. */
  lemma RestoreKeepsNoncesIff(self: string, n: Node)
    requires Durable(self, n) && n.disk.snapshot.Some?
    ensures n.history.recorded <= DoRestore(n).live.seen
            <==> n.history.recorded * Nonces(n.disk.wal, Base(n.disk).at) <= Base(n.disk).state.seen
  {
    ReplaySeen(Base(n.disk).state, self, n.disk.wal, Base(n.disk).at);
  }

  /** And it keeps a cache entry - value, writer and expiry in milliseconds - exactly when nothing was logged under the
      name after the snapshot, or the snapshot has what is live now. */
  lemma RestoreKeepsEntryIff(self: string, n: Node, name: Key)
    requires Durable(self, n) && n.disk.snapshot.Some? && name in n.live.cache
    ensures var r := DoRestore(n).live.cache;
            name in r && Agrees(n.live.cache[name], r[name])
            <==> LastPut(n.disk.wal, name, Base(n.disk).at).None?
                 || (name in Base(n.disk).state.cache && Agrees(n.live.cache[name], Base(n.disk).state.cache[name]))
  {
    ReplayCache(Base(n.disk).state, self, n.disk.wal, Base(n.disk).at, name);
    assert EntryOf(Recovered(self, n.disk), name) == Some(Recovered(self, n.disk).cache[name]);
  }

  // ----- nonces heard from peers -----

  /** Whatever a node has seen, a crash keeps a nonce exactly when the snapshot or the log after it has it. */
  lemma CrashKeepsNonceIff(self: string, n: Node, nonce: string)
    ensures nonce in DoCrash(n, self).live.seen
            <==> nonce in Base(n.disk).state.seen || nonce in Nonces(n.disk.wal, Base(n.disk).at)
  {
    ReplaySeen(Base(n.disk).state, self, n.disk.wal, Base(n.disk).at);
  }

  lemma NoncesMore(wal: seq<Log>, entry: Log, after: int)
    requires !entry.Seen?
    ensures Nonces(wal + [entry], after) == Nonces(wal, after)
  {
    assert forall e :: e in wal + [entry] <==> e in wal || e == entry;
  }

  /** A merge logs cache entries only. */
  lemma {:induction false} AdoptAllNonces(n: Node, peer: Live, order: seq<(Key, int)>, after: int)
    ensures Nonces(AdoptAll(n, peer, order).disk.wal, after) == Nonces(n.disk.wal, after)
    decreases |order|
  {
    if order != [] {
      var front := order[..|order| - 1];
      var (name, w) := order[|order| - 1];
      AdoptAllNonces(n, peer, front, after);
      if name in peer.cache && Newer(AdoptAll(n, peer, front).live.cache, name, peer.cache[name]) {
        var e := CoarseEntry(peer.cache[name]);
        NoncesMore(AdoptAll(n, peer, front).disk.wal, Put(w, name, e.(timestamp := Version(e.timestamp, w))), after);
      }
    }
  }

  /** A nonce that a durable node first hears of in a merge is not logged: a crash forgets it, and keeps it only once a
      snapshot has been taken. */
  lemma HeardNonceNeedsSnapshot(self: string, n: Node, peer: Live, order: seq<(Key, int)>, nonce: string, at: int)
    requires Timed(n) && Durable(self, n) && nonce in peer.seen && nonce !in n.live.seen
    ensures var m := DoMerge(n, peer, order);
            && nonce in m.live.seen && nonce !in DoCrash(m, self).live.seen
            && nonce in DoCrash(DoSnapshot(m, m.live, at), self).live.seen
  {
    var m := DoMerge(n, peer, order);
    AdoptAllKeeps(n.(live := MergedSets(n.live, peer)), peer, order);
    AdoptAllNonces(n.(live := MergedSets(n.live, peer)), peer, order, Base(n.disk).at);
    CrashKeepsNonceIff(self, n, nonce);
    CrashKeepsNonceIff(self, m, nonce);
    CrashKeepsNonceIff(self, DoSnapshot(m, m.live, at), nonce);
  }

  // ----- losses that a caller sees -----

  /** A request admitted between the snapshot and the rotation is forgotten by a crash after it. */
  lemma AdmissionLostInCheckpoint()
    ensures var n := DoRotate(DoConsume(DoSnapshot(NEW_NODE, NOTHING, MILLI + 1), "a", "k", 5, MILLI + 2));
            SlotOf(n.live, "k", "a") == 1 && SlotOf(DoCrash(n, "a").live, "k", "a") == 0
  {
    var written := DoSnapshot(NEW_NODE, NOTHING, MILLI + 1);
    assert Total(CountsOf(written.live.limiters, "k")) == 0;
  }

  /** A nonce recorded between the snapshot and the rotation is accepted again after a crash. */
  lemma NonceLostInCheckpoint()
    ensures var n := DoRotate(DoSee(DoSnapshot(NEW_NODE, NOTHING, MILLI + 1), "x", MILLI + 2));
            "x" in n.live.seen && "x" !in DoCrash(n, "a").live.seen
  {
  }

  /** A value set between the snapshot and the rotation is gone after a crash. */
  lemma WriteLostInCheckpoint(name: Key, value: string, now: int)
    ensures var n := DoRotate(DoSet(DoSnapshot(NEW_NODE, NOTHING, MILLI + 1), "a", name, value, 0, MILLI + 2, 0,
                                    MILLI + 3));
            Get(n.live, name, now) == Some(value) && Get(DoCrash(n, "a").live, name, now) == None
  {
  }
}
