/** What becomes of nonces and cache entries when a snapshot is stamped later than the copy of the state it holds. A
    copy is held in memory, so the node does not crash between copy and stamp; anything else may happen there. */
module StaleCopies {
  import opened Wrappers
  import opened Order
  import opened MeshNode
  import opened Recovery
  import opened Mesh
  import CacheVersions
  import RateLimit
  import MeshConvergence

  ghost predicate NoCrash(more: seq<Op>, i: nat) {
    forall k :: 0 <= k < |more| ==> more[k] != Crash(i)
  }

  /** What a crash right after the stamp gives back. */
  ghost function Restarted(ids: seq<string>, ops: seq<Op>, more: seq<Op>, i: nat, at: int): Live
    requires i < |ids|
  {
    Recovered(ids[i], DoSnapshot(After(ids, ops + more).nodes[i], After(ids, ops).nodes[i].live, at).disk)
  }

  lemma RestartedIsCopy(ids: seq<string>, ops: seq<Op>, more: seq<Op>, i: nat, at: int)
    requires Distinct(ids) && i < |ids| && After(ids, ops + more).nodes[i].clock < at
    ensures Restarted(ids, ops, more, i, at) == OnWire(After(ids, ops).nodes[i].live)
  {
    AlwaysSound(ids, ops + more);
    ReplayNone(OnWire(After(ids, ops).nodes[i].live), ids[i], After(ids, ops + more).nodes[i].disk.wal, at);
  }

  // ----- nonces -----

  /** In this step node i records the nonce, or hears it from a peer, for the first time. */
  ghost predicate Learns(c: Cluster, op: Op, i: nat, nonce: string)
    requires i < |c.nodes|
  {
    && op.node == i && Enabled(c, op) && nonce !in c.nodes[i].live.seen
    && ((op.See? && op.nonce == nonce) || (op.Deliver? && nonce in c.sent[op.message].seen))
  }

  ghost predicate LearnsNothing(ids: seq<string>, ops: seq<Op>, more: seq<Op>, i: nat, nonce: string)
    requires i < |ids|
  {
    forall k :: 0 <= k < |more| ==> !Learns(After(ids, ops + more[..k]), more[k], i, nonce)
  }

  lemma LearnsStep(ids: seq<string>, c: Cluster, op: Op, i: nat, nonce: string)
    requires |c.nodes| == |ids| && i < |ids| && op != Crash(i)
    ensures nonce in Do(ids, c, op).nodes[i].live.seen <==> nonce in c.nodes[i].live.seen || Learns(c, op, i, nonce)
  {
    if Enabled(c, op) && op.node == i && op.Deliver? {
      var n, peer := c.nodes[i], c.sent[op.message];
      AdoptAllKeeps(n.(live := MergedSets(n.live, peer)), peer, op.order);
    }
  }

  lemma LearnsMore(ids: seq<string>, ops: seq<Op>, more: seq<Op>, i: nat, nonce: string)
    requires i < |ids| && more != []
    ensures LearnsNothing(ids, ops, more, i, nonce) <==>
            LearnsNothing(ids, ops, more[..|more| - 1], i, nonce)
            && !Learns(After(ids, ops + more[..|more| - 1]), more[|more| - 1], i, nonce)
  {
    var front, last := more[..|more| - 1], |more| - 1;
    assert more[..last] == front;
    if LearnsNothing(ids, ops, front, i, nonce) && !Learns(After(ids, ops + front), more[last], i, nonce) {
      forall k | 0 <= k < |more| ensures !Learns(After(ids, ops + more[..k]), more[k], i, nonce) {
        if k < last { SameStart(more, k); }
      }
    }
    if LearnsNothing(ids, ops, more, i, nonce) {
      forall k | 0 <= k < |front| ensures !Learns(After(ids, ops + front[..k]), front[k], i, nonce) {
        SameStart(more, k);
      }
    }
  }

  lemma SameStart(more: seq<Op>, k: nat)
    requires k + 1 < |more|
    ensures more[..|more| - 1][k] == more[k] && more[..|more| - 1][..k] == more[..k]
  {
  }

  lemma {:induction false} LearnedSince(ids: seq<string>, ops: seq<Op>, more: seq<Op>, i: nat, nonce: string)
    requires i < |ids| && NoCrash(more, i)
    ensures nonce in After(ids, ops).nodes[i].live.seen <==>
            nonce in After(ids, ops + more).nodes[i].live.seen && LearnsNothing(ids, ops, more, i, nonce)
    decreases |more|
  {
    if more == [] {
      assert ops + more == ops;
    } else {
      var front, op := more[..|more| - 1], more[|more| - 1];
      LearnedSince(ids, ops, front, i, nonce);
      RateLimit.AfterMore(ids, ops, more);
      LearnsStep(ids, After(ids, ops + front), op, i, nonce);
      LearnsMore(ids, ops, more, i, nonce);
    }
  }

  /** A nonce the node knows survives a crash after such a snapshot exactly when the node neither recorded it nor heard
      it from a peer between copy and stamp. */
  lemma StaleCopyKeepsNonceIff(ids: seq<string>, ops: seq<Op>, more: seq<Op>, i: nat, at: int, nonce: string)
    requires Distinct(ids) && i < |ids| && After(ids, ops + more).nodes[i].clock < at && NoCrash(more, i)
    requires nonce in After(ids, ops + more).nodes[i].live.seen
    ensures nonce in Restarted(ids, ops, more, i, at).seen
            <==> forall k :: 0 <= k < |more| ==> !Learns(After(ids, ops + more[..k]), more[k], i, nonce)
  {
    RestartedIsCopy(ids, ops, more, i, at);
    LearnedSince(ids, ops, more, i, nonce);
  }

  // ----- cache entries -----

  /** This step writes the name at node i, adopts a peer's entry for it, or cleans it up. */
  ghost predicate Touches(c: Cluster, op: Op, i: nat, name: Key)
    requires i < |c.nodes|
  {
    op.node == i && Enabled(c, op) &&
    var cache := c.nodes[i].live.cache;
    match op
    case Set(_, x, _, _, _, _, _) => x == name
    case Commit(_, x, _, _, _) => x == name
    case Cleanup(_, now) => name in cache && Expired(cache[name], now)
    case Deliver(_, k, order) =>
      && name in c.sent[k].cache && Newer(cache, name, c.sent[k].cache[name])
      && name in MeshConvergence.NamesIn(order)
    case _ => false
  }

  lemma TouchesStep(ids: seq<string>, c: Cluster, op: Op, i: nat, name: Key)
    requires |c.nodes| == |ids| && i < |ids| && op != Crash(i) && !Touches(c, op, i, name)
    ensures EntryOf(Do(ids, c, op).nodes[i].live, name) == EntryOf(c.nodes[i].live, name)
  {
    if Enabled(c, op) && op.node == i && op.Deliver? {
      var n, peer := c.nodes[i], c.sent[op.message];
      MeshConvergence.AdoptAllCache(n.(live := MergedSets(n.live, peer)), peer, op.order);
    }
  }

  ghost predicate Untouched(ids: seq<string>, ops: seq<Op>, more: seq<Op>, i: nat, name: Key)
    requires i < |ids|
  {
    forall k :: 0 <= k < |more| ==> !Touches(After(ids, ops + more[..k]), more[k], i, name)
  }

  lemma UntouchedMore(ids: seq<string>, ops: seq<Op>, more: seq<Op>, i: nat, name: Key)
    requires i < |ids| && more != []
    ensures Untouched(ids, ops, more, i, name) <==>
            Untouched(ids, ops, more[..|more| - 1], i, name)
            && !Touches(After(ids, ops + more[..|more| - 1]), more[|more| - 1], i, name)
  {
    var front, last := more[..|more| - 1], |more| - 1;
    assert more[..last] == front;
    if Untouched(ids, ops, front, i, name) && !Touches(After(ids, ops + front), more[last], i, name) {
      forall k | 0 <= k < |more| ensures !Touches(After(ids, ops + more[..k]), more[k], i, name) {
        if k < last { SameStart(more, k); }
      }
    }
    if Untouched(ids, ops, more, i, name) {
      forall k | 0 <= k < |front| ensures !Touches(After(ids, ops + front[..k]), front[k], i, name) {
        SameStart(more, k);
      }
    }
  }

  lemma {:induction false} UntouchedSince(ids: seq<string>, ops: seq<Op>, more: seq<Op>, i: nat, name: Key)
    requires i < |ids| && NoCrash(more, i) && Untouched(ids, ops, more, i, name)
    ensures EntryOf(After(ids, ops + more).nodes[i].live, name) == EntryOf(After(ids, ops).nodes[i].live, name)
    decreases |more|
  {
    if more == [] {
      assert ops + more == ops;
    } else {
      var front, op := more[..|more| - 1], more[|more| - 1];
      UntouchedMore(ids, ops, more, i, name);
      UntouchedSince(ids, ops, front, i, name);
      RateLimit.AfterMore(ids, ops, more);
      TouchesStep(ids, After(ids, ops + front), op, i, name);
    }
  }

  /** The copy has the live entry: its value, its writer and its expiry in milliseconds. */
  ghost predicate CopyHas(copy: Live, live: Live, name: Key)
    requires name in live.cache
  {
    && name in copy.cache && copy.cache[name].value == live.cache[name].value
    && copy.cache[name].node == live.cache[name].node
    && Coarse(copy.cache[name].expiresAt) == Coarse(live.cache[name].expiresAt)
  }

  lemma SameEntryCopied(copy: Live, live: Live, name: Key)
    requires name in live.cache && EntryOf(copy, name) == EntryOf(live, name)
    ensures CopyHas(copy, live, name)
  {
  }

  lemma CopyAgrees(copy: Live, live: Live, name: Key)
    requires name in live.cache
    ensures name in OnWire(copy).cache && Agrees(live.cache[name], OnWire(copy).cache[name])
            <==> CopyHas(copy, live, name)
  {
  }

  /** A live entry is given back by a crash after such a snapshot - its value, its writer and its expiry - exactly when
      the copy has it; and it is when no step in between touched the name. */
  lemma StaleCopyKeepsEntryIff(ids: seq<string>, ops: seq<Op>, more: seq<Op>, i: nat, at: int, name: Key)
    requires Distinct(ids) && i < |ids| && After(ids, ops + more).nodes[i].clock < at && NoCrash(more, i)
    requires name in After(ids, ops + more).nodes[i].live.cache
    ensures var copy, n, r := After(ids, ops).nodes[i].live, After(ids, ops + more).nodes[i].live,
                              Restarted(ids, ops, more, i, at);
            name in r.cache && Agrees(n.cache[name], r.cache[name]) <==> CopyHas(copy, n, name)
    ensures var n, r := After(ids, ops + more).nodes[i].live, Restarted(ids, ops, more, i, at);
            Untouched(ids, ops, more, i, name) ==> name in r.cache && Agrees(n.cache[name], r.cache[name])
  {
    RestartedIsCopy(ids, ops, more, i, at);
    if Untouched(ids, ops, more, i, name) {
      UntouchedSince(ids, ops, more, i, name);
      SameEntryCopied(After(ids, ops).nodes[i].live, After(ids, ops + more).nodes[i].live, name);
    }
    CopyAgrees(After(ids, ops).nodes[i].live, After(ids, ops + more).nodes[i].live, name);
  }

  // ----- the version too -----

  /** What was written up to some point of a run is still what its versions name later. */
  lemma {:induction false} TrackedSince(ids: seq<string>, ops: seq<Op>, more: seq<Op>, i: nat)
    returns (reg: CacheVersions.Registry)
    requires Distinct(ids) && i < |ids|
    ensures CacheVersions.Tracked(ids, After(ids, ops + more), reg)
    ensures CacheVersions.Known(reg, After(ids, ops).nodes[i].live.cache)
    decreases |more|
  {
    if more == [] {
      assert ops + more == ops;
      reg := CacheVersions.AlwaysTracked(ids, ops);
    } else {
      var front, op := more[..|more| - 1], more[|more| - 1];
      reg := TrackedSince(ids, ops, front, i);
      AlwaysSound(ids, ops + front);
      RateLimit.AfterMore(ids, ops, more);
      var c := After(ids, ops + front);
      if Enabled(c, op) {
        CacheVersions.TrackedStep(ids, c, reg, op);
        assert CacheVersions.Past(reg, ids[op.node], c.nodes[op.node].clock);
        CacheVersions.AddedExtends(ids, c, reg, op);
        reg := reg + CacheVersions.Added(ids, op);
      }
    }
  }

  /** In every run, the live entry is given back with its version exactly when the copy has it in that version. */
  lemma StaleCopySameVersion(ids: seq<string>, ops: seq<Op>, more: seq<Op>, i: nat, at: int, name: Key)
    requires Distinct(ids) && i < |ids| && After(ids, ops + more).nodes[i].clock < at
    requires name in After(ids, ops + more).nodes[i].live.cache
    ensures var copy, n, r := After(ids, ops).nodes[i].live.cache, After(ids, ops + more).nodes[i].live.cache,
                              Restarted(ids, ops, more, i, at);
            EntryOf(r, name) == Some(CoarseEntry(n[name]))
            <==> name in copy && copy[name].timestamp == n[name].timestamp && copy[name].node == n[name].node
  {
    RestartedIsCopy(ids, ops, more, i, at);
    var reg := TrackedSince(ids, ops, more, i);
    var copy, n := After(ids, ops).nodes[i].live.cache, After(ids, ops + more).nodes[i].live.cache;
    assert CacheVersions.KnownNode(reg, After(ids, ops + more).nodes[i]);
    assert CacheVersions.Names(reg, name, n[name]);
    if name in copy { assert CacheVersions.Names(reg, name, copy[name]); }
  }

  ghost predicate Older(a: CacheEntry, b: CacheEntry) {
    VersionLess(a.timestamp, a.node, b.timestamp, b.node)
  }

  /** If the step touches the name, it does not clean it up, and a local write is stamped later than the version it
      overwrites; the entries that a merge adopts are later in any case. */
  ghost predicate Rises(ids: seq<string>, c: Cluster, op: Op, i: nat, name: Key)
    requires |c.nodes| == |ids| && i < |ids|
  {
    Touches(c, op, i, name) ==>
      var cache := c.nodes[i].live.cache;
      match op
      case Set(_, _, _, _, t, _, _) =>
        name in cache ==> VersionLess(cache[name].timestamp, cache[name].node, t, ids[i])
      case Commit(_, _, _, t, _) => name in cache ==> VersionLess(cache[name].timestamp, cache[name].node, t, ids[i])
      case Cleanup(_, _) => false
      case _ => true
  }

  ghost predicate AllRise(ids: seq<string>, ops: seq<Op>, more: seq<Op>, i: nat, name: Key)
    requires i < |ids|
  {
    forall k :: 0 <= k < |more| ==> Rises(ids, After(ids, ops + more[..k]), more[k], i, name)
  }

  lemma AllRiseFront(ids: seq<string>, ops: seq<Op>, more: seq<Op>, i: nat, name: Key)
    requires i < |ids| && more != [] && AllRise(ids, ops, more, i, name)
    ensures AllRise(ids, ops, more[..|more| - 1], i, name)
    ensures Rises(ids, After(ids, ops + more[..|more| - 1]), more[|more| - 1], i, name)
  {
    var front := more[..|more| - 1];
    forall k | 0 <= k < |front| ensures Rises(ids, After(ids, ops + front[..k]), front[k], i, name) {
      SameStart(more, k);
    }
  }

  /** Nothing, or an earlier version of what is there now. */
  ghost predicate Risen(was: Option<CacheEntry>, now: Option<CacheEntry>) {
    now.Some? && (was.Some? ==> Older(was.value, now.value))
  }

  lemma TouchRises(ids: seq<string>, c: Cluster, op: Op, i: nat, name: Key)
    requires |c.nodes| == |ids| && i < |ids| && Touches(c, op, i, name) && Rises(ids, c, op, i, name)
    ensures Risen(EntryOf(c.nodes[i].live, name), EntryOf(Do(ids, c, op).nodes[i].live, name))
  {
    if op.Deliver? {
      var n, peer := c.nodes[i], c.sent[op.message];
      MeshConvergence.AdoptAllCache(n.(live := MergedSets(n.live, peer)), peer, op.order);
    }
  }

  lemma RisenTwice(a: Option<CacheEntry>, b: Option<CacheEntry>, c: Option<CacheEntry>)
    requires (a == b || Risen(a, b)) && Risen(b, c)
    ensures Risen(a, c)
  {
    if a.Some? && Risen(a, b) {
      VersionTransitive(a.value.timestamp, a.value.node, b.value.timestamp, b.value.node, c.value.timestamp,
                        c.value.node);
    }
  }

  lemma {:induction false} SinceTouched(ids: seq<string>, ops: seq<Op>, more: seq<Op>, i: nat, name: Key)
    requires i < |ids| && NoCrash(more, i) && AllRise(ids, ops, more, i, name)
    ensures var a := EntryOf(After(ids, ops).nodes[i].live, name);
            var b := EntryOf(After(ids, ops + more).nodes[i].live, name);
            if Untouched(ids, ops, more, i, name) then a == b else Risen(a, b)
    decreases |more|
  {
    if more == [] {
      assert ops + more == ops;
    } else {
      var front, op := more[..|more| - 1], more[|more| - 1];
      AllRiseFront(ids, ops, more, i, name);
      SinceTouched(ids, ops, front, i, name);
      UntouchedMore(ids, ops, more, i, name);
      RateLimit.AfterMore(ids, ops, more);
      var c := After(ids, ops + front);
      if Touches(c, op, i, name) {
        TouchRises(ids, c, op, i, name);
        RisenTwice(EntryOf(After(ids, ops).nodes[i].live, name), EntryOf(c.nodes[i].live, name),
                   EntryOf(Do(ids, c, op).nodes[i].live, name));
      } else {
        TouchesStep(ids, c, op, i, name);
      }
    }
  }

  lemma RisenDiffers(copy: Live, live: Live, name: Key)
    requires name in live.cache && Risen(EntryOf(copy, name), EntryOf(live, name)) && name in copy.cache
    ensures CoarseEntry(copy.cache[name]) != CoarseEntry(live.cache[name])
  {
    var a, b := copy.cache[name], live.cache[name];
    VersionTotal(a.timestamp, a.node, b.timestamp, b.node);
  }

  /** With versions that rise at this node, the live entry is given back with its version exactly when no step between
      copy and stamp touched the name. */
  lemma StaleCopyKeepsVersionIff(ids: seq<string>, ops: seq<Op>, more: seq<Op>, i: nat, at: int, name: Key)
    requires Distinct(ids) && i < |ids| && After(ids, ops + more).nodes[i].clock < at && NoCrash(more, i)
    requires name in After(ids, ops + more).nodes[i].live.cache && AllRise(ids, ops, more, i, name)
    ensures var n, r := After(ids, ops + more).nodes[i].live, Restarted(ids, ops, more, i, at);
            EntryOf(r, name) == Some(CoarseEntry(n.cache[name]))
            <==> forall k :: 0 <= k < |more| ==> !Touches(After(ids, ops + more[..k]), more[k], i, name)
  {
    RestartedIsCopy(ids, ops, more, i, at);
    SinceTouched(ids, ops, more, i, name);
    var copy, n := After(ids, ops).nodes[i].live, After(ids, ops + more).nodes[i].live;
    if !Untouched(ids, ops, more, i, name) && name in copy.cache { RisenDiffers(copy, n, name); }
  }
}
