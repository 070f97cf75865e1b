/** The disk of a node: the write-ahead log and the latest snapshot. */
module Persistence {
  import opened Wrappers
  import opened MeshNode

  /** An operation as it is logged: stamped with the time, which is also its version when it has none. */
  function Stamped(op: Log, now: int): Log {
    match op
    case Consume(_, key) => Consume(now, key)
    case Seen(_, key) => Seen(now, key)
    case Put(_, name, e) => Put(now, name, e.(timestamp := Version(e.timestamp, now)))
  }

  function NewerThan(wal: seq<Log>, after: int): seq<Log>
    decreases |wal|
  {
    if wal == [] then []
    else NewerThan(wal[..|wal| - 1], after) + (if wal[|wal| - 1].at > after then [wal[|wal| - 1]] else [])
  }

  function ApplyAll(s: Live, self: string, entries: seq<Log>): Live
    decreases |entries|
  {
    if entries == [] then s else Apply(ApplyAll(s, self, entries[..|entries| - 1]), self, entries[|entries| - 1])
  }

  /** The later entries of two logs are those of the one and then those of the other. */
  lemma {:induction false} NewerThanConcat(a: seq<Log>, b: seq<Log>, after: int)
    ensures NewerThan(a + b, after) == NewerThan(a, after) + NewerThan(b, after)
    decreases |b|
  {
    if b == [] {
      assert a + b == a;
    } else {
      FrontOfBoth(a, b);
      NewerThanConcat(a, b[..|b| - 1], after);
    }
  }

  /** A log entry is later than a time or it is not. */
  lemma NewerThanOne(entry: Log, after: int)
    ensures NewerThan([entry], after) == if entry.at > after then [entry] else []
  {
    assert [entry][..0] == [];
    assert NewerThan([], after) == [];
  }

  /** Filtering first and applying then is what recovery is defined as. */
  lemma {:induction false} ReplayIsFilterThenApply(s: Live, self: string, wal: seq<Log>, after: int)
    ensures Replay(s, self, wal, after) == ApplyAll(s, self, NewerThan(wal, after))
    decreases |wal|
  {
    if wal != [] {
      ReplayIsFilterThenApply(s, self, wal[..|wal| - 1], after);
      var front := NewerThan(wal[..|wal| - 1], after);
      if wal[|wal| - 1].at > after {
        assert (front + [wal[|wal| - 1]])[..|front|] == front;
      } else {
        assert front + [] == front;
      }
    }
  }

  class PersistenceEngine {
    var wal: seq<Log>
    var snapshot: Option<Snapshot>

    constructor (disk: Disk)
      ensures Disk() == disk
    {
      wal, snapshot := disk.wal, disk.snapshot;
    }

    function Disk(): Disk
      reads this
    {
      MeshNode.Disk(wal, snapshot)
    }

    method LogOperation(op: Log, now: int)
      modifies this`wal
      ensures wal == old(wal) + [Stamped(op, now)] && Stamped(op, now).at == now
      ensures op.Consume? ==> wal == old(wal) + [Consume(now, op.key)]
      ensures op.Seen? ==> wal == old(wal) + [Seen(now, op.key)]
      ensures op.Put? ==>
                var version := if op.entry.timestamp == 0 then now else op.entry.timestamp;
                wal == old(wal) + [Put(now, op.name, op.entry.(timestamp := version))]
    {
      wal := wal + [Stamped(op, now)];
    }

    method CreateSnapshot(state: Live, now: int)
      modifies this`snapshot
      ensures snapshot == Some(Snapshot(now, state))
    {
      snapshot := Some(Snapshot(now, state));
    }

    /** The log entries after a time, in order. */
    method ReplayWAL(after: int) returns (entries: seq<Log>)
      ensures entries == NewerThan(wal, after)
    {
      entries := [];
      for i := 0 to |wal|
        invariant entries == NewerThan(wal[..i], after)
      {
        assert wal[..i + 1][..i] == wal[..i];
        if wal[i].at > after {
          entries := entries + [wal[i]];
        }
      }
      assert wal[..|wal|] == wal;
    }

    method RotateWAL()
      modifies this`wal
      ensures wal == []
    {
      wal := [];
    }
  }
}
