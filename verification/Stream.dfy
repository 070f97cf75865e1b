/** The append-only stream: its log with an index by identifier, both updated in place. */
module Streams {
  import opened Wrappers
  import opened StreamLog
  import opened Retention

  /** Appends the entries whose identifiers are not there yet. */
  function Unite(mine: seq<Entry>, peer: seq<Entry>): seq<Entry> {
    if peer == [] then mine
    else
      var before, last := Unite(mine, peer[..|peer| - 1]), peer[|peer| - 1];
      if Find(before, last.id).Some? then before else before + [last]
  }

  /** A merge with nothing new leaves the log alone; otherwise the union is put in order and cut. */
  ghost function MergedLog(p: Policy, now: int, mine: seq<Entry>, peer: seq<Entry>): seq<Entry> {
    var all := Unite(mine, peer);
    if |all| == |mine| then mine else Retained(p, now, SortEntries(all))
  }

  function NewEntry(now: int, sequence: int, node: string, fields: map<string, string>): Entry {
    Entry(EntryId(now, sequence, node), now, sequence, node, fields)
  }

  // ----- keeping the index exact -----

  ghost predicate Exact(index: map<string, Entry>, entries: seq<Entry>) {
    DistinctIds(entries) && Indexes(index, entries)
  }

  lemma WithoutMiddle(pre: seq<Entry>, e: Entry, post: seq<Entry>, i: nat)
    requires i < |pre + post|
    ensures (pre + post)[i] == (pre + [e] + post)[if i < |pre| then i else i + 1]
  {
  }

  lemma IdsWithout(pre: seq<Entry>, e: Entry, post: seq<Entry>)
    requires DistinctIds(pre + [e] + post)
    ensures DistinctIds(pre + post) && forall i :: 0 <= i < |pre + post| ==> (pre + post)[i].id != e.id
  {
    var all, rest := pre + [e] + post, pre + post;
    assert all[|pre|] == e;
    forall i | 0 <= i < |rest| ensures rest[i] == all[if i < |pre| then i else i + 1] && rest[i].id != e.id {
      WithoutMiddle(pre, e, post, i);
    }
  }

  lemma IndexDrops(index: map<string, Entry>, pre: seq<Entry>, e: Entry, post: seq<Entry>)
    requires Exact(index, pre + [e] + post)
    ensures Exact(index - {e.id}, pre + post)
  {
    var all, rest := pre + [e] + post, pre + post;
    IdsWithout(pre, e, post);
    forall i | 0 <= i < |rest| ensures rest[i].id in index && index[rest[i].id] == rest[i] {
      WithoutMiddle(pre, e, post, i);
    }
    forall id | id in index && id != e.id ensures index[id] in rest {
      var k :| 0 <= k < |all| && all[k] == index[id];
      assert all[|pre|] == e;
      WithoutMiddle(pre, e, post, if k < |pre| then k else k - 1);
    }
  }

  /** The first i entries have been looked at; an index that was exact still is, without the dropped ones. */
  ghost predicate DroppedTo(all: seq<Entry>, i: nat, now: int, maxAge: int, exact: bool, kept: seq<Entry>,
      index: map<string, Entry>)
    requires i <= |all|
  {
    kept == Young(all[..i], now, maxAge) && (exact ==> Exact(index, kept + all[i..]))
  }

  lemma DropNext(all: seq<Entry>, i: nat, now: int, maxAge: int, exact: bool, kept: seq<Entry>,
      index: map<string, Entry>)
    requires i < |all| && DroppedTo(all, i, now, maxAge, exact, kept, index)
    ensures if TooOld(all[i], now, maxAge) then DroppedTo(all, i + 1, now, maxAge, exact, kept, index - {all[i].id})
            else DroppedTo(all, i + 1, now, maxAge, exact, kept + [all[i]], index)
  {
    assert all[..i + 1][..i] == all[..i];
    assert kept + all[i..] == kept + [all[i]] + all[i + 1..];
    if exact && TooOld(all[i], now, maxAge) { IndexDrops(index, kept, all[i], all[i + 1..]); }
  }

  lemma DropEnds(all: seq<Entry>, now: int, maxAge: int, exact: bool, kept: seq<Entry>, index: map<string, Entry>)
    ensures (exact ==> Exact(index, all)) ==> DroppedTo(all, 0, now, maxAge, exact, [], index)
    ensures DroppedTo(all, |all|, now, maxAge, exact, kept, index) ==>
              kept == Young(all, now, maxAge) && (exact ==> Exact(index, kept))
  {
    assert all[..|all|] == all && kept + all[|all|..] == kept && [] + all[0..] == all;
  }

  lemma FirstDrops(index: map<string, Entry>, entries: seq<Entry>)
    requires entries != [] && Exact(index, entries)
    ensures Exact(index - {entries[0].id}, entries[1..])
  {
    assert entries == [] + [entries[0]] + entries[1..];
    IndexDrops(index, [], entries[0], entries[1..]);
    assert [] + entries[1..] == entries[1..];
  }

  lemma IndexAdds(index: map<string, Entry>, entries: seq<Entry>, e: Entry)
    requires Exact(index, entries) && e.id !in index
    ensures Exact(index[e.id := e], entries + [e])
  {
    var more := entries + [e];
    assert more[|entries|] == e;
    forall id | id in index ensures index[id] in more {
      var k :| 0 <= k < |entries| && entries[k] == index[id];
      assert more[k] == entries[k];
    }
  }

  lemma IndexFinds(index: map<string, Entry>, entries: seq<Entry>, id: string)
    requires Exact(index, entries)
    ensures id in index <==> Find(entries, id).Some?
    ensures id in index ==> entries[Find(entries, id).value] == index[id]
  {
    if id in index {
      var k :| 0 <= k < |entries| && entries[k] == index[id];
    }
  }

  lemma {:induction false} InsertIntoIds(sorted: seq<Entry>, e: Entry)
    requires DistinctIds(sorted) && forall i :: 0 <= i < |sorted| ==> sorted[i].id != e.id
    ensures DistinctIds(InsertInto(sorted, e))
  {
    if sorted != [] && Before(e, sorted[|sorted| - 1]) {
      var front, last := sorted[..|sorted| - 1], sorted[|sorted| - 1];
      InsertIntoIds(front, e);
      InsertIntoElements(front, e);
      var r := InsertInto(front, e);
      forall i | 0 <= i < |r| ensures r[i].id != last.id { assert r[i] in Elements(front) + {e}; }
    }
  }

  lemma {:induction false} SortIds(entries: seq<Entry>)
    requires DistinctIds(entries)
    ensures DistinctIds(SortEntries(entries))
  {
    if entries != [] {
      var front, last := entries[..|entries| - 1], entries[|entries| - 1];
      SortIds(front);
      SortElements(front);
      forall i | 0 <= i < |front| ensures SortEntries(front)[i].id != last.id {
        assert SortEntries(front)[i] in Elements(front);
      }
      InsertIntoIds(SortEntries(front), last);
    }
  }

  lemma SortIndexes(index: map<string, Entry>, entries: seq<Entry>)
    requires Exact(index, entries)
    ensures Exact(index, SortEntries(entries))
  {
    SortIds(entries);
    SortElements(entries);
    var sorted := SortEntries(entries);
    forall i | 0 <= i < |sorted| ensures sorted[i].id in index && index[sorted[i].id] == sorted[i] {
      assert sorted[i] in Elements(entries);
    }
    forall id | id in index ensures index[id] in sorted { assert index[id] in Elements(entries); }
  }

  class Stream {
    const nodeId: string
    const policy: Policy
    var entries: seq<Entry>
    var index: map<string, Entry>
    var lastSequence: int
    var timestamp: int

    /** The index holds exactly the identifiers in the log, and none occurs twice. */
    ghost predicate Valid()
      reads this
    {
      Exact(index, entries)
    }

    constructor (nodeId: string, now: int)
      ensures Valid() && entries == [] && lastSequence == 0 && this.nodeId == nodeId && policy == DEFAULT_POLICY
    {
      this.nodeId, policy := nodeId, DEFAULT_POLICY;
      entries, index, lastSequence, timestamp := [], map[], 0, now;
    }

    /** Appends an entry, even where its timestamp is not the latest, and applies retention. An identifier
        that is taken already would leave the index short of an entry. */
    method Add(fields: map<string, string>, now: int, later: int) returns (entry: Entry)
      modifies this
      ensures entry == NewEntry(now, old(lastSequence) + 1, nodeId, fields)
      ensures entry.fields == fields && entry.timestamp == now && entry.sequence == lastSequence
      ensures entry.node == nodeId && entry.id == EntryId(now, lastSequence, nodeId)
      ensures lastSequence == old(lastSequence) + 1 && timestamp == now
      ensures entries == Retained(policy, later, old(entries) + [entry])
      ensures old(Valid()) && entry.id !in old(index) ==> Valid()
    {
      timestamp := now;
      lastSequence := lastSequence + 1;
      entry := NewEntry(timestamp, lastSequence, nodeId, fields);
      if Valid() && entry.id !in index { IndexAdds(index, entries, entry); }
      entries := entries + [entry];
      index := index[entry.id := entry];
      ApplyRetention(later);
    }

    /** The index of a range's first entry, and of its last one. */
    method StartIndex(startId: string) returns (i: nat)
      requires Valid()
      ensures i == StartOf(entries, startId)
    {
      i := 0;
      if startId != "0" && startId != "" {
        var k := Lookup(startId);
        if k.Some? { i := k.value + 1; }
      }
    }

    method EndIndex(endId: string) returns (i: int)
      requires Valid()
      ensures i == EndOf(entries, endId)
    {
      i := |entries| - 1;
      if endId != "-" && endId != "" {
        var k := Lookup(endId);
        if k.Some? { i := k.value; }
      }
    }

    /** The entries between two identifiers, the first excluded, up to a limit. */
    method Range(startId: string, endId: string, limit: int) returns (result: seq<Entry>)
      requires Valid()
      ensures result == RangeOf(entries, startId, endId, limit)
      ensures var start, end := StartOf(entries, startId), EndOf(entries, endId);
              result == if start > end then [] else entries[start..start + Limited(limit, end + 1 - start)]
    {
      var startIdx := StartIndex(startId);
      var endIdx := EndIndex(endId);
      result := Collect(startIdx, endIdx, limit);
    }

    /** The position of an identifier that is in the index. */
    method Lookup(id: string) returns (i: Option<nat>)
      requires Valid()
      ensures i == Find(entries, id)
    {
      IndexFinds(index, entries, id);
      if id !in index { return None; }
      var k := PositionOf(index[id].id);
      return Some(k);
    }

    method Collect(start: nat, end: int, limit: int) returns (result: seq<Entry>)
      requires start <= |entries| && end < |entries|
      ensures result == Between(entries, start, end, limit)
    {
      result := [];
      var i := start;
      while i <= end && |result| < limit
        invariant start <= i <= |entries| && (start <= end ==> i <= end + 1) && (start > end ==> i == start)
        invariant result == entries[start..i] && (|result| <= limit || i == start)
      {
        assert entries[start..i + 1] == entries[start..i] + [entries[i]];
        result := result + [entries[i]];
        i := i + 1;
      }
      assert start <= end ==> i == start + Limited(limit, end + 1 - start);
    }

    method PositionOf(id: string) returns (i: nat)
      requires Find(entries, id).Some?
      ensures Find(entries, id) == Some(i)
    {
      i := 0;
      while entries[i].id != id
        invariant i < |entries| && Find(entries, id) == FindFrom(entries, id, i)
        decreases |entries| - i
      {
        i := i + 1;
      }
    }

    /** Takes over the peer's entries that are not here yet. */
    method MergeSnapshot(peer: seq<Entry>, now: int)
      requires Valid()
      modifies this`entries, this`index
      ensures Valid() && entries == MergedLog(policy, now, old(entries), peer)
      ensures (exists k :: 0 <= k < |peer| && peer[k].id !in old(index)) ==>
                forall i, j :: 0 <= i < j < |entries| ==>
                  || entries[i].timestamp < entries[j].timestamp
                  || (entries[i].timestamp == entries[j].timestamp && entries[i].sequence < entries[j].sequence)
                  || (entries[i].timestamp == entries[j].timestamp && entries[i].sequence == entries[j].sequence
                      && !Order.LexLess(entries[j].node, entries[i].node))
    {
      var changed := false;
      for i := 0 to |peer|
        invariant Valid() && entries == Unite(old(entries), peer[..i])
        invariant |entries| >= |old(entries)| && (changed <==> |entries| != |old(entries)|)
        invariant !changed ==> entries == old(entries) && forall k :: 0 <= k < i ==> peer[k].id in old(index)
        invariant !changed ==> index == old(index)
      {
        assert peer[..i + 1][..i] == peer[..i];
        IndexFinds(index, entries, peer[i].id);
        if peer[i].id !in index {
          IndexAdds(index, entries, peer[i]);
          entries := entries + [peer[i]];
          index := index[peer[i].id := peer[i]];
          changed := true;
        }
      }
      assert peer[..|peer|] == peer;
      if changed {
        SortIndexes(index, entries);
        SortAscends(entries);
        entries := SortEntries(entries);
        RetainedAscends(policy, now, entries);
        ApplyRetention(now);
        AscendingMeaning(entries);
      }
    }

    /** Removes what is too old, then the oldest beyond the count, then the oldest beyond the bytes. */
    method ApplyRetention(now: int)
      modifies this`entries, this`index
      ensures entries == Retained(policy, now, old(entries))
      ensures |entries| <= policy.maxEntries && (entries == [] || Size(entries) <= policy.maxSize)
      ensures forall i :: 0 <= i < |entries| ==> now - entries[i].timestamp <= policy.maxAge
      ensures old(Valid()) ==> Valid()
    {
      RetainedMeets(policy, now, entries);
      DropOld(now);
      DropExcess();
      DropHeavy();
    }

    method DropOld(now: int)
      modifies this`entries, this`index
      ensures entries == Young(old(entries), now, policy.maxAge)
      ensures old(Valid()) ==> Valid()
    {
      var kept := [];
      ghost var exact := Valid();
      DropEnds(entries, now, policy.maxAge, exact, kept, index);
      for i := 0 to |entries|
        invariant entries == old(entries) && DroppedTo(entries, i, now, policy.maxAge, exact, kept, index)
      {
        DropNext(entries, i, now, policy.maxAge, exact, kept, index);
        if now - entries[i].timestamp <= policy.maxAge {
          kept := kept + [entries[i]];
        } else {
          index := index - {entries[i].id};
        }
      }
      DropEnds(entries, now, policy.maxAge, exact, kept, index);
      entries := kept;
    }

    method DropExcess()
      modifies this`entries, this`index
      ensures entries == LastOf(policy.maxEntries, old(entries))
      ensures old(Valid()) ==> Valid()
    {
      if |entries| > policy.maxEntries {
        var toRemove := |entries| - policy.maxEntries;
        for i := 0 to toRemove
          invariant entries == old(entries)
          invariant old(Valid()) ==> Exact(index, entries[i..])
        {
          assert entries[i..][1..] == entries[i + 1..] && entries[i..][0] == entries[i];
          if old(Valid()) { FirstDrops(index, entries[i..]); }
          index := index - {entries[i].id};
        }
        entries := entries[toRemove..];
      }
    }

    method TotalSize() returns (size: nat)
      ensures size == Size(entries)
    {
      size := 0;
      assert entries[0..] == entries;
      for i := 0 to |entries|
        invariant size + Size(entries[i..]) == Size(entries)
      {
        var bytes := SizeOf(entries[i]);
        assert entries[i..][1..] == entries[i + 1..];
        size := size + bytes;
      }
    }

    method DropHeavy()
      modifies this`entries, this`index
      ensures entries == Light(old(entries), policy.maxSize)
      ensures old(Valid()) ==> Valid()
    {
      var size := TotalSize();
      while |entries| > 0 && size > policy.maxSize
        invariant size == Size(entries) && Light(entries, policy.maxSize) == Light(old(entries), policy.maxSize)
        invariant old(Valid()) ==> Valid()
        decreases |entries|
      {
        var e := entries[0];
        var bytes := SizeOf(e);
        size := size - bytes;
        if Valid() { FirstDrops(index, entries); }
        index := index - {e.id};
        entries := entries[1..];
      }
    }
  }

  /** The bytes of an entry: its identifier, its node and its fields. */
  method SizeOf(e: Entry) returns (size: nat)
    ensures size == EntrySize(e) == |e.id| + |e.node| + FieldsSize(e.fields)
  {
    size := |e.id| + |e.node|;
    var rest := e.fields;
    while rest != map[]
      invariant size + FieldsSize(rest) == EntrySize(e)
      decreases |rest|
    {
      var k :| k in rest;
      FieldsSizeTakes(rest, k);
      size := size + |k| + |rest[k]|;
      rest := rest - {k};
    }
  }
}
