/** A consumer group: its members, what each has acknowledged, and what is pending. */
module ConsumerGroups {
  import opened Wrappers
  import opened StreamLog
  import opened Retention
  import opened Streams

  datatype Member = Member(id: string, lastOffset: string, joinedAt: int, lastHeartbeat: int, node: string)

  datatype Pending = Pending(entryId: string, consumerId: string, timestamp: int)

  datatype Group = Group(members: map<string, Member>, offsets: map<string, string>, pending: seq<Pending>,
                         timestamp: int)

  const NO_GROUP := Group(map[], map[], [], 0)

  // ----- what each operation does -----

  function WithConsumer(g: Group, consumer: string, node: string, now: int): Group {
    if consumer in g.members then g
    else g.(members := g.members[consumer := Member(consumer, "", now, now, node)],
            offsets := g.offsets[consumer := "0"], timestamp := g.timestamp + 1)
  }

  function WithoutConsumer(g: Group, consumer: string): Group {
    if consumer !in g.members then g
    else g.(members := g.members - {consumer}, offsets := g.offsets - {consumer}, timestamp := g.timestamp + 1)
  }

  /** The pending records but those of one entry for one consumer. */
  function Cleared(pending: seq<Pending>, consumer: string, entryId: string): seq<Pending> {
    if pending == [] then []
    else
      var last := pending[|pending| - 1];
      Cleared(pending[..|pending| - 1], consumer, entryId)
      + (if last.entryId != entryId || last.consumerId != consumer then [last] else [])
  }

  function Acked(g: Group, consumer: string, entryId: string, now: int): Group {
    if consumer !in g.members then g
    else g.(members := g.members[consumer := g.members[consumer].(lastOffset := entryId, lastHeartbeat := now)],
            offsets := g.offsets[consumer := entryId],
            pending := Cleared(g.pending, consumer, entryId), timestamp := g.timestamp + 1)
  }

  function PendingOf(entries: seq<Entry>, consumer: string, now: int): (r: seq<Pending>)
    ensures |r| == |entries|
    ensures forall i :: 0 <= i < |entries| ==> r[i] == Pending(entries[i].id, consumer, now)
  {
    seq(|entries|, i requires 0 <= i < |entries| => Pending(entries[i].id, consumer, now))
  }

  function Offset(g: Group, consumer: string): Option<string> {
    if consumer in g.offsets then Some(g.offsets[consumer]) else None
  }

  // ----- what they keep -----

  /** Every member has an offset and no one else does, and the two records of it agree. */
  ghost predicate Consistent(g: Group) {
    && g.members.Keys == g.offsets.Keys
    && forall c :: c in g.members ==>
         && g.members[c].id == c
         && (g.members[c].lastOffset == g.offsets[c] || (g.members[c].lastOffset == "" && g.offsets[c] == "0"))
  }

  lemma StaysConsistent(g: Group, consumer: string, node: string, entryId: string, now: int)
    requires Consistent(g)
    ensures Consistent(WithConsumer(g, consumer, node, now)) && Consistent(WithoutConsumer(g, consumer))
    ensures Consistent(Acked(g, consumer, entryId, now))
  {
  }

  lemma {:induction false} ClearedHas(pending: seq<Pending>, consumer: string, entryId: string, p: Pending)
    ensures p in Cleared(pending, consumer, entryId) <==>
            p in pending && !(p.entryId == entryId && p.consumerId == consumer)
  {
    if pending != [] {
      ClearedHas(pending[..|pending| - 1], consumer, entryId, p);
      assert pending == pending[..|pending| - 1] + [pending[|pending| - 1]];
    }
  }

  /** The records that stay keep their order. */
  lemma {:induction false} ClearedConcat(a: seq<Pending>, b: seq<Pending>, consumer: string, entryId: string)
    ensures Cleared(a + b, consumer, entryId) == Cleared(a, consumer, entryId) + Cleared(b, consumer, entryId)
    decreases |b|
  {
    if b == [] {
      assert a + b == a;
    } else {
      FrontOfBoth(a, b);
      ClearedConcat(a, b[..|b| - 1], consumer, entryId);
    }
  }

  // ----- the key a group is filed under -----

  function GroupKey(stream: string, group: string): string {
    stream + ":" + group
  }

  /** Groups of two streams can be filed under one key exactly when the name of one stream is the other's,
      a colon and something more. */
  lemma GroupKeysMeet(s: string, t: string)
    requires s != t
    ensures (exists g, h :: GroupKey(s, g) == GroupKey(t, h)) <==> (s + ":" <= t || t + ":" <= s)
  {
    forall g, h | GroupKey(s, g) == GroupKey(t, h) ensures s + ":" <= t || t + ":" <= s {
      KeysMeet(s, g, t, h);
    }
    if s + ":" <= t {
      assert t == s + ":" + t[|s| + 1..];
      assert GroupKey(s, t[|s| + 1..] + ":") == GroupKey(t, "");
    }
    if t + ":" <= s {
      assert s == t + ":" + s[|t| + 1..];
      assert GroupKey(t, s[|t| + 1..] + ":") == GroupKey(s, "");
    }
  }

  lemma KeysMeet(s: string, g: string, t: string, h: string)
    requires s != t && GroupKey(s, g) == GroupKey(t, h)
    ensures s + ":" <= t || t + ":" <= s
  {
    var k := GroupKey(s, g);
    assert k[..|s|] == s && k[..|t|] == t && k[|s|] == ':' && k[|t|] == ':';
    if |s| < |t| {
      assert t[..|s| + 1] == k[..|s| + 1] == s + ":";
    } else {
      assert |t| < |s|;
      assert s[..|t| + 1] == k[..|t| + 1] == t + ":";
    }
  }

  class ConsumerGroup {
    var members: map<string, Member>
    var offsets: map<string, string>
    var pending: seq<Pending>
    var timestamp: int

    function State(): Group
      reads this
    {
      Group(members, offsets, pending, timestamp)
    }

    constructor ()
      ensures State() == NO_GROUP && Consistent(State())
    {
      members, offsets, pending, timestamp := map[], map[], [], 0;
    }

    /** Fails on a consumer that is a member already. */
    method AddConsumer(consumer: string, node: string, now: int) returns (ok: bool)
      modifies this
      ensures ok <==> consumer !in old(members)
      ensures State() == WithConsumer(old(State()), consumer, node, now)
      ensures consumer in members && pending == old(pending) && (ok ==> timestamp == old(timestamp) + 1)
      ensures ok ==> consumer in offsets && offsets[consumer] == "0"
      ensures ok ==> members[consumer] == Member(consumer, "", now, now, node)
      ensures forall c :: c in old(members) && c in old(offsets) ==>
                          c in members && members[c] == old(members)[c] && c in offsets && offsets[c] == old(offsets)[c]
    {
      if consumer in members { return false; }
      timestamp := timestamp + 1;
      members := members[consumer := Member(consumer, "", now, now, node)];
      offsets := offsets[consumer := "0"];
      return true;
    }

    method RemoveConsumer(consumer: string) returns (ok: bool)
      modifies this
      ensures ok <==> consumer in old(members)
      ensures State() == WithoutConsumer(old(State()), consumer)
      ensures consumer !in members && pending == old(pending)
      ensures ok ==> consumer !in offsets && timestamp == old(timestamp) + 1
      ensures forall c :: c in old(members) && c in old(offsets) && c != consumer ==>
                          c in members && members[c] == old(members)[c] && c in offsets && offsets[c] == old(offsets)[c]
    {
      if consumer !in members { return false; }
      members := members - {consumer};
      offsets := offsets - {consumer};
      timestamp := timestamp + 1;
      return true;
    }

    /** Records an acknowledgement and clears the entry from the consumer's pending records. */
    method UpdateOffset(consumer: string, entryId: string, now: int) returns (ok: bool)
      modifies this
      ensures ok <==> consumer in old(members)
      ensures State() == Acked(old(State()), consumer, entryId, now)
      ensures ok ==> consumer in offsets && offsets[consumer] == entryId && timestamp == old(timestamp) + 1
      ensures ok ==> consumer in members && members[consumer].lastOffset == entryId
                     && members[consumer].lastHeartbeat == now
      ensures ok ==> forall p :: p in pending <==>
                       p in old(pending) && !(p.entryId == entryId && p.consumerId == consumer)
      ensures forall c :: c in old(offsets) && c != consumer ==> c in offsets && offsets[c] == old(offsets)[c]
    {
      if consumer !in members { return false; }
      members := members[consumer := members[consumer].(lastOffset := entryId, lastHeartbeat := now)];
      offsets := offsets[consumer := entryId];
      var kept := [];
      for i := 0 to |pending|
        invariant kept == Cleared(pending[..i], consumer, entryId) && pending == old(pending)
        invariant State() == old(State()).(members := members, offsets := offsets)
        invariant members ==
                  old(members)[consumer := old(members)[consumer].(lastOffset := entryId, lastHeartbeat := now)]
        invariant offsets == old(offsets)[consumer := entryId]
      {
        assert pending[..i + 1][..i] == pending[..i];
        if pending[i].entryId != entryId || pending[i].consumerId != consumer {
          kept := kept + [pending[i]];
        }
      }
      assert pending[..|pending|] == pending;
      forall p ensures p in kept <==> p in pending && !(p.entryId == entryId && p.consumerId == consumer) {
        ClearedHas(pending, consumer, entryId, p);
      }
      pending := kept;
      timestamp := timestamp + 1;
      return true;
    }

    method GetOffset(consumer: string) returns (offset: Option<string>)
      ensures offset == Offset(State(), consumer)
    {
      if consumer !in offsets { return None; }
      return Some(offsets[consumer]);
    }

    method AddPending(entryId: string, consumer: string, now: int)
      modifies this`pending
      ensures pending == old(pending) + [Pending(entryId, consumer, now)]
    {
      pending := pending + [Pending(entryId, consumer, now)];
    }
  }

  // ----- reading through a group -----

  /** The group after a read: the consumer is a member, and what it was given is pending. */
  function AfterRead(g: Group, consumer: string, node: string, entries: seq<Entry>, now: int): Group {
    var joined := WithConsumer(g, consumer, node, now);
    joined.(pending := joined.pending + PendingOf(entries, consumer, now))
  }

  /** What a read returns: the entries after the consumer's offset, and from the beginning for a new one. */
  function ReadResult(entries: seq<Entry>, g: Group, consumer: string, limit: int): seq<Entry> {
    RangeOf(entries, if consumer in g.offsets then g.offsets[consumer] else "0", "-", limit)
  }

  lemma ReadSlice(entries: seq<Entry>, g: Group, consumer: string, limit: int)
    ensures var start := StartOf(entries, if consumer in g.offsets then g.offsets[consumer] else "0");
            ReadResult(entries, g, consumer, limit) == entries[start..start + Limited(limit, |entries| - start)]
  {
  }

  lemma PendingMore(entries: seq<Entry>, i: nat, consumer: string, now: int)
    requires i < |entries|
    ensures PendingOf(entries[..i + 1], consumer, now) ==
            PendingOf(entries[..i], consumer, now) + [Pending(entries[i].id, consumer, now)]
  {
  }

  /** Makes each entry pending for the consumer. */
  method AddAllPending(g: ConsumerGroup, entries: seq<Entry>, consumer: string, now: int)
    modifies g`pending
    ensures g.pending == old(g.pending) + PendingOf(entries, consumer, now)
  {
    for i := 0 to |entries|
      invariant g.pending == old(g.pending) + PendingOf(entries[..i], consumer, now)
    {
      PendingMore(entries, i, consumer, now);
      g.AddPending(entries[i].id, consumer, now);
    }
    assert entries[..|entries|] == entries;
  }

  /** Reads for a consumer, who joins the group on the first read. */
  method ReadGroup(s: Stream, g: ConsumerGroup, consumer: string, limit: int, now: int) returns (entries: seq<Entry>)
    requires s.Valid() && Consistent(g.State())
    modifies g
    ensures entries == ReadResult(s.entries, old(g.State()), consumer, limit)
    ensures var start := StartOf(s.entries, if consumer in old(g.offsets) then old(g.offsets[consumer]) else "0");
            entries == s.entries[start..start + Limited(limit, |s.entries| - start)]
    ensures g.State() == AfterRead(old(g.State()), consumer, s.nodeId, entries, now) && Consistent(g.State())
    ensures g.pending == old(g.pending) + PendingOf(entries, consumer, now) && consumer in g.members
    ensures consumer in old(g.offsets) ==> g.offsets == old(g.offsets) && g.members == old(g.members)
  {
    ReadSlice(s.entries, g.State(), consumer, limit);
    if consumer !in g.members {
      var ok := g.AddConsumer(consumer, s.nodeId, now);
    }
    var offset := g.GetOffset(consumer);
    entries := s.Range(offset.value, "-", limit);
    AddAllPending(g, entries, consumer, now);
  }

  // ----- by name -----

  datatype ReadOutcome = Given(entries: seq<Entry>) | NoStream | NoGroup

  /** Looks the stream and the group up by name, and reads. */
  method XReadGroup(streams: map<string, Stream>, groups: map<string, ConsumerGroup>, stream: string, group: string,
      consumer: string, limit: int, now: int) returns (r: ReadOutcome)
    requires stream in streams ==> streams[stream].Valid()
    requires GroupKey(stream, group) in groups ==> Consistent(groups[GroupKey(stream, group)].State())
    modifies if stream in streams && GroupKey(stream, group) in groups then {groups[GroupKey(stream, group)]} else {}
    ensures r == NoStream <==> stream !in streams
    ensures r == NoGroup <==> stream in streams && GroupKey(stream, group) !in groups
    ensures r.Given? ==>
              var s, g := streams[stream], groups[GroupKey(stream, group)];
              var start := StartOf(s.entries, if consumer in old(g.offsets) then old(g.offsets[consumer]) else "0");
              && r.entries == ReadResult(s.entries, old(g.State()), consumer, limit)
              && r.entries == s.entries[start..start + Limited(limit, |s.entries| - start)]
              && g.State() == AfterRead(old(g.State()), consumer, s.nodeId, r.entries, now) && Consistent(g.State())
  {
    if stream !in streams { return NoStream; }
    var key := GroupKey(stream, group);
    if key !in groups { return NoGroup; }
    var entries := ReadGroup(streams[stream], groups[key], consumer, limit, now);
    return Given(entries);
  }

  /** Looks the group up by name, and acknowledges. */
  method XAck(groups: map<string, ConsumerGroup>, stream: string, group: string, consumer: string, entryId: string,
      now: int) returns (ok: bool)
    modifies if GroupKey(stream, group) in groups then {groups[GroupKey(stream, group)]} else {}
    ensures ok <==> GroupKey(stream, group) in groups && consumer in old(groups[GroupKey(stream, group)].members)
    ensures GroupKey(stream, group) in groups ==>
              var g := groups[GroupKey(stream, group)]; g.State() == Acked(old(g.State()), consumer, entryId, now)
  {
    var key := GroupKey(stream, group);
    if key !in groups { return false; }
    ok := groups[key].UpdateOffset(consumer, entryId, now);
  }
}
