/** Reading a stream through a consumer group on one node, while entries are appended and retention removes
    them: a reader loses its place in no run in which the clock does not go back. */
module Consumption {
  import opened Wrappers
  import opened StreamLog
  import opened Retention
  import opened Streams
  import opened ConsumerGroups

  /** `log` is everything ever appended, of which `kept` is still there. */
  datatype World = World(log: seq<Entry>, kept: seq<Entry>, clock: int, group: Group)

  /** Acknowledgements name any string: a delivered entry, an evicted one, or none at all. */
  datatype Op =
    | Append(fields: map<string, string>, now: int, later: int)
    | Trim(now: int)
    | Read(consumer: string, limit: int, now: int)
    | Ack(consumer: string, entryId: string, now: int)
    | Leave(consumer: string)

  const START := World([], [], 0, NO_GROUP)

  ghost predicate Enabled(w: World, op: Op) {
    match op
    case Append(_, now, later) => w.clock <= now <= later
    case Trim(now) => w.clock <= now
    case Read(_, _, now) => w.clock <= now
    case Ack(_, _, now) => w.clock <= now
    case Leave(_) => true
  }

  ghost function Do(p: Policy, node: string, w: World, op: Op): World {
    if !Enabled(w, op) then w
    else
      match op
      case Append(fields, now, later) =>
        var e := NewEntry(now, |w.log| + 1, node, fields);
        World(w.log + [e], Retained(p, later, w.kept + [e]), later, w.group)
      case Trim(now) => w.(kept := Retained(p, now, w.kept), clock := now)
      case Read(consumer, limit, now) =>
        w.(group := AfterRead(w.group, consumer, node, ReadResult(w.kept, w.group, consumer, limit), now), clock := now)
      case Ack(consumer, entryId, now) => w.(group := Acked(w.group, consumer, entryId, now), clock := now)
      case Leave(consumer) => w.(group := WithoutConsumer(w.group, consumer))
  }

  ghost function After(p: Policy, node: string, ops: seq<Op>): World
    decreases |ops|
  {
    if ops == [] then START else Do(p, node, After(p, node, ops[..|ops| - 1]), ops[|ops| - 1])
  }

  /** How many entries retention has removed. */
  function Dropped(w: World): int {
    |w.log| - |w.kept|
  }

  /** The entry in position i: numbered from 1, stamped in the past, and named accordingly. */
  ghost predicate Numbered(node: string, e: Entry, i: nat, clock: int) {
    e.timestamp <= clock && e.sequence == i + 1 && e.node == node && e.id == EntryId(e.timestamp, i + 1, node)
  }

  ghost predicate NumberedLog(node: string, log: seq<Entry>, clock: int) {
    forall i :: 0 <= i < |log| ==> Numbered(node, log[i], i, clock)
  }

  /** The log in the order of appending, with what is kept at its end. */
  ghost predicate InStep(node: string, w: World) {
    NumberedLog(node, w.log, w.clock) && Timely(w.log) && Suffix(w.kept, w.log) && Consistent(w.group)
  }

  lemma AppendInStep(node: string, w: World, fields: map<string, string>, now: int, later: int)
    requires InStep(node, w) && w.clock <= now <= later
    ensures var e := NewEntry(now, |w.log| + 1, node, fields);
            NumberedLog(node, w.log + [e], later) && Timely(w.log + [e]) && Suffix(w.kept + [e], w.log + [e])
  {
    var e := NewEntry(now, |w.log| + 1, node, fields);
    forall i | 0 <= i < |w.log| ensures Numbered(node, w.log[i], i, later) && w.log[i].timestamp <= now {
      assert Numbered(node, w.log[i], i, w.clock);
    }
    assert Numbered(node, e, |w.log|, later);
  }

  lemma LaterInStep(node: string, w: World, clock: int)
    requires InStep(node, w) && w.clock <= clock
    ensures InStep(node, w.(clock := clock))
  {
    forall i | 0 <= i < |w.log| ensures Numbered(node, w.log[i], i, clock) {
      assert Numbered(node, w.log[i], i, w.clock);
    }
  }

  lemma InStepIs(node: string, log: seq<Entry>, kept: seq<Entry>, clock: int, group: Group)
    requires NumberedLog(node, log, clock) && Timely(log) && Suffix(kept, log) && Consistent(group)
    ensures InStep(node, World(log, kept, clock, group))
  {
  }

  lemma AppendStep(p: Policy, node: string, w: World, fields: map<string, string>, now: int, later: int)
    requires InStep(node, w) && w.clock <= now <= later
    ensures InStep(node, Do(p, node, w, Append(fields, now, later)))
  {
    var e := NewEntry(now, |w.log| + 1, node, fields);
    AppendInStep(node, w, fields, now, later);
    RetentionKeepsStep(p, later, w.kept + [e], w.log + [e]);
    InStepIs(node, w.log + [e], Retained(p, later, w.kept + [e]), later, w.group);
    AppendIs(p, node, w, fields, now, later);
  }

  lemma AppendIs(p: Policy, node: string, w: World, fields: map<string, string>, now: int, later: int)
    requires w.clock <= now <= later
    ensures var e := NewEntry(now, |w.log| + 1, node, fields);
            Do(p, node, w, Append(fields, now, later)) ==
            World(w.log + [e], Retained(p, later, w.kept + [e]), later, w.group)
  {
  }

  lemma TrimStep(p: Policy, node: string, w: World, now: int)
    requires InStep(node, w) && w.clock <= now
    ensures InStep(node, Do(p, node, w, Trim(now)))
  {
    LaterInStep(node, w, now);
    RetentionKeepsStep(p, now, w.kept, w.log);
  }

  lemma StepInStep(p: Policy, node: string, w: World, op: Op)
    requires InStep(node, w) && Enabled(w, op)
    ensures InStep(node, Do(p, node, w, op))
  {
    match op
    case Append(fields, now, later) => AppendStep(p, node, w, fields, now, later);
    case Trim(now) => TrimStep(p, node, w, now);
    case Read(consumer, limit, now) =>
      LaterInStep(node, w, now);
      StaysConsistent(w.group, consumer, node, "", now);
    case Ack(consumer, entryId, now) =>
      LaterInStep(node, w, now);
      StaysConsistent(w.group, consumer, node, entryId, now);
    case Leave(consumer) => StaysConsistent(w.group, consumer, node, "", 0);
  }

  lemma SuffixTimely(s: seq<Entry>, t: seq<Entry>)
    requires Suffix(s, t) && Timely(t)
    ensures Timely(s)
  {
  }

  lemma SuffixOfSuffix(r: seq<Entry>, s: seq<Entry>, t: seq<Entry>)
    requires Suffix(r, s) && Suffix(s, t)
    ensures Suffix(r, t)
  {
  }

  /** Retention only ever removes a prefix of the log. */
  lemma RetentionKeepsStep(p: Policy, now: int, kept: seq<Entry>, log: seq<Entry>)
    requires Suffix(kept, log) && Timely(log)
    ensures Suffix(Retained(p, now, kept), log) && |Retained(p, now, kept)| <= |kept|
  {
    SuffixTimely(kept, log);
    RetainedSuffix(p, now, kept);
    SuffixOfSuffix(Retained(p, now, kept), kept, log);
  }

  lemma {:induction false} AlwaysInStep(p: Policy, node: string, ops: seq<Op>)
    ensures InStep(node, After(p, node, ops))
    decreases |ops|
  {
    if ops != [] {
      var w, op := After(p, node, ops[..|ops| - 1]), ops[|ops| - 1];
      AlwaysInStep(p, node, ops[..|ops| - 1]);
      if Enabled(w, op) { StepInStep(p, node, w, op); }
    }
  }

  // ----- resuming -----

  function Max(a: int, b: int): int {
    if a < b then b else a
  }

  lemma IdsDiffer(node: string, a: Entry, i: nat, b: Entry, j: nat, clock: int)
    requires Numbered(node, a, i, clock) && Numbered(node, b, j, clock) && a.id == b.id
    ensures i == j
  {
    EntryIdInjective(a.timestamp, i + 1, node, b.timestamp, j + 1, node);
  }

  lemma LogIds(node: string, w: World)
    requires InStep(node, w)
    ensures DistinctIds(w.log)
  {
    forall i, j | 0 <= i < j < |w.log| ensures w.log[i].id != w.log[j].id {
      if w.log[i].id == w.log[j].id { IdsDiffer(node, w.log[i], i, w.log[j], j, w.clock); }
    }
  }

  lemma FindIs(entries: seq<Entry>, i: nat)
    requires DistinctIds(entries) && i < |entries|
    ensures Find(entries, entries[i].id) == Some(i)
  {
  }

  lemma FindInSuffix(s: seq<Entry>, t: seq<Entry>, id: string)
    requires Suffix(s, t) && DistinctIds(t)
    ensures match Find(t, id)
            case None => Find(s, id) == None
            case Some(k) => Find(s, id) == if k >= |t| - |s| then Some(k - (|t| - |s|)) else None
  {
    var d := |t| - |s|;
    forall i | 0 <= i < |s| ensures s[i] == t[d + i] && (s[i].id == id ==> Find(t, id) == Some(d + i)) {
      if t[d + i].id == id { FindIs(t, d + i); }
    }
  }

  /** An identifier that is gone is looked up as the beginning, which is then the right place. */
  lemma StartInKept(node: string, w: World, id: string)
    requires InStep(node, w)
    ensures StartOf(w.kept, id) == Max(StartOf(w.log, id) - Dropped(w), 0)
  {
    LogIds(node, w);
    FindInSuffix(w.kept, w.log, id);
  }

  ghost function Position(w: World, consumer: string): int {
    match Offset(w.group, consumer) case None => 0 case Some(id) => StartOf(w.log, id)
  }

  function LastId(given: seq<Entry>): string
    requires given != []
  {
    given[|given| - 1].id
  }

  /** The first entries of the log from a position on, as many as the limit allows and as there are. */
  ghost predicate FirstFrom(given: seq<Entry>, log: seq<Entry>, start: int, limit: int) {
    0 <= start <= |log| && given == log[start..start + Limited(limit, |log| - start)]
  }

  lemma FirstFromIs(given: seq<Entry>, log: seq<Entry>, start: int, limit: int)
    requires FirstFrom(given, log, start, limit)
    ensures 0 <= start <= |log| && given == log[start..start + Limited(limit, |log| - start)]
    ensures given != [] ==> start + |given| <= |log| && LastId(given) == log[start + |given| - 1].id
  {
  }

  /** A read gives what follows the offset, as far as it is kept. */
  ghost predicate ReadsOn(w: World, consumer: string, limit: int) {
    FirstFrom(ReadResult(w.kept, w.group, consumer, limit), w.log, Max(Dropped(w), Position(w, consumer)), limit)
  }

  lemma ReadFrom(node: string, w: World, consumer: string, limit: int)
    requires InStep(node, w)
    ensures ReadsOn(w, consumer, limit)
  {
    var id := if consumer in w.group.offsets then w.group.offsets[consumer] else "0";
    assert Position(w, consumer) == StartOf(w.log, id);
    StartInBoth(node, w, id);
    ReadAfter(w, id, limit);
  }

  lemma ReadAfter(w: World, id: string, limit: int)
    requires Suffix(w.kept, w.log) && Max(Dropped(w), StartOf(w.log, id)) == Dropped(w) + StartOf(w.kept, id)
    ensures FirstFrom(RangeOf(w.kept, id, "-", limit), w.log, Max(Dropped(w), StartOf(w.log, id)), limit)
  {
    var k := StartOf(w.kept, id);
    RangeToEnd(w.kept, id, limit);
    KeptSlice(w, k, k + Limited(limit, |w.kept| - k));
  }

  lemma StartInBoth(node: string, w: World, id: string)
    requires InStep(node, w)
    ensures Max(Dropped(w), StartOf(w.log, id)) == Dropped(w) + StartOf(w.kept, id)
  {
    StartInKept(node, w, id);
  }

  lemma KeptSlice(w: World, k: nat, end: nat)
    requires Suffix(w.kept, w.log) && k <= end <= |w.kept|
    ensures 0 <= Dropped(w) && w.kept[k..end] == w.log[Dropped(w) + k..Dropped(w) + end]
  {
  }

  lemma AlwaysReadsOn(p: Policy, node: string, ops: seq<Op>, consumer: string, limit: int)
    ensures ReadsOn(After(p, node, ops), consumer, limit)
  {
    AlwaysInStep(p, node, ops);
    ReadFrom(node, After(p, node, ops), consumer, limit);
  }

  lemma ReadsOnIs(w: World, consumer: string, limit: int)
    requires ReadsOn(w, consumer, limit)
    ensures var start := Max(Dropped(w), Position(w, consumer));
            && 0 <= start <= |w.log|
            && ReadResult(w.kept, w.group, consumer, limit) ==
               w.log[start..start + Limited(limit, |w.log| - start)]
  {
    FirstFromIs(ReadResult(w.kept, w.group, consumer, limit), w.log, Max(Dropped(w), Position(w, consumer)), limit);
  }

  /** Resumption is exact: whatever was acknowledged, and whatever retention has removed since, a read gives
      the first entries after that position in everything ever appended, but for those removed: as many as the
      limit allows, and as many as there are. */
  lemma ReadResumes(p: Policy, node: string, ops: seq<Op>, consumer: string, limit: int)
    ensures var w := After(p, node, ops);
            var start := Max(Dropped(w), Position(w, consumer));
            && 0 <= start <= |w.log|
            && ReadResult(w.kept, w.group, consumer, limit) ==
               w.log[start..start + Limited(limit, |w.log| - start)]
  {
    AlwaysReadsOn(p, node, ops, consumer, limit);
    ReadsOnIs(After(p, node, ops), consumer, limit);
  }

  // ----- reading on -----

  ghost predicate LeavesAlone(op: Op, consumer: string) {
    match op
    case Ack(c, _, _) => c != consumer
    case Leave(c) => c != consumer
    case _ => true
  }

  lemma AfterMore(p: Policy, node: string, ops: seq<Op>, more: seq<Op>)
    requires more != []
    ensures After(p, node, ops + more) == Do(p, node, After(p, node, ops + more[..|more| - 1]), more[|more| - 1])
  {
    var all := ops + more;
    assert all[..|all| - 1] == ops + more[..|more| - 1] && all[|all| - 1] == more[|more| - 1];
  }

  /** Other operations keep a consumer's offset and only add to the log. */
  lemma {:induction false} OffsetStays(p: Policy, node: string, ops: seq<Op>, more: seq<Op>, consumer: string)
    requires forall k :: 0 <= k < |more| ==> LeavesAlone(more[k], consumer)
    requires Offset(After(p, node, ops).group, consumer).Some?
    ensures Offset(After(p, node, ops + more).group, consumer) == Offset(After(p, node, ops).group, consumer)
    ensures After(p, node, ops).log <= After(p, node, ops + more).log
    decreases |more|
  {
    if more == [] {
      assert ops + more == ops;
    } else {
      var front, op := more[..|more| - 1], more[|more| - 1];
      OffsetStays(p, node, ops, front, consumer);
      AlwaysInStep(p, node, ops + front);
      AfterMore(p, node, ops, more);
      StepLeaves(p, node, After(p, node, ops + front), op, consumer);
    }
  }

  lemma StepLeaves(p: Policy, node: string, w: World, op: Op, consumer: string)
    requires LeavesAlone(op, consumer) && Consistent(w.group) && Offset(w.group, consumer).Some?
    ensures Offset(Do(p, node, w, op).group, consumer) == Offset(w.group, consumer) && w.log <= Do(p, node, w, op).log
  {
  }

  lemma AckedPosition(node: string, w: World, consumer: string, k: nat)
    requires InStep(node, w) && k < |w.log| && Offset(w.group, consumer) == Some(w.log[k].id)
    ensures Position(w, consumer) == k + 1
  {
    LogIds(node, w);
    FindIs(w.log, k);
    assert Numbered(node, w.log[k], k, w.clock);
    EntryIdIsNoMark(w.log[k].timestamp, k + 1, node);
  }

  lemma ReadThenAck(p: Policy, node: string, w: World, consumer: string, limit: int, now: int, id: string, later: int)
    requires w.clock <= now <= later && Consistent(w.group)
    ensures var w2 := Do(p, node, Do(p, node, w, Read(consumer, limit, now)), Ack(consumer, id, later));
            Offset(w2.group, consumer) == Some(id) && w2.log == w.log
  {
  }

  /** The next read in w' starts where the one in w ended, or later by what retention has removed. */
  ghost predicate GoesOn(w: World, w': World, consumer: string, limit: int, next: int) {
    var given := ReadResult(w.kept, w.group, consumer, limit);
    var start := Max(Dropped(w), Position(w, consumer));
    && w.log <= w'.log && FirstFrom(given, w.log, start, limit)
    && FirstFrom(ReadResult(w'.kept, w'.group, consumer, next), w'.log, Max(Dropped(w'), start + |given|), next)
  }

  lemma AckedAt(p: Policy, node: string, ops: seq<Op>, consumer: string, k: nat)
    requires var w := After(p, node, ops); k < |w.log| && Offset(w.group, consumer) == Some(w.log[k].id)
    ensures Position(After(p, node, ops), consumer) == k + 1
  {
    AlwaysInStep(p, node, ops);
    AckedPosition(node, After(p, node, ops), consumer, k);
  }

  lemma PrefixAt(a: seq<Entry>, b: seq<Entry>, i: nat)
    requires a <= b && i < |a|
    ensures b[i] == a[i]
  {
  }

  lemma ReadEnd(p: Policy, node: string, ops: seq<Op>, consumer: string, limit: int) returns (end: nat)
    requires var w := After(p, node, ops); ReadResult(w.kept, w.group, consumer, limit) != []
    ensures var w := After(p, node, ops);
            var given, start := ReadResult(w.kept, w.group, consumer, limit), Max(Dropped(w), Position(w, consumer));
            end == start + |given| && 0 < end <= |w.log| && LastId(given) == w.log[end - 1].id
  {
    var w := After(p, node, ops);
    var given, start := ReadResult(w.kept, w.group, consumer, limit), Max(Dropped(w), Position(w, consumer));
    AlwaysReadsOn(p, node, ops, consumer, limit);
    FirstFromIs(given, w.log, start, limit);
    end := start + |given|;
  }

  lemma GoesOnFrom(w: World, w': World, consumer: string, limit: int, next: int)
    requires w.log <= w'.log && ReadsOn(w, consumer, limit) && ReadsOn(w', consumer, next)
    requires ReadResult(w.kept, w.group, consumer, limit) != []
    requires Position(w', consumer) ==
             Max(Dropped(w), Position(w, consumer)) + |ReadResult(w.kept, w.group, consumer, limit)|
    ensures GoesOn(w, w', consumer, limit, next)
  {
  }

  /** A run, then a read, and then an acknowledgement of the last entry it gave. */
  ghost predicate ReadAndAcked(p: Policy, node: string, ops: seq<Op>, consumer: string, limit: int, acked: seq<Op>) {
    var w := After(p, node, ops);
    exists now, later :: w.clock <= now <= later && ReadResult(w.kept, w.group, consumer, limit) != [] &&
      acked ==
        ops + [Read(consumer, limit, now), Ack(consumer, LastId(ReadResult(w.kept, w.group, consumer, limit)), later)]
  }

  lemma AckedOffset(p: Policy, node: string, ops: seq<Op>, consumer: string, limit: int, acked: seq<Op>)
    requires ReadAndAcked(p, node, ops, consumer, limit, acked)
    ensures var w := After(p, node, ops);
            && ReadResult(w.kept, w.group, consumer, limit) != []
            && Offset(After(p, node, acked).group, consumer) ==
                 Some(LastId(ReadResult(w.kept, w.group, consumer, limit)))
            && After(p, node, acked).log == w.log
  {
    var w := After(p, node, ops);
    var id := LastId(ReadResult(w.kept, w.group, consumer, limit));
    var now, later :| w.clock <= now <= later && acked == ops + [Read(consumer, limit, now), Ack(consumer, id, later)];
    AlwaysInStep(p, node, ops);
    TwoMore(p, node, ops, Read(consumer, limit, now), Ack(consumer, id, later));
    ReadThenAck(p, node, w, consumer, limit, now, id, later);
  }

  /** In w' the consumer has acknowledged what a read in w gives, which ends in that position. */
  ghost predicate AckedTo(w: World, w': World, consumer: string, limit: int, end: nat) {
    && w.log <= w'.log && ReadResult(w.kept, w.group, consumer, limit) != []
    && end == Max(Dropped(w), Position(w, consumer)) + |ReadResult(w.kept, w.group, consumer, limit)|
    && 0 < end <= |w'.log| && Offset(w'.group, consumer) == Some(w'.log[end - 1].id)
  }

  lemma AckedEnd(p: Policy, node: string, ops: seq<Op>, w: World, consumer: string, limit: int, end: nat)
    requires AckedTo(w, After(p, node, ops), consumer, limit, end)
    ensures Position(After(p, node, ops), consumer) == end
  {
    AckedAt(p, node, ops, consumer, end - 1);
  }

  lemma LastGiven(p: Policy, node: string, ops: seq<Op>, consumer: string, limit: int, acked: seq<Op>, more: seq<Op>)
    returns (end: nat)
    requires ReadAndAcked(p, node, ops, consumer, limit, acked)
    requires forall k :: 0 <= k < |more| ==> LeavesAlone(more[k], consumer)
    ensures AckedTo(After(p, node, ops), After(p, node, acked + more), consumer, limit, end)
  {
    AckedOffset(p, node, ops, consumer, limit, acked);
    OffsetStays(p, node, acked, more, consumer);
    end := ReadEnd(p, node, ops, consumer, limit);
    PrefixAt(After(p, node, ops).log, After(p, node, acked + more).log, end - 1);
  }

  lemma NextPosition(p: Policy, node: string, ops: seq<Op>, consumer: string, limit: int, acked: seq<Op>, more: seq<Op>)
    requires ReadAndAcked(p, node, ops, consumer, limit, acked)
    requires forall k :: 0 <= k < |more| ==> LeavesAlone(more[k], consumer)
    ensures var w, w' := After(p, node, ops), After(p, node, acked + more);
            && w.log <= w'.log && ReadResult(w.kept, w.group, consumer, limit) != []
            && Position(w', consumer) ==
                 Max(Dropped(w), Position(w, consumer)) + |ReadResult(w.kept, w.group, consumer, limit)|
  {
    var end := LastGiven(p, node, ops, consumer, limit, acked, more);
    AckedEnd(p, node, acked + more, After(p, node, ops), consumer, limit, end);
  }

  /** A consumer who acknowledges the last entry it was given goes on with the next one: nothing comes twice, and
      nothing is missing but what retention has removed unread - whatever was appended, removed, read or
      acknowledged by others in between. */
  lemma NextReadContinues(p: Policy, node: string, ops: seq<Op>, consumer: string, limit: int, acked: seq<Op>,
      more: seq<Op>, next: int)
    requires ReadAndAcked(p, node, ops, consumer, limit, acked)
    requires forall k :: 0 <= k < |more| ==> LeavesAlone(more[k], consumer)
    ensures GoesOn(After(p, node, ops), After(p, node, acked + more), consumer, limit, next)
  {
    NextPosition(p, node, ops, consumer, limit, acked, more);
    AlwaysReadsOn(p, node, ops, consumer, limit);
    AlwaysReadsOn(p, node, acked + more, consumer, next);
    GoesOnFrom(After(p, node, ops), After(p, node, acked + more), consumer, limit, next);
  }

  lemma TwoMore(p: Policy, node: string, ops: seq<Op>, a: Op, b: Op)
    ensures After(p, node, ops + [a, b]) == Do(p, node, Do(p, node, After(p, node, ops), a), b)
  {
    Snoc(ops, a);
    Snoc(ops + [a], b);
    assert ops + [a, b] == (ops + [a]) + [b];
  }

  // ----- what is pending -----

  ghost predicate Given(entries: seq<Entry>, id: string) {
    exists e :: e in entries && e.id == id
  }

  /** Given to the consumer by some read and not acknowledged by it since: an acknowledgement counts for that
      one entry, and only while the consumer is a member. */
  ghost predicate Outstanding(p: Policy, node: string, ops: seq<Op>, consumer: string, id: string)
    decreases |ops|
  {
    ops != [] &&
    var w, op := After(p, node, ops[..|ops| - 1]), ops[|ops| - 1];
    if Enabled(w, op) && op.Read? && op.consumer == consumer
       && Given(ReadResult(w.kept, w.group, consumer, op.limit), id) then true
    else if Enabled(w, op) && op.Ack? && op.consumer == consumer && op.entryId == id
            && consumer in w.group.members then false
    else Outstanding(p, node, ops[..|ops| - 1], consumer, id)
  }

  ghost predicate IsPending(pending: seq<Pending>, consumer: string, id: string) {
    exists r :: r in pending && r.consumerId == consumer && r.entryId == id
  }

  lemma PendingAfterRead(pending: seq<Pending>, entries: seq<Entry>, reader: string, now: int, consumer: string,
      id: string)
    ensures IsPending(pending + PendingOf(entries, reader, now), consumer, id) <==>
            IsPending(pending, consumer, id) || (reader == consumer && Given(entries, id))
  {
    var more := PendingOf(entries, reader, now);
    if reader == consumer && Given(entries, id) {
      var i :| 0 <= i < |entries| && entries[i].id == id;
      assert more[i] in pending + more;
    }
    forall r | r in pending + more && r.consumerId == consumer && r.entryId == id
      ensures r in pending || (reader == consumer && Given(entries, id))
    {
      if r !in pending {
        var i :| 0 <= i < |more| && more[i] == r;
        assert entries[i] in entries;
      }
    }
  }

  lemma PendingAfterAck(pending: seq<Pending>, reader: string, entryId: string, consumer: string, id: string)
    ensures IsPending(Cleared(pending, reader, entryId), consumer, id) <==>
            IsPending(pending, consumer, id) && !(reader == consumer && entryId == id)
  {
    forall r ensures r in Cleared(pending, reader, entryId) <==>
      r in pending && !(r.entryId == entryId && r.consumerId == reader) {
      ClearedHas(pending, reader, entryId, r);
    }
  }

  /** In every run the pending records are exactly the deliveries not acknowledged yet. */
  lemma {:induction false} PendingIsOutstanding(p: Policy, node: string, ops: seq<Op>, consumer: string, id: string)
    ensures IsPending(After(p, node, ops).group.pending, consumer, id) <==> Outstanding(p, node, ops, consumer, id)
    decreases |ops|
  {
    if ops != [] {
      var w, op := After(p, node, ops[..|ops| - 1]), ops[|ops| - 1];
      PendingIsOutstanding(p, node, ops[..|ops| - 1], consumer, id);
      if Enabled(w, op) {
        match op
        case Read(c, limit, now) => PendingAfterRead(w.group.pending, ReadResult(w.kept, w.group, c, limit), c, now,
                                                     consumer, id);
        case Ack(c, entryId, now) => PendingAfterAck(w.group.pending, c, entryId, consumer, id);
        case _ =>
      }
    }
  }
}
