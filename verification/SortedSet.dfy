/** The replicated sorted set: a map of records, tombstones included, and a skip list of the live ones. */
module SortedSets {
  import opened Wrappers
  import opened Order
  import opened RankedSeq
  import opened Towers
  import opened SkipLists
  import opened Members

  /** The records of a run of list entries. */
  ghost function Records(mm: MemberMap, entries: seq<Entry>): (records: seq<Member>)
    requires forall e :: e in entries ==> e.member in mm
    ensures |records| == |entries|
  {
    seq(|entries|, i requires 0 <= i < |entries| => mm[entries[i].member])
  }

  lemma OneLess<T>(s: set<T>, rest: set<T>, m: T)
    requires m in rest
    ensures |s - (rest - {m})| == |s - rest| + (if m in s then 1 else 0)
  {
    assert s - (rest - {m}) == if m in s then (s - rest) + {m} else s - rest;
  }

  method CountLive(mm: MemberMap) returns (count: int)
    ensures count == |set m | m in mm && !mm[m].tombstone|
  {
    count := 0;
    var rest := mm.Keys;
    ghost var live := set m | m in mm && !mm[m].tombstone;
    assert live - rest == {};
    while rest != {}
      invariant rest <= mm.Keys && count == |live - rest|
    {
      var m :| m in rest;
      OneLess(live, rest, m);
      if !mm[m].tombstone { count := count + 1; }
      rest := rest - {m};
    }
    assert live - {} == live;
  }

  /** The lookup after every range read: each listed node's record is live, so none is dropped. */
  method Lookup(mm: MemberMap, found: seq<Node>) returns (records: seq<Member>)
    requires forall e :: e in Keys(found) ==> e in LiveEntries(mm) && e.member in mm
    ensures records == Records(mm, Keys(found))
  {
    records := [];
    for i := 0 to |found|
      invariant records == Records(mm, Keys(found))[..i]
    {
      assert Keys(found)[i] in LiveEntries(mm);
      if found[i].member in mm && !mm[found[i].member].tombstone {
        records := records + [mm[found[i].member]];
      }
    }
  }

  /** The change to the list that filing record r takes: the member's old entry out, unless it stays as
      it is, and its new one in, unless r is a tombstone. */
  function Out(mm: MemberMap, r: Member, keepSame: bool): Option<real> {
    if r.member !in mm || (keepSame && mm[r.member].score == r.score) then None else Some(mm[r.member].score)
  }

  function In(r: Member): Option<real> {
    if r.tombstone then None else Some(r.score)
  }

  ghost function Changed(entries: set<Entry>, member: string, out: Option<real>, in': Option<real>): set<Entry> {
    entries - (if out.Some? then {Entry(out.value, member)} else {})
    + (if in'.Some? then {Entry(in'.value, member)} else {})
  }

  lemma LiveChanged(mm: MemberMap, r: Member, keepSame: bool)
    requires keepSame ==> !r.tombstone
    ensures LiveEntries(mm[r.member := r]) == Changed(LiveEntries(mm), r.member, Out(mm, r, keepSame), In(r))
  {
    LiveUpdate(mm, r);
  }

  /** The part of the peer's map that is merged already. */
  ghost function Done(other: MemberMap, rest: set<string>): MemberMap {
    map m | m in other && m !in rest :: other[m]
  }

  /** The map with all of the other merged in but the records of some members. */
  ghost predicate MergedBut(mine: MemberMap, other: MemberMap, rest: set<string>, now: MemberMap) {
    rest <= other.Keys && now == Merged(mine, Done(other, rest))
  }

  lemma MergedStep(mine: MemberMap, other: MemberMap, rest: set<string>, m: string, now: MemberMap)
    requires m in rest && MergedBut(mine, other, rest, now)
    ensures m in other
    ensures MergedBut(mine, other, rest - {m}, now[m := if m in now then Winner(now[m], other[m]) else other[m]])
  {
  }

  lemma MergedEnds(mine: MemberMap, other: MemberMap)
    ensures MergedBut(mine, other, other.Keys, mine)
    ensures forall now :: MergedBut(mine, other, {}, now) ==> now == Merged(mine, other)
  {
    assert Done(other, {}) == other;
    assert Merged(mine, Done(other, other.Keys)) == mine;
  }

  /** The records of a snapshot by member. */
  method MapOf(records: seq<Member>) returns (other: MemberMap)
    ensures other == FromSnapshot(records)
  {
    other := map[];
    for i := 0 to |records|
      invariant other == FromSnapshot(records[..i])
    {
      assert records[..i + 1][..i] == records[..i];
      other := other[records[i].member := records[i]];
    }
    assert records[..|records|] == records;
  }

  class SortedSet {
    const nodeID: string
    const list: SkipList
    var memberMap: MemberMap
    var timestamp: int

    /** The list holds exactly the live (score, member) pairs. */
    ghost predicate Valid()
      reads this, list, list.Repr()
    {
      && list.Valid()
      && Named(memberMap) && Elements(list.Contents()) == LiveEntries(memberMap)
    }

    function State(): Replica
      reads this
    {
      Replica(memberMap, timestamp)
    }

    constructor (nodeID: string)
      ensures Valid() && State() == Replica(map[], 0) && this.nodeID == nodeID
      ensures fresh(list) && fresh(list.Repr())
    {
      this.nodeID := nodeID;
      memberMap, timestamp := map[], 0;
      list := new SkipList();
      new;
    }

    /** Add writes unconditionally, under this node's next Lamport time. */
    method Add(member: string, score: real)
      requires Valid()
      modifies this, list, list.Repr()
      ensures Valid() && fresh(list.Repr() - old(list.Repr()))
      ensures State() == AddTo(old(State()), nodeID, member, score)
      ensures member in memberMap && !memberMap[member].tombstone && memberMap[member].score == score
      ensures memberMap - {member} == old(memberMap) - {member} && timestamp == old(timestamp) + 1
      ensures Elements(list.Contents()) ==
                OthersLive(old(Elements(list.Contents())), member) + {Entry(score, member)}
    {
      AddMeaning(State(), nodeID, member, score);
      var record := Member(member, score, timestamp + 1, nodeID, false, 0);
      LiveChanged(memberMap, record, true);
      var next := Replica(memberMap[member := record], timestamp + 1);
      assert next == AddTo(State(), nodeID, member, score);
      Install(member, Out(memberMap, record, true), Some(score), next);
    }

    lemma NotListed(member: string)
      requires Valid() && member !in memberMap
      ensures OthersLive(Elements(list.Contents()), member) == Elements(list.Contents())
    {
      forall e | e in Elements(list.Contents()) ensures e.member != member {
        assert e in LiveEntries(memberMap);
      }
    }

    /** A change to the list, and then to the map and the clock. */
    method Install(member: string, was: Option<real>, score: Option<real>, next: Replica)
      requires Valid() && Named(next.members)
      requires LiveEntries(next.members) == Changed(LiveEntries(memberMap), member, was, score)
      modifies this, list, list.Repr()
      ensures Valid() && fresh(list.Repr() - old(list.Repr())) && State() == next
    {
      Refile(member, was, score);
      Keep(next);
    }

    /** The map and the clock behind a change to the list. */
    method Keep(next: Replica)
      requires list.Valid() && Named(next.members)
      requires Elements(list.Contents()) == LiveEntries(next.members)
      modifies this
      ensures Valid() && State() == next
    {
      memberMap, timestamp := next.members, next.clock;
    }

    /** Remove leaves a tombstone under this node's next Lamport time; an unknown member is an error. */
    method Remove(member: string, now: int) returns (known: bool)
      requires Valid()
      modifies this, list, list.Repr()
      ensures Valid() && fresh(list.Repr() - old(list.Repr()))
      ensures known == (member in old(memberMap))
      ensures State() == RemoveFrom(old(State()), nodeID, member, now)
      ensures known ==> member in memberMap && memberMap[member].tombstone && timestamp == old(timestamp) + 1
      ensures memberMap - {member} == old(memberMap) - {member}
      ensures Elements(list.Contents()) == OthersLive(old(Elements(list.Contents())), member)
    {
      if member !in memberMap {
        NotListed(member);
        return false;
      }
      RemoveMeaning(State(), nodeID, member, now);
      var record := memberMap[member].(tombstone := true, tombAt := now, timestamp := timestamp + 1, node := nodeID);
      LiveChanged(memberMap, record, false);
      var next := Replica(memberMap[member := record], timestamp + 1);
      assert next == RemoveFrom(State(), nodeID, member, now);
      Install(member, Some(memberMap[member].score), None, next);
      return true;
    }

    /** One member of a merge: the peer's record is adopted when it is unknown here or strictly greater. */
    method MergeOne(member: string, other: Member)
      requires Valid() && other.member == member
      modifies this, list, list.Repr()
      ensures Valid() && fresh(list.Repr() - old(list.Repr())) && timestamp == old(timestamp)
      ensures memberMap ==
                old(memberMap)[member := if member in old(memberMap) then Winner(old(memberMap)[member], other)
                                         else other]
    {
      if member in memberMap && Compare(other, memberMap[member]) <= 0 {
        assert memberMap == memberMap[member := memberMap[member]];
        return;
      }
      LiveChanged(memberMap, other, false);
      var next := Replica(memberMap[member := other], timestamp);
      Install(member, Out(memberMap, other, false), In(other), next);
    }

    /** The merge loop, in any order. */
    method MergeAll(other: MemberMap)
      requires Valid() && Named(other)
      modifies this, list, list.Repr()
      ensures Valid() && fresh(list.Repr() - old(list.Repr())) && timestamp == old(timestamp)
      ensures memberMap == Merged(old(memberMap), other)
    {
      ghost var mine := memberMap;
      MergedEnds(mine, other);
      var rest := other.Keys;
      while rest != {}
        invariant Valid() && fresh(list.Repr() - old(list.Repr())) && timestamp == old(timestamp)
        invariant MergedBut(mine, other, rest, memberMap)
      {
        var m :| m in rest;
        MergedStep(mine, other, rest, m, memberMap);
        MergeOne(m, other[m]);
        rest := rest - {m};
      }
    }

    /** Merge with a peer's records; the wrapper around a snapshot has clock 0. */
    method MergeSnapshot(records: seq<Member>)
      requires Valid()
      modifies this, list, list.Repr()
      ensures Valid() && fresh(list.Repr() - old(list.Repr()))
      ensures State() == MergeInto(old(State()), FromSnapshot(records))
      ensures timestamp == (if old(timestamp) < 0 then 0 else old(timestamp)) + 1
    {
      var other := MapOf(records);
      FromSnapshotNamed(records);
      MergeAll(other);
      Tick();
    }

    /** The clock goes on from the later of its time and the other side's, which is 0. */
    method Tick()
      requires Valid()
      modifies this`timestamp
      ensures Valid() && timestamp == (if old(timestamp) < 0 then 0 else old(timestamp)) + 1
      ensures list.Repr() == old(list.Repr())
    {
      timestamp := (if 0 > timestamp then 0 else timestamp) + 1;
    }

    lemma ChangedTwice(entries: set<Entry>, member: string, was: Option<real>, score: Option<real>)
      ensures Changed(Changed(entries, member, was, None), member, None, score) == Changed(entries, member, was, score)
    {
    }

    /** The list with a member's old entry out and its new one in, each if there is one. */
    method Refile(member: string, was: Option<real>, score: Option<real>)
      requires list.Valid()
      modifies list, list.Repr()
      ensures list.Valid() && fresh(list.Repr() - old(list.Repr()))
      ensures Elements(list.Contents()) == Changed(old(Elements(list.Contents())), member, was, score)
    {
      ghost var entries := Elements(list.Contents());
      if was.Some? {
        Erase(member, was.value);
      }
      assert Elements(list.Contents()) == Changed(entries, member, was, None);
      ChangedTwice(entries, member, was, score);
      PlaceIf(member, score);
    }

    method PlaceIf(member: string, score: Option<real>)
      requires list.Valid()
      modifies list, list.Repr()
      ensures list.Valid() && fresh(list.Repr() - old(list.Repr()))
      ensures Elements(list.Contents()) == Changed(old(Elements(list.Contents())), member, None, score)
    {
      if score.Some? {
        Place(member, score.value);
      }
    }

    method Erase(member: string, score: real)
      requires list.Valid()
      modifies list, list.Repr()
      ensures list.Valid() && list.Repr() <= old(list.Repr())
      ensures Elements(list.Contents()) == old(Elements(list.Contents())) - {Entry(score, member)}
    {
      AscendingKeys(list.nodes);
      RemovedMeaning(list.Contents(), Entry(score, member));
      var deleted := list.Delete(member, score);
    }

    method Place(member: string, score: real)
      requires list.Valid()
      modifies list, list.Repr()
      ensures list.Valid() && fresh(list.Repr() - old(list.Repr()))
      ensures Elements(list.Contents()) == old(Elements(list.Contents())) + {Entry(score, member)}
    {
      AscendingKeys(list.nodes);
      InsertedMeaning(list.Contents(), Entry(score, member));
      var inserted := list.Insert(member, score);
    }

    // ----- reads -----

    /** The live entry of a member is in the list, and no other entry of that member is. */
    lemma Listed(member: string)
      requires Valid()
      ensures forall s: real :: Entry(s, member) in list.Contents() <==>
                member in memberMap && !memberMap[member].tombstone && memberMap[member].score == s
    {
      forall s: real ensures Entry(s, member) in list.Contents() <==>
                member in memberMap && !memberMap[member].tombstone && memberMap[member].score == s
      {
        assert Entry(s, member) in list.Contents() <==> Entry(s, member) in Elements(list.Contents());
      }
    }

    /** Get agrees with the list. */
    method Get(member: string) returns (score: real, found: bool)
      requires Valid()
      ensures found ==> Entry(score, member) in list.Contents()
      ensures !found ==> forall s: real :: Entry(s, member) !in list.Contents()
      ensures found <==> member in memberMap && !memberMap[member].tombstone
      ensures found ==> score == memberMap[member].score
    {
      Listed(member);
      if member !in memberMap || memberMap[member].tombstone {
        return 0.0, false;
      }
      return memberMap[member].score, true;
    }

    lemma ListedLive(member: string)
      requires Valid() && member in memberMap
      ensures Entry(memberMap[member].score, member) in list.Contents() <==> !memberMap[member].tombstone
    {
      var e := Entry(memberMap[member].score, member);
      assert e in list.Contents() <==> e in Elements(list.Contents());
    }

    /** Rank is the member's index in score order; found exactly for a live member. */
    method Rank(member: string) returns (rank: int, found: bool)
      requires Valid()
      ensures found <==> member in memberMap && !memberMap[member].tombstone
      ensures found ==> 0 <= rank < |list.Contents()| && list.Contents()[rank] == Entry(memberMap[member].score, member)
    {
      if member !in memberMap || memberMap[member].tombstone {
        return 0, false;
      }
      ListedLive(member);
      rank, found := list.Rank(member, memberMap[member].score);
    }

    /** RevRank counts from the other end. */
    method RevRank(member: string) returns (rank: int, found: bool)
      requires Valid()
      ensures found <==> member in memberMap && !memberMap[member].tombstone
      ensures found ==> 0 <= rank < |list.Contents()|
                        && list.Contents()[|list.Contents()| - 1 - rank] == Entry(memberMap[member].score, member)
    {
      if member !in memberMap || memberMap[member].tombstone {
        return 0, false;
      }
      ListedLive(member);
      rank, found := list.Rank(member, memberMap[member].score);
      if !found {
        return 0, false;
      }
      var n := list.Length();
      return n - rank - 1, true;
    }

    /** Card counts live records, and that is the list's length. */
    method Card() returns (count: int)
      requires Valid()
      ensures count == |list.Contents()| == |set m | m in memberMap && !memberMap[m].tombstone|
    {
      CardMeaning();
      count := CountLive(memberMap);
    }

    lemma CardMeaning()
      requires Valid()
      ensures |list.Contents()| == |set m | m in memberMap && !memberMap[m].tombstone|
    {
      LiveCard(memberMap);
      AscendingKeys(list.nodes);
      SortedCard(list.Contents());
    }

    lemma AllLive(entries: seq<Entry>)
      requires Valid() && forall e :: e in entries ==> e in list.Contents()
      ensures forall e :: e in entries ==> e in LiveEntries(memberMap) && e.member in memberMap
    {
      forall e | e in entries ensures e in LiveEntries(memberMap) {
        assert e in Elements(list.Contents());
      }
    }

    /** Entry by entry the live record of that member, with that score. */
    ghost predicate Found(records: seq<Member>, entries: seq<Entry>)
      reads this
    {
      |records| == |entries| && forall i :: 0 <= i < |records| ==>
        && records[i].member == entries[i].member && records[i].score == entries[i].score && !records[i].tombstone
        && records[i].member in memberMap && memberMap[records[i].member] == records[i]
    }

    lemma RecordsFound(entries: seq<Entry>)
      requires Valid() && forall e :: e in entries ==> e in LiveEntries(memberMap) && e.member in memberMap
      ensures Found(Records(memberMap, entries), entries)
    {
      forall i | 0 <= i < |entries| ensures entries[i] in LiveEntries(memberMap) {
      }
    }

    /** The records of the lowest `limit` live members scored min..max. */
    method Range(min: real, max: real, limit: int) returns (records: seq<Member>)
      requires Valid()
      ensures Found(records, Take(InScores(list.Contents(), min, max), limit))
    {
      var found := list.Range(min, max, limit);
      SelectedListed(list.Contents(), min, max, limit);
      AllLive(Keys(found));
      records := Lookup(memberMap, found);
      RecordsFound(Keys(found));
    }

    /** The records of the highest `limit` live members scored min..max, highest first. */
    method RevRange(max: real, min: real, limit: int) returns (records: seq<Member>)
      requires Valid()
      ensures Found(records, Take(Reverse(InScores(list.Contents(), min, max)), limit))
    {
      var found := list.RangeDesc(min, max, limit);
      SelectedListed(list.Contents(), min, max, limit);
      AllLive(Keys(found));
      records := Lookup(memberMap, found);
      RecordsFound(Keys(found));
    }

    /** The records of the live members at ranks start..stop. */
    method RangeByRank(start: int, stop: int) returns (records: seq<Member>)
      requires Valid()
      ensures Found(records, Ranks(list.Contents(), start, stop))
    {
      var found := list.RangeByRank(start, stop);
      AllLive(Keys(found));
      records := Lookup(memberMap, found);
      RecordsFound(Keys(found));
    }

    /** Every record, tombstones included, in any order; merging it is merging the map. */
    method Snapshot() returns (records: seq<Member>)
      requires Valid()
      ensures FromSnapshot(records) == memberMap
    {
      records := [];
      var rest := memberMap.Keys;
      while rest != {}
        invariant rest <= memberMap.Keys
        invariant FromSnapshot(records) == map m | m in memberMap && m !in rest :: memberMap[m]
      {
        var m :| m in rest;
        assert (records + [memberMap[m]])[..|records|] == records;
        records := records + [memberMap[m]];
        rest := rest - {m};
      }
    }
  }
}
