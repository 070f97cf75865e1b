/** Sorted-set records and the rule by which two replicas' records for a member are merged. */
module Members {
  import opened Order

  datatype Member = Member(member: string, score: real, timestamp: int, node: string, tombstone: bool, tombAt: int)

  type MemberMap = map<string, Member>

  /** The (score, timestamp, node) comparison: -1, 0 or 1. */
  function Compare(a: Member, b: Member): int {
    if a.score < b.score then -1
    else if a.score > b.score then 1
    else if a.timestamp < b.timestamp then -1
    else if a.timestamp > b.timestamp then 1
    else if LexLess(a.node, b.node) then -1
    else if LexLess(b.node, a.node) then 1
    else 0
  }

  lemma CompareOrder(a: Member, b: Member)
    ensures Compare(a, b) == -Compare(b, a)
    ensures Compare(a, b) == 0 <==> a.score == b.score && a.timestamp == b.timestamp && a.node == b.node
  {
    LexTotal(a.node, b.node);
  }

  lemma CompareTransitive(a: Member, b: Member, c: Member)
    requires Compare(a, b) <= 0 && Compare(b, c) <= 0
    ensures Compare(a, c) <= 0
    ensures Compare(a, b) < 0 || Compare(b, c) < 0 ==> Compare(a, c) < 0
  {
    LexTotal(a.node, b.node);
    LexTotal(b.node, c.node);
    if LexLess(a.node, b.node) && LexLess(b.node, c.node) {
      LexTransitive(a.node, b.node, c.node);
    }
  }

  /** What a merge keeps of the local and the peer's record: the peer's only when strictly greater. */
  function Winner(mine: Member, peer: Member): Member {
    if Compare(peer, mine) > 0 then peer else mine
  }

  function Merged(mine: MemberMap, peer: MemberMap): (r: MemberMap)
    ensures r.Keys == mine.Keys + peer.Keys
  {
    map m | m in mine.Keys + peer.Keys ::
      if m !in mine then peer[m] else if m !in peer then mine[m] else Winner(mine[m], peer[m])
  }

  /** A snapshot as the map the merge reads: a later record for a member replaces an earlier one. */
  function FromSnapshot(records: seq<Member>): MemberMap {
    if records == [] then map[]
    else FromSnapshot(records[..|records| - 1])[records[|records| - 1].member := records[|records| - 1]]
  }

  /** Every record is filed under its own name. */
  ghost predicate Named(mm: MemberMap) {
    forall m :: m in mm ==> mm[m].member == m
  }

  /** Of several records of one member the last one counts. */
  lemma {:induction false} FromSnapshotAt(records: seq<Member>, k: nat)
    requires k < |records| && forall j :: k < j < |records| ==> records[j].member != records[k].member
    ensures records[k].member in FromSnapshot(records) && FromSnapshot(records)[records[k].member] == records[k]
  {
    if k < |records| - 1 { FromSnapshotAt(records[..|records| - 1], k); }
  }

  lemma {:induction false} FromSnapshotNamed(records: seq<Member>)
    ensures Named(FromSnapshot(records))
  {
    if records != [] { FromSnapshotNamed(records[..|records| - 1]); }
  }

  /** Records under their own names, each the one record with its (timestamp, node). */
  ghost predicate Coherent(registry: map<(int, string), Member>, mm: MemberMap) {
    forall m :: m in mm ==>
      mm[m].member == m && (mm[m].timestamp, mm[m].node) in registry && registry[(mm[m].timestamp, mm[m].node)] == mm[m]
  }

  // ----- among coherent maps the merge is a join -----

  lemma WinnerCommutes(registry: map<(int, string), Member>, a: MemberMap, b: MemberMap, m: string)
    requires Coherent(registry, a) && Coherent(registry, b) && m in a && m in b
    ensures Winner(a[m], b[m]) == Winner(b[m], a[m])
  {
    CompareOrder(a[m], b[m]);
  }

  lemma MergedCommutes(registry: map<(int, string), Member>, a: MemberMap, b: MemberMap)
    requires Coherent(registry, a) && Coherent(registry, b)
    ensures Merged(a, b) == Merged(b, a)
  {
    forall m | m in a && m in b ensures Winner(a[m], b[m]) == Winner(b[m], a[m]) {
      WinnerCommutes(registry, a, b, m);
    }
  }

  lemma WinnerAssociates(a: Member, b: Member, c: Member)
    ensures Winner(Winner(a, b), c) == Winner(a, Winner(b, c))
  {
    CompareOrder(a, b);
    CompareOrder(b, c);
    CompareOrder(a, c);
    if Compare(a, b) <= 0 && Compare(b, c) <= 0 { CompareTransitive(a, b, c); }
    if Compare(c, b) <= 0 && Compare(b, a) <= 0 { CompareTransitive(c, b, a); }
    if Compare(b, a) <= 0 && Compare(a, c) <= 0 { CompareTransitive(b, a, c); }
    if Compare(c, a) <= 0 && Compare(a, b) <= 0 { CompareTransitive(c, a, b); }
  }

  lemma MergedAssociates(a: MemberMap, b: MemberMap, c: MemberMap)
    ensures Merged(Merged(a, b), c) == Merged(a, Merged(b, c))
  {
    var l, r := Merged(Merged(a, b), c), Merged(a, Merged(b, c));
    assert l.Keys == r.Keys;
    forall m | m in l ensures l[m] == r[m] {
      if m in a && m in b && m in c { WinnerAssociates(a[m], b[m], c[m]); }
    }
  }

  lemma MergedIdempotent(a: MemberMap, b: MemberMap)
    ensures Merged(a, a) == a
    ensures Merged(Merged(a, b), b) == Merged(a, b)
  {
    forall m | m in a ensures Winner(a[m], a[m]) == a[m] { CompareOrder(a[m], a[m]); }
    forall m | m in a && m in b ensures Winner(Winner(a[m], b[m]), b[m]) == Winner(a[m], b[m]) {
      CompareOrder(b[m], b[m]);
    }
    assert Merged(Merged(a, b), b).Keys == Merged(a, b).Keys;
  }

  lemma MergedCoherent(registry: map<(int, string), Member>, a: MemberMap, b: MemberMap)
    requires Coherent(registry, a) && Coherent(registry, b)
    ensures Coherent(registry, Merged(a, b))
  {
  }

  // ----- the operations of one replica -----

  datatype Replica = Replica(members: MemberMap, clock: int)

  function AddTo(r: Replica, node: string, member: string, score: real): Replica {
    Replica(r.members[member := Member(member, score, r.clock + 1, node, false, 0)], r.clock + 1)
  }

  function RemoveFrom(r: Replica, node: string, member: string, now: int): Replica {
    if member !in r.members then r
    else
      Replica(r.members[member := r.members[member].(tombstone := true, tombAt := now, timestamp := r.clock + 1,
                                                     node := node)],
              r.clock + 1)
  }

  /** A merge counts as one event here; the peer's clock is not carried by a snapshot. */
  function MergeInto(r: Replica, peer: MemberMap): Replica {
    Replica(Merged(r.members, peer), (if r.clock < 0 then 0 else r.clock) + 1)
  }

  // ----- the live members -----

  function LiveEntries(mm: MemberMap): (live: set<Entry>)
    ensures forall e: Entry {:trigger e in live} :: e in live <==>
              e.member in mm && !mm[e.member].tombstone && mm[e.member].score == e.score
  {
    var live := set m | m in mm && !mm[m].tombstone :: Entry(mm[m].score, m);
    assert forall e: Entry {:trigger e in live} ::
      e.member in mm && !mm[e.member].tombstone && mm[e.member].score == e.score ==>
        e == Entry(mm[e.member].score, e.member);
    live
  }

  /** The live entries of the other members. */
  ghost function OthersLive(entries: set<Entry>, member: string): (r: set<Entry>)
    ensures forall e :: e in r <==> e in entries && e.member != member
  {
    set e | e in entries && e.member != member
  }

  /** After an addition the member is live under the new score and no other, whatever it was before; the others are as
      they were. */
  lemma AddMeaning(r: Replica, node: string, member: string, score: real)
    ensures var a := AddTo(r, node, member, score);
            && member in a.members && a.members - {member} == r.members - {member} && a.clock == r.clock + 1
            && !a.members[member].tombstone && a.members[member].score == score
            && a.members[member].member == member
            && a.members[member].timestamp == r.clock + 1 && a.members[member].node == node
            && LiveEntries(a.members) == OthersLive(LiveEntries(r.members), member) + {Entry(score, member)}
  {
    var a := AddTo(r, node, member, score);
    forall m | m in r.members && m != member ensures m in a.members && a.members[m] == r.members[m] {
    }
    forall e: Entry ensures e in LiveEntries(a.members) <==>
                              e in OthersLive(LiveEntries(r.members), member) + {Entry(score, member)}
    {
    }
  }

  /** After a removal the member is not live under any score; its record keeps the score and says when and where it was
      removed, and the others are as they were. */
  lemma RemoveMeaning(r: Replica, node: string, member: string, now: int)
    requires member in r.members
    ensures var a := RemoveFrom(r, node, member, now);
            && member in a.members && a.members - {member} == r.members - {member} && a.clock == r.clock + 1
            && a.members[member].tombstone && a.members[member].tombAt == now
            && a.members[member].score == r.members[member].score
            && a.members[member].timestamp == r.clock + 1 && a.members[member].node == node
            && LiveEntries(a.members) == OthersLive(LiveEntries(r.members), member)
  {
    var a := RemoveFrom(r, node, member, now);
    forall e: Entry ensures e in LiveEntries(a.members) <==> e in OthersLive(LiveEntries(r.members), member) {
    }
  }

  /** Of two records a merge keeps one with the higher score, then the later time, then the later node name. */
  lemma MergedKeepsGreatest(mine: MemberMap, peer: MemberMap, m: string)
    ensures m in Merged(mine, peer) <==> m in mine || m in peer
    ensures m in mine && m !in peer ==> Merged(mine, peer)[m] == mine[m]
    ensures m in peer && m !in mine ==> Merged(mine, peer)[m] == peer[m]
    ensures m in mine && m in peer ==>
              var a, b, r := mine[m], peer[m], Merged(mine, peer)[m];
              && (r == a || r == b) && a.score <= r.score && b.score <= r.score
              && (a.score == b.score ==> a.timestamp <= r.timestamp && b.timestamp <= r.timestamp)
              && (a.score == b.score && a.timestamp == b.timestamp ==>
                    !LexLess(r.node, a.node) && !LexLess(r.node, b.node))
  {
    if m in mine && m in peer {
      LexTotal(mine[m].node, peer[m].node);
      LexTotal(mine[m].node, mine[m].node);
      LexTotal(peer[m].node, peer[m].node);
    }
  }

  lemma LiveUpdate(mm: MemberMap, r: Member)
    ensures LiveEntries(mm[r.member := r]) ==
            (if r.member in mm then LiveEntries(mm) - {Entry(mm[r.member].score, r.member)} else LiveEntries(mm))
            + (if r.tombstone then {} else {Entry(r.score, r.member)})
  {
  }

  /** Live members and live entries are as many. */
  lemma LiveCard(mm: MemberMap)
    ensures |LiveEntries(mm)| == |set m | m in mm && !mm[m].tombstone|
    decreases |mm|
  {
    var names := set m | m in mm && !mm[m].tombstone;
    if names == {} {
      assert forall e: Entry :: e in LiveEntries(mm) ==> e.member in names;
    } else {
      var m :| m in names;
      var mm' := mm - {m};
      LiveCard(mm');
      assert (set n | n in mm' && !mm'[n].tombstone) == names - {m};
      assert LiveEntries(mm') == LiveEntries(mm) - {Entry(mm[m].score, m)};
      assert Entry(mm[m].score, m) in LiveEntries(mm);
    }
  }
}
