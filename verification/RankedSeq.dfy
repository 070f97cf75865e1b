/** The abstract value of a skip list: a sequence of entries in strict (score, member) order. */
module RankedSeq {
  import opened Wrappers
  import opened Order

  ghost predicate Sorted(s: seq<Entry>) {
    forall i, j :: 0 <= i < j < |s| ==> Less(s[i], s[j])
  }

  ghost function Elements(s: seq<Entry>): set<Entry> {
    set e | e in s
  }

  /** How many leading entries sort before `e`. */
  ghost function Position(s: seq<Entry>, e: Entry): (k: nat)
    ensures k <= |s|
  {
    if s != [] && Less(s[0], e) then 1 + Position(s[1..], e) else 0
  }

  ghost function Inserted(s: seq<Entry>, e: Entry): seq<Entry> {
    if e in s then s else s[..Position(s, e)] + [e] + s[Position(s, e)..]
  }

  ghost function Removed(s: seq<Entry>, e: Entry): seq<Entry> {
    if e in s && Position(s, e) < |s| then s[..Position(s, e)] + s[Position(s, e) + 1..] else s
  }

  lemma {:induction false} PositionIs(s: seq<Entry>, e: Entry, k: nat)
    requires k <= |s|
    requires forall i :: 0 <= i < k ==> Less(s[i], e)
    requires k < |s| ==> !Less(s[k], e)
    ensures Position(s, e) == k
  {
    if k > 0 {
      assert s[0] == s[0..][0];
      PositionIs(s[1..], e, k - 1);
    }
  }

  lemma {:induction false} PositionSplits(s: seq<Entry>, e: Entry)
    requires Sorted(s)
    ensures forall i :: 0 <= i < Position(s, e) ==> Less(s[i], e)
    ensures forall i :: Position(s, e) <= i < |s| ==> s[i] == e || Less(e, s[i])
    ensures e in s <==> Position(s, e) < |s| && s[Position(s, e)] == e
    ensures forall i :: 0 <= i < |s| && s[i] == e ==> i == Position(s, e)
  {
    if s != [] && Less(s[0], e) {
      PositionSplits(s[1..], e);
      assert forall i :: 1 <= i < |s| ==> s[i] == s[1..][i - 1];
      LessTotal(s[0], e);
    } else {
      forall i | 0 <= i < |s|
        ensures s[i] == e || Less(e, s[i])
        ensures s[i] == e ==> i == 0
      {
        LessTotal(s[0], e);
        LessTotal(s[i], e);
        if i > 0 && s[0] != e { LessTransitive(e, s[0], s[i]); }
      }
    }
  }

  lemma InsertedAt(s: seq<Entry>, e: Entry, k: nat)
    requires Sorted(s) && k <= |s|
    requires (forall i :: 0 <= i < k ==> Less(s[i], e)) && forall i :: k <= i < |s| ==> Less(e, s[i])
    ensures Sorted(s[..k] + [e] + s[k..])
    ensures Elements(s[..k] + [e] + s[k..]) == Elements(s) + {e}
  {
    var r := s[..k] + [e] + s[k..];
    forall i, j | 0 <= i < j < |r| ensures Less(r[i], r[j]) {
      if i < k < j { LessTransitive(s[i], e, s[j - 1]); }
    }
    assert s == s[..k] + s[k..];
  }

  /** Insert is set insertion, and keeps the strict order. */
  lemma InsertedMeaning(s: seq<Entry>, e: Entry)
    requires Sorted(s)
    ensures Sorted(Inserted(s, e))
    ensures Elements(Inserted(s, e)) == Elements(s) + {e}
  {
    PositionSplits(s, e);
    if e !in s {
      InsertedAt(s, e, Position(s, e));
    }
  }

  lemma RemovedAt(s: seq<Entry>, e: Entry, k: nat)
    requires Sorted(s) && k < |s| && s[k] == e && forall i :: 0 <= i < |s| && s[i] == e ==> i == k
    ensures Sorted(s[..k] + s[k + 1..])
    ensures Elements(s[..k] + s[k + 1..]) == Elements(s) - {e}
  {
    assert s == s[..k] + [e] + s[k + 1..];
    assert e !in s[..k] && e !in s[k + 1..];
  }

  /** Remove is set removal, and keeps the strict order. */
  lemma RemovedMeaning(s: seq<Entry>, e: Entry)
    requires Sorted(s)
    ensures Sorted(Removed(s, e))
    ensures Elements(Removed(s, e)) == Elements(s) - {e}
  {
    PositionSplits(s, e);
    if e in s {
      RemovedAt(s, e, Position(s, e));
    }
  }

  /** A sorted sequence is determined by its elements: no history of heights or of operation
      order can show through. */
  lemma {:induction false} SortedUnique(s: seq<Entry>, t: seq<Entry>)
    requires Sorted(s) && Sorted(t) && Elements(s) == Elements(t)
    ensures s == t
  {
    NoElements(s);
    NoElements(t);
    if s != [] {
      assert s[0] in Elements(t) && t[0] in Elements(s);
      LessTotal(s[0], t[0]);
      assert s[0] == t[0];
      forall x ensures x in Elements(s[1..]) <==> x in Elements(s) && x != s[0] { TailElements(s, x); }
      forall x ensures x in Elements(t[1..]) <==> x in Elements(t) && x != t[0] { TailElements(t, x); }
      assert Elements(s[1..]) == Elements(t[1..]);
      SortedUnique(s[1..], t[1..]);
      assert s == [s[0]] + s[1..] && t == [t[0]] + t[1..];
    }
  }

  lemma NoElements(s: seq<Entry>)
    ensures Elements(s) == {} <==> s == []
  {
    assert s != [] ==> s[0] in Elements(s);
  }

  lemma TailElements(s: seq<Entry>, x: Entry)
    requires Sorted(s) && s != []
    ensures x in Elements(s[1..]) <==> x in Elements(s) && x != s[0]
  {
    forall i | 1 <= i < |s| ensures s[i] != s[0] { LessTotal(s[0], s[i]); }
    assert s == [s[0]] + s[1..];
  }

  // ----- score ranges -----

  /** The entries with min <= score <= max, in order. */
  ghost function InScores(s: seq<Entry>, min: real, max: real): seq<Entry> {
    if s == [] then []
    else (if min <= s[0].score <= max then [s[0]] else []) + InScores(s[1..], min, max)
  }

  /** The first `limit` entries; none for a limit that is not positive. */
  ghost function Take(s: seq<Entry>, limit: int): (r: seq<Entry>)
    ensures r <= s && |r| == Limited(limit, |s|)
  {
    if limit <= 0 then [] else if limit < |s| then s[..limit] else s
  }

  ghost function Reverse(s: seq<Entry>): (r: seq<Entry>)
    ensures |r| == |s|
    ensures forall i :: 0 <= i < |s| ==> r[i] == s[|s| - 1 - i]
  {
    if s == [] then [] else Reverse(s[1..]) + [s[0]]
  }

  lemma {:induction false} InScoresConcat(a: seq<Entry>, b: seq<Entry>, min: real, max: real)
    ensures InScores(a + b, min, max) == InScores(a, min, max) + InScores(b, min, max)
  {
    if a == [] {
      assert a + b == b;
    } else {
      assert (a + b)[1..] == a[1..] + b;
      InScoresConcat(a[1..], b, min, max);
    }
  }

  lemma {:induction false} InScoresNone(s: seq<Entry>, min: real, max: real)
    requires forall i :: 0 <= i < |s| ==> !(min <= s[i].score <= max)
    ensures InScores(s, min, max) == []
  {
    if s != [] { InScoresNone(s[1..], min, max); }
  }

  lemma {:induction false} InScoresAll(s: seq<Entry>, min: real, max: real)
    requires forall i :: 0 <= i < |s| ==> min <= s[i].score <= max
    ensures InScores(s, min, max) == s
  {
    if s != [] { InScoresAll(s[1..], min, max); }
  }

  lemma {:induction false} InScoresListed(s: seq<Entry>, min: real, max: real)
    ensures forall e :: e in InScores(s, min, max) <==> e in s && min <= e.score <= max
  {
    if s != [] {
      InScoresListed(s[1..], min, max);
      assert s == [s[0]] + s[1..];
    }
  }

  /** A score range read from the front: nothing before lo, everything from lo to hi. */
  lemma InScoresFrom(s: seq<Entry>, min: real, max: real, lo: nat, hi: nat)
    requires lo <= hi <= |s|
    requires forall i :: 0 <= i < lo ==> s[i].score < min
    requires forall i :: lo <= i < hi ==> min <= s[i].score <= max
    ensures InScores(s, min, max) == s[lo..hi] + InScores(s[hi..], min, max)
  {
    assert s == s[..lo] + (s[lo..hi] + s[hi..]);
    InScoresConcat(s[..lo], s[lo..hi] + s[hi..], min, max);
    InScoresConcat(s[lo..hi], s[hi..], min, max);
    InScoresNone(s[..lo], min, max);
    InScoresAll(s[lo..hi], min, max);
  }

  /** The selection is in order, as the sequence is. */
  lemma {:induction false} InScoresSorted(s: seq<Entry>, min: real, max: real)
    requires Sorted(s)
    ensures Sorted(InScores(s, min, max))
  {
    if s != [] {
      InScoresSorted(s[1..], min, max);
      InScoresListed(s[1..], min, max);
      forall e | e in InScores(s[1..], min, max) ensures Less(s[0], e) {
        var i :| 0 <= i < |s[1..]| && s[1..][i] == e;
      }
    }
  }

  /** In a sorted sequence scores do not fall, and members with one score are in the order of their names. */
  lemma SortedAscends(s: seq<Entry>, i: nat, j: nat)
    requires Sorted(s) && i < j < |s|
    ensures s[i].score <= s[j].score
    ensures s[i].score == s[j].score ==> LexLess(s[i].member, s[j].member)
  {
    assert Less(s[i], s[j]);
  }

  /** The entries from the place start to the place stop, as far as there are such places. */
  lemma RanksMeaning(s: seq<Entry>, start: int, stop: int, e: Entry)
    ensures e in Ranks(s, start, stop) <==> exists k :: start <= k <= stop && 0 <= k < |s| && s[k] == e
    ensures forall i :: 0 <= i < |Ranks(s, start, stop)| ==>
              var k := if start < 0 then i else start + i; 0 <= k < |s| && Ranks(s, start, stop)[i] == s[k]
  {
    var r, lo := Ranks(s, start, stop), if start < 0 then 0 else start;
    if k :| start <= k <= stop && 0 <= k < |s| && s[k] == e { assert r[k - lo] == e; }
    if i :| 0 <= i < |r| && r[i] == e { assert s[lo + i] == e; }
  }

  lemma TakenListed(s: seq<Entry>, limit: int, e: Entry)
    requires e in Take(s, limit)
    ensures e in s
  {
  }

  lemma ReversedListed(s: seq<Entry>, e: Entry)
    requires e in Reverse(s)
    ensures e in s
  {
    var r := Reverse(s);
    var i :| 0 <= i < |r| && r[i] == e;
    assert s[|s| - 1 - i] == e;
  }

  /** What a read by score gives is in the sequence, whichever way round. */
  lemma SelectedListed(s: seq<Entry>, min: real, max: real, limit: int)
    ensures forall e :: e in Take(InScores(s, min, max), limit) ==> e in s
    ensures forall e :: e in Take(Reverse(InScores(s, min, max)), limit) ==> e in s
  {
    InScoresListed(s, min, max);
    var up := InScores(s, min, max);
    forall e | e in Take(up, limit) ensures e in s {
      TakenListed(up, limit, e);
    }
    forall e | e in Take(Reverse(up), limit) ensures e in s {
      TakenListed(Reverse(up), limit, e);
      ReversedListed(up, e);
    }
  }

  lemma ReverseDescends(s: seq<Entry>, limit: int, i: nat, j: nat)
    requires Sorted(s) && i < j < |Take(Reverse(s), limit)|
    ensures Take(Reverse(s), limit)[j].score <= Take(Reverse(s), limit)[i].score
  {
    var r, n := Reverse(s), |s| - 1;
    assert r[i] == s[n - i] && r[j] == s[n - j];
    SortedAscends(s, n - j, n - i);
  }

  lemma {:induction false} ReverseConcat(a: seq<Entry>, b: seq<Entry>)
    ensures Reverse(a + b) == Reverse(b) + Reverse(a)
  {
  }

  /** The entries at ranks start..stop, both included; ranks outside the sequence select nothing. */
  ghost function Ranks(s: seq<Entry>, start: int, stop: int): seq<Entry> {
    var lo := if start < 0 then 0 else start;
    var hi := if stop + 1 > |s| then |s| else stop + 1;
    if lo < hi then s[lo..hi] else []
  }

  /** What Range, RangeDesc and Count tell about one another: with no limit in the way a descending read
      is the ascending one reversed, and a limit keeps the lowest, respectively the highest, of them. */
  lemma AscendingAndDescending(s: seq<Entry>, min: real, max: real, limit: int)
    ensures limit >= |InScores(s, min, max)| ==>
              Take(Reverse(InScores(s, min, max)), limit) == Reverse(Take(InScores(s, min, max), limit))
    ensures 0 <= limit <= |InScores(s, min, max)| ==>
              Take(Reverse(InScores(s, min, max)), limit)
              == Reverse(InScores(s, min, max)[|InScores(s, min, max)| - limit..])
  {
    var r := InScores(s, min, max);
    if 0 <= limit <= |r| {
      assert r == r[..|r| - limit] + r[|r| - limit..];
      ReverseConcat(r[..|r| - limit], r[|r| - limit..]);
    }
  }

  lemma {:induction false} SortedCard(s: seq<Entry>)
    requires Sorted(s)
    ensures |Elements(s)| == |s|
  {
    NoElements(s);
    if s != [] {
      SortedCard(s[1..]);
      forall x ensures x in Elements(s[1..]) <==> x in Elements(s) && x != s[0] { TailElements(s, x); }
      assert s[0] in Elements(s);
      assert Elements(s[1..]) == Elements(s) - {s[0]};
    }
  }

  /** An entry's ascending and descending rank and its own place fill the sequence. */
  lemma RankAndRevRank(s: seq<Entry>, e: Entry, rank: nat, revRank: nat)
    requires Sorted(s) && rank < |s| && revRank < |s|
    requires s[rank] == e && s[|s| - 1 - revRank] == e
    ensures rank + revRank + 1 == |s|
  {
    PositionSplits(s, e);
  }
}
