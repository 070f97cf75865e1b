/** Rank, the range reads and Count on the linked nodes. */
module SkipListReads {
  import opened Order
  import opened RankedSeq
  import opened Towers
  import opened SkipListWrites
  import opened SkipListEdits

  // ----- the reads -----

  predicate AtMost(e: Entry, score: real, member: string)
    ensures AtMost(e, score, member) <==> !Less(Entry(score, member), e)
  {
    LessTotal(e, Entry(score, member));
    e.score < score || (e.score == score && (e.member == member || LexLess(e.member, member)))
  }

  /** Rank's descent on one level: to the last node at or below (score, member). */
  method WalkAtMost(ghost nodes: seq<Node>, i: nat, start: Node, from: int, score: real,
      member: string) returns (x: Node, r: int)
    requires Sized(nodes) && LevelShape(nodes, Links(nodes, i), i) && Ascending(nodes)
    requires 0 <= from < |nodes| && start == nodes[from] && i < start.height
    requires from > 0 ==> AtMost(start.Key(), score, member)
    ensures from <= r < |nodes| && x == nodes[r] && i < x.height && (r > 0 ==> AtMost(x.Key(), score, member))
    ensures forall q :: r < q < |nodes| && i < nodes[q].height ==> Less(Entry(score, member), nodes[q].Key())
  {
    x, r := start, from;
    assert LinkShape(nodes, Links(nodes, i), r, i);
    while x.forward[i] != null && AtMost(x.forward[i].Key(), score, member)
      invariant from <= r < |nodes| && x == nodes[r] && i < x.height
      invariant LinkShape(nodes, Links(nodes, i), r, i)
      invariant r > 0 ==> AtMost(x.Key(), score, member)
      decreases |nodes| - r
    {
      r, x := r + x.span[i], x.forward[i];
    }
    if x.forward[i] != null {
      ghost var t := r + x.span[i];
      forall q | t < q < |nodes| ensures Less(Entry(score, member), nodes[q].Key()) {
        LessTransitive(Entry(score, member), nodes[t].Key(), nodes[q].Key());
      }
    }
  }

  /** Where Rank's search ends without a hit, the key is nowhere. */
  lemma NotAtRank(nodes: seq<Node>, level: int, key: Entry, r: int)
    requires Ascending(nodes) && Heights(nodes, level) && 0 <= r < |nodes|
    requires r > 0 ==> !Less(key, nodes[r].Key()) && nodes[r].Key() != key
    requires forall q :: r < q < |nodes| && 0 < nodes[q].height ==> Less(key, nodes[q].Key())
    ensures key !in Keys(nodes[1..])
  {
    forall p | 1 <= p < |nodes| ensures nodes[p].Key() != key {
      LessTotal(key, nodes[r].Key());
      if p < r {
        LessTransitive(nodes[p].Key(), nodes[r].Key(), key);
        LessTotal(nodes[p].Key(), key);
      } else if r < p {
        LessTotal(key, nodes[p].Key());
      }
    }
  }

  /** Rank by summing spans down the levels. */
  method RankOf(ghost nodes: seq<Node>, header: Node, level: int, member: string, score: real) returns (rank: int,
      found: bool)
    requires Climbable(nodes, level) && Heights(nodes, level) && Distinct(nodes) && header == nodes[0]
    ensures found <==> Entry(score, member) in Keys(nodes[1..])
    ensures if found then 0 <= rank < |nodes| - 1 && Keys(nodes[1..])[rank] == Entry(score, member) else rank == 0
  {
    rank := 0;
    var x := header;
    for i := level downto 0
      invariant 0 <= rank < |nodes| && x == nodes[rank] && i <= x.height
      invariant rank > 0 ==> AtMost(x.Key(), score, member)
      invariant i < level ==>
                  forall q :: rank < q < |nodes| && i < nodes[q].height ==> Less(Entry(score, member), nodes[q].Key())
      invariant i < level && rank > 0 ==> x.Key() != Entry(score, member)
    {
      assert LevelShape(nodes, Links(nodes, i), i);
      x, rank := WalkAtMost(nodes, i, x, rank, score, member);
      if x != header && x.member == member && x.score == score {
        assert Keys(nodes[1..])[rank - 1] == x.Key();
        return rank - 1, true;
      }
    }
    NotAtRank(nodes, level, Entry(score, member), rank);
    return 0, false;
  }

  /** Range's and Count's descent on one level: to the last node scored below min. */
  method WalkScore(ghost nodes: seq<Node>, i: nat, start: Node, ghost from: int, min: real) returns (x: Node,
      ghost r: int)
    requires Sized(nodes) && LevelShape(nodes, Links(nodes, i), i) && Ascending(nodes)
    requires 0 <= from < |nodes| && start == nodes[from] && i < start.height
    requires from > 0 ==> start.score < min
    ensures from <= r < |nodes| && x == nodes[r] && i < x.height && (r > 0 ==> x.score < min)
    ensures forall q :: r < q < |nodes| && i < nodes[q].height ==> min <= nodes[q].score
  {
    x, r := start, from;
    assert LinkShape(nodes, Links(nodes, i), r, i);
    while x.forward[i] != null && x.forward[i].score < min
      invariant from <= r < |nodes| && x == nodes[r] && i < x.height
      invariant LinkShape(nodes, Links(nodes, i), r, i)
      invariant r > 0 ==> x.score < min
      decreases |nodes| - r
    {
      r, x := r + x.span[i], x.forward[i];
    }
    if x.forward[i] != null {
      assert forall q :: r + x.span[i] < q < |nodes| ==> Less(nodes[r + x.span[i]].Key(), nodes[q].Key());
    }
  }

  /** The last node scored below min, over all levels. */
  method SeekScore(ghost nodes: seq<Node>, header: Node, level: int, min: real) returns (x: Node, ghost r: int)
    requires Climbable(nodes, level) && Heights(nodes, level) && header == nodes[0]
    ensures 0 <= r < |nodes| && x == nodes[r]
    ensures forall p :: 1 <= p <= r ==> nodes[p].score < min
    ensures forall p :: r < p < |nodes| ==> min <= nodes[p].score
  {
    x, r := header, 0;
    for i := level downto 0
      invariant 0 <= r < |nodes| && x == nodes[r] && i <= x.height && (r > 0 ==> x.score < min)
      invariant i < level ==> forall q :: r < q < |nodes| && i < nodes[q].height ==> min <= nodes[q].score
    {
      assert LevelShape(nodes, Links(nodes, i), i);
      x, r := WalkScore(nodes, i, x, r, min);
    }
    assert forall p :: 1 <= p < r ==> Less(nodes[p].Key(), nodes[r].Key());
  }

  /** The level-0 successor of the node at position k. */
  method Next(ghost nodes: seq<Node>, ghost level: int, ghost k: int, x: Node) returns (next: Node?)
    requires Climbable(nodes, level) && Heights(nodes, level) && 0 <= k < |nodes| && x == nodes[k]
    ensures next == if k + 1 < |nodes| then nodes[k + 1] else null
  {
    assert LevelShape(nodes, Links(nodes, 0), 0);
    NextIs(nodes, level, k);
    next := x.forward[0];
  }

  lemma KeysSlice(nodes: seq<Node>, lo: nat, hi: nat)
    requires lo <= hi < |nodes|
    ensures Keys(nodes[1..])[lo..hi] == Keys(nodes[lo + 1..hi + 1])
  {
    var s, t := Keys(nodes[1..])[lo..hi], Keys(nodes[lo + 1..hi + 1]);
    forall i | 0 <= i < hi - lo ensures s[i] == t[i] == nodes[lo + 1 + i].Key() {
      assert s[i] == Keys(nodes[1..])[lo + i];
    }
  }

  /** Every position up to r scores below min, and none after it does. */
  lemma SeekMeaning(nodes: seq<Node>, min: real, max: real, r: int, p: int)
    requires Ascending(nodes) && 0 <= r < p <= |nodes|
    requires forall q :: 1 <= q <= r ==> nodes[q].score < min
    requires forall q :: r < q < p ==> min <= nodes[q].score <= max
    ensures InScores(Keys(nodes[1..]), min, max) ==
            Keys(nodes[r + 1..p]) + InScores(Keys(nodes[1..])[p - 1..], min, max)
    ensures p == |nodes| || nodes[p].score > max ==> InScores(Keys(nodes[1..])[p - 1..], min, max) == []
  {
    var s := Keys(nodes[1..]);
    InScoresFrom(s, min, max, r, p - 1);
    KeysSlice(nodes, r, p - 1);
    if p == |nodes| || nodes[p].score > max {
      var rest := s[p - 1..];
      forall q | 0 <= q < |rest| ensures rest[q].score > max {
        assert q > 0 ==> Less(nodes[p].Key(), nodes[p + q].Key());
      }
      InScoresNone(rest, min, max);
    }
  }

  lemma RangeEnds(nodes: seq<Node>, min: real, max: real, limit: int, r: int, p: int, found: seq<Node>)
    requires Ascending(nodes) && 0 <= r < p <= |nodes| && found == nodes[r + 1..p]
    requires forall q :: 1 <= q <= r ==> nodes[q].score < min
    requires forall q :: r < q < p ==> min <= nodes[q].score <= max
    requires |found| <= limit || found == []
    requires p == |nodes| || nodes[p].score > max || |found| >= limit
    ensures Keys(found) == Take(InScores(Keys(nodes[1..]), min, max), limit)
  {
    SeekMeaning(nodes, min, max, r, p);
    var rest := InScores(Keys(nodes[1..])[p - 1..], min, max);
    assert Keys(found) + [] == Keys(found);
    if |found| >= limit { assert (Keys(found) + rest)[..|found|] == Keys(found); }
  }

  /** Range: the lowest `limit` entries scored min..max. */
  method RangeOf(ghost nodes: seq<Node>, header: Node, level: int, min: real, max: real,
      limit: int) returns (found: seq<Node>)
    requires Climbable(nodes, level) && Heights(nodes, level) && header == nodes[0]
    ensures Keys(found) == Take(InScores(Keys(nodes[1..]), min, max), limit)
  {
    var seek, r := SeekScore(nodes, header, level, min);
    var x := Next(nodes, level, r, seek);
    ghost var p := r + 1;
    found := [];
    while x != null && x.score <= max && |found| < limit
      invariant r < p <= |nodes| && x == (if p < |nodes| then nodes[p] else null)
      invariant found == nodes[r + 1..p] && (|found| <= limit || found == [])
      invariant forall q :: r < q < p ==> min <= nodes[q].score <= max
      decreases |nodes| - p
    {
      SliceStep(nodes, r + 1, p);
      if x.score >= min {
        found := found + [x];
      }
      x := Next(nodes, level, p, x);
      p := p + 1;
    }
    RangeEnds(nodes, min, max, limit, r, p, found);
  }

  /** Count: how many entries are scored min..max. */
  method CountOf(ghost nodes: seq<Node>, header: Node, level: int, min: real, max: real) returns (count: int)
    requires Climbable(nodes, level) && Heights(nodes, level) && header == nodes[0]
    ensures count == |InScores(Keys(nodes[1..]), min, max)|
  {
    var seek, r := SeekScore(nodes, header, level, min);
    var x := Next(nodes, level, r, seek);
    ghost var p := r + 1;
    count := 0;
    while x != null && x.score <= max
      invariant r < p <= |nodes| && x == (if p < |nodes| then nodes[p] else null)
      invariant count == p - r - 1
      invariant forall q :: r < q < p ==> min <= nodes[q].score <= max
      decreases |nodes| - p
    {
      if x.score >= min {
        count := count + 1;
      }
      x := Next(nodes, level, p, x);
      p := p + 1;
    }
    SeekMeaning(nodes, min, max, r, p);
  }

  /** RangeByRank: the entries at ranks start..stop. */
  method RanksOf(ghost nodes: seq<Node>, header: Node, level: int, start: int, stop: int) returns (found: seq<Node>)
    requires Climbable(nodes, level) && Heights(nodes, level) && header == nodes[0]
    ensures Keys(found) == Ranks(Keys(nodes[1..]), start, stop)
  {
    found := [];
    var x := Next(nodes, level, 0, header);
    var i := 0;
    while x != null && i <= stop
      invariant 0 <= i < |nodes| && x == (if i + 1 < |nodes| then nodes[i + 1] else null)
      invariant i <= stop + 1 || i == 0
      invariant RanksTo(nodes, start, i, found)
      decreases |nodes| - i
    {
      RanksNext(nodes, start, i, found);
      if i >= start {
        found := found + [x];
      }
      x := Next(nodes, level, i + 1, x);
      i := i + 1;
    }
    RanksMeaning(nodes, start, stop, i, found);
  }

  lemma SliceStep<T>(s: seq<T>, lo: nat, hi: nat)
    requires lo <= hi < |s|
    ensures s[lo..hi + 1] == s[lo..hi] + [s[hi]]
  {
  }

  /** Of the first i entries, those with a rank from the start on have been found. */
  ghost predicate RanksTo(nodes: seq<Node>, start: int, i: int, found: seq<Node>)
    requires 0 <= i < |nodes|
  {
    var lo := if start < 0 then 0 else start;
    found == if lo < i then nodes[lo + 1..i + 1] else []
  }

  lemma RanksNext(nodes: seq<Node>, start: int, i: int, found: seq<Node>)
    requires 0 <= i && i + 1 < |nodes| && RanksTo(nodes, start, i, found)
    ensures RanksTo(nodes, start, i + 1, if i >= start then found + [nodes[i + 1]] else found)
  {
    if i >= start { SliceStep(nodes, (if start < 0 then 0 else start) + 1, i + 1); }
  }

  lemma RanksMeaning(nodes: seq<Node>, start: int, stop: int, i: int, found: seq<Node>)
    requires 0 <= i < |nodes| && (i + 1 == |nodes| || i > stop) && (i <= stop + 1 || i == 0)
    requires RanksTo(nodes, start, i, found)
    ensures Keys(found) == Ranks(Keys(nodes[1..]), start, stop)
  {
    var lo := if start < 0 then 0 else start;
    if lo < i { KeysSlice(nodes, lo, i); }
  }

  lemma DescendingMeaning(nodes: seq<Node>, min: real, max: real, p: int)
    requires Ascending(nodes) && 1 <= p <= |nodes|
    ensures InScores(Keys(nodes[1..]), min, max) ==
            InScores(Keys(nodes[1..p]), min, max) + InScores(Keys(nodes[p..]), min, max)
    ensures p > 1 && nodes[p - 1].score < min ==> InScores(Keys(nodes[1..p]), min, max) == []
  {
    assert Keys(nodes[1..]) == Keys(nodes[1..p]) + Keys(nodes[p..]);
    InScoresConcat(Keys(nodes[1..p]), Keys(nodes[p..]), min, max);
    if p > 1 && nodes[p - 1].score < min {
      forall q | 0 <= q < p - 1 ensures Keys(nodes[1..p])[q].score < min {
        assert q + 1 < p - 1 ==> Less(nodes[q + 1].Key(), nodes[p - 1].Key());
      }
      InScoresNone(Keys(nodes[1..p]), min, max);
    }
  }

  lemma DescendingStep(nodes: seq<Node>, min: real, max: real, p: int)
    requires 1 < p <= |nodes|
    ensures Reverse(InScores(Keys(nodes[p - 1..]), min, max)) ==
            Reverse(InScores(Keys(nodes[p..]), min, max))
            + (if min <= nodes[p - 1].score <= max then [nodes[p - 1].Key()] else [])
  {
    assert Keys(nodes[p - 1..])[1..] == Keys(nodes[p..]);
    assert InScores(Keys(nodes[p - 1..]), min, max) ==
           (if min <= nodes[p - 1].score <= max then [nodes[p - 1].Key()] else [])
           + InScores(Keys(nodes[p..]), min, max);
    ReverseConcat(if min <= nodes[p - 1].score <= max then [nodes[p - 1].Key()] else [],
                  InScores(Keys(nodes[p..]), min, max));
  }

  /** The entries from position p on with a score in the range have been found, the last one first. */
  ghost predicate DownTo(nodes: seq<Node>, min: real, max: real, p: int, found: seq<Node>)
    requires 1 <= p <= |nodes|
  {
    Keys(found) == Reverse(InScores(Keys(nodes[p..]), min, max))
  }

  lemma DownStarts(nodes: seq<Node>, min: real, max: real)
    requires |nodes| > 0
    ensures DownTo(nodes, min, max, |nodes|, [])
  {
    assert Keys(nodes[|nodes|..]) == [] && Keys([]) == [];
  }

  lemma DownNext(nodes: seq<Node>, min: real, max: real, p: int, found: seq<Node>)
    requires 1 < p <= |nodes| && DownTo(nodes, min, max, p, found)
    ensures if min <= nodes[p - 1].score <= max then DownTo(nodes, min, max, p - 1, found + [nodes[p - 1]])
            else DownTo(nodes, min, max, p - 1, found)
  {
    DescendingStep(nodes, min, max, p);
    assert Keys(found + [nodes[p - 1]]) == Keys(found) + [nodes[p - 1].Key()];
  }

  /** Stopping at the header, at a lower score, or at the limit. */
  lemma DownEnds(nodes: seq<Node>, min: real, max: real, limit: int, p: int, found: seq<Node>)
    requires Ascending(nodes) && 1 <= p <= |nodes| && DownTo(nodes, min, max, p, found)
    requires |found| <= limit || found == []
    requires p == 1 || nodes[p - 1].score < min || |found| >= limit
    ensures Keys(found) == Take(Reverse(InScores(Keys(nodes[1..]), min, max)), limit)
  {
    DescendingMeaning(nodes, min, max, p);
    var low, high := InScores(Keys(nodes[1..p]), min, max), InScores(Keys(nodes[p..]), min, max);
    ReverseConcat(low, high);
    assert p == 1 ==> Keys(nodes[1..p]) == [];
    assert |Reverse(high)| == |found|;
    if |found| >= limit { assert (Reverse(high) + Reverse(low))[..|found|] == Reverse(high); }
  }

  /** RangeDesc: the highest `limit` entries scored min..max, from the tail backward. */
  method RangeDescOf(ghost nodes: seq<Node>, header: Node, tail: Node?, min: real, max: real,
      limit: int) returns (found: seq<Node>)
    requires |nodes| > 0 && header == nodes[0] && Ascending(nodes) && Distinct(nodes)
    requires forall p {:trigger nodes[p].backward} :: 1 <= p < |nodes| ==> nodes[p].backward == nodes[p - 1]
    requires if |nodes| == 1 then tail == null || tail == header else tail == nodes[|nodes| - 1]
    ensures Keys(found) == Take(Reverse(InScores(Keys(nodes[1..]), min, max)), limit)
  {
    found := [];
    var x := tail;
    ghost var p := |nodes|;
    DownStarts(nodes, min, max);
    while x != null && x != header && |found| < limit
      invariant 1 <= p <= |nodes|
      invariant if p == 1 then x == null || x == header else x == nodes[p - 1]
      invariant DownTo(nodes, min, max, p, found) && (|found| <= limit || found == [])
      decreases p
    {
      DownNext(nodes, min, max, p, found);
      if x.score > max {
      } else if x.score < min {
        break;
      } else {
        found := found + [x];
      }
      x := x.backward;
      p := p - 1;
    }
    DownEnds(nodes, min, max, limit, p, found);
  }
}
