/** The skip list: a linked structure of up to MAX_LEVEL levels whose value is one sorted sequence. */
module SkipLists {
  import opened Wrappers
  import opened Order
  import opened RankedSeq
  import opened Towers
  import opened SkipListEdits
  import opened SkipListReads

  lemma FoundAscend(found: seq<Node>, s: seq<Entry>, min: real, max: real, limit: int)
    requires Sorted(s) && Keys(found) == Take(InScores(s, min, max), limit)
    ensures forall i, j :: 0 <= i < j < |found| ==> found[i].score <= found[j].score
  {
    InScoresSorted(s, min, max);
    forall i, j | 0 <= i < j < |found| ensures found[i].score <= found[j].score {
      assert Keys(found)[i] == found[i].Key() && Keys(found)[j] == found[j].Key();
      SortedAscends(InScores(s, min, max), i, j);
    }
  }

  lemma FoundDescend(found: seq<Node>, s: seq<Entry>, min: real, max: real, limit: int)
    requires Sorted(s) && Keys(found) == Take(Reverse(InScores(s, min, max)), limit)
    ensures forall i, j :: 0 <= i < j < |found| ==> found[j].score <= found[i].score
  {
    InScoresSorted(s, min, max);
    forall i, j | 0 <= i < j < |found| ensures found[j].score <= found[i].score {
      assert Keys(found)[i] == found[i].Key() && Keys(found)[j] == found[j].Key();
      ReverseDescends(InScores(s, min, max), limit, i, j);
    }
  }

  class SkipList {
    const header: Node
    var tail: Node?
    var level: int
    var length: int
    ghost var nodes: seq<Node>  // the header, then every member's node in order

    ghost predicate Valid()
      reads this, nodes
    {
      && Whole(nodes, level)
      && header == nodes[0] && length == |nodes| - 1
      && (if length == 0 then tail == null || tail == header else tail == nodes[length])
    }

    ghost function Repr(): set<Node>
      reads this
    {
      set n | n in nodes
    }

    /** The abstract value. */
    ghost function Contents(): seq<Entry>
      reads this
    {
      if nodes == [] then [] else Keys(nodes[1..])
    }

    constructor ()
      ensures Valid() && Contents() == [] && fresh(Repr())
    {
      var h := new Node("", 0.0, MAX_LEVEL);
      header, tail, level, length, nodes := h, null, 1, 0, [h];
      new;
      assert LinkShape(nodes, Links(nodes, 0), 0, 0);
    }

    /** Adds (score, member). The new node's height is any level, and does not show in the result. */
    method Insert(member: string, score: real) returns (inserted: bool)
      requires Valid()
      modifies this, Repr()
      ensures Valid() && fresh(Repr() - old(Repr()))
      ensures Contents() == Inserted(old(Contents()), Entry(score, member))
      ensures inserted == (Entry(score, member) !in old(Contents()))
    {
      var x, top, grown := InsertNode(nodes, header, level, length, member, score);
      if x == null {
        return false;
      }
      Adopt(x, top, grown);
      return true;
    }

    /** Insert's last assignments. */
    method Adopt(x: Node, top: int, ghost grown: seq<Node>)
      requires Whole(grown, top) && |grown| == length + 2 && grown[0] == header
      requires 0 < |x.forward|
      modifies this
      ensures nodes == grown && level == top && length == old(length) + 1
      ensures tail == if x.forward[0] == null then x else old(tail)
      ensures Whole(grown, top)
    {
      if x.forward[0] == null {
        tail := x;
      }
      level, length, nodes := top, length + 1, grown;
    }

    /** Removes (score, member). */
    method Delete(member: string, score: real) returns (deleted: bool)
      requires Valid()
      modifies this, Repr()
      ensures Valid() && Repr() <= old(Repr())
      ensures Contents() == Removed(old(Contents()), Entry(score, member))
      ensures deleted == (Entry(score, member) in old(Contents()))
    {
      var x, top, rest := DeleteNode(nodes, header, level, member, score);
      if x == null {
        return false;
      }
      Drop(x, top, rest);
      return true;
    }

    /** Delete's last assignments. */
    method Drop(x: Node, top: int, ghost rest: seq<Node>)
      requires Whole(rest, top) && |rest| == length && rest != [] && rest[0] == header
      requires 0 < |x.forward|
      modifies this
      ensures nodes == rest && level == top && length == old(length) - 1
      ensures tail == if x.forward[0] == null then x.backward else old(tail)
      ensures Whole(rest, top)
    {
      if x.forward[0] == null {
        tail := x.backward;
      }
      level, length, nodes := top, length - 1, rest;
    }

    /** The index of (score, member) in the list. */
    method Rank(member: string, score: real) returns (rank: int, found: bool)
      requires Valid()
      ensures found <==> Entry(score, member) in Contents()
      ensures if found then 0 <= rank < |Contents()| && Contents()[rank] == Entry(score, member) else rank == 0
    {
      GoodClimbable(nodes, level);
      rank, found := RankOf(nodes, header, level, member, score);
    }

    /** The lowest `limit` entries scored min..max. */
    method Range(min: real, max: real, limit: int) returns (found: seq<Node>)
      requires Valid()
      ensures Keys(found) == Take(InScores(Contents(), min, max), limit)
      ensures |found| == Limited(limit, |InScores(Contents(), min, max)|)
      ensures forall i, j :: 0 <= i < j < |found| ==> found[i].score <= found[j].score
    {
      GoodClimbable(nodes, level);
      found := RangeOf(nodes, header, level, min, max, limit);
      AscendingKeys(nodes);
      FoundAscend(found, Contents(), min, max, limit);
    }

    /** The highest `limit` entries scored min..max, highest first. */
    method RangeDesc(min: real, max: real, limit: int) returns (found: seq<Node>)
      requires Valid()
      ensures Keys(found) == Take(Reverse(InScores(Contents(), min, max)), limit)
      ensures |found| == Limited(limit, |InScores(Contents(), min, max)|)
      ensures forall i, j :: 0 <= i < j < |found| ==> found[j].score <= found[i].score
    {
      assert forall p {:trigger nodes[p].backward} :: 0 <= p < |nodes| ==> nodes[p].backward == Backs(nodes)[p];
      found := RangeDescOf(nodes, header, tail, min, max, limit);
      AscendingKeys(nodes);
      FoundDescend(found, Contents(), min, max, limit);
    }

    /** The entries at ranks start..stop. */
    method RangeByRank(start: int, stop: int) returns (found: seq<Node>)
      requires Valid()
      ensures Keys(found) == Ranks(Contents(), start, stop)
    {
      GoodClimbable(nodes, level);
      found := RanksOf(nodes, header, level, start, stop);
    }

    /** How many entries are scored min..max. */
    method Count(min: real, max: real) returns (count: int)
      requires Valid()
      ensures count == |InScores(Contents(), min, max)|
    {
      GoodClimbable(nodes, level);
      count := CountOf(nodes, header, level, min, max);
    }

    method Length() returns (n: int)
      requires Valid()
      ensures n == |Contents()|
    {
      n := length;
    }
  }
}
