/** What retention leaves of a log, how a merge orders it, and which part of it a read returns. */
module Retention {
  import opened Wrappers
  import opened StreamLog

  /** Ages and times in milliseconds. */
  datatype Policy = Policy(maxAge: int, maxSize: int, maxEntries: nat)

  const DEFAULT_POLICY := Policy(86_400_000, 1_073_741_824, 1_000_000)

  predicate TooOld(e: Entry, now: int, maxAge: int) {
    now - e.timestamp > maxAge
  }

  function Young(entries: seq<Entry>, now: int, maxAge: int): seq<Entry> {
    if entries == [] then []
    else
      var last := entries[|entries| - 1];
      Young(entries[..|entries| - 1], now, maxAge) + (if TooOld(last, now, maxAge) then [] else [last])
  }

  /** The bytes of an entry's fields, in any order of the fields. */
  ghost function FieldsSize(fields: map<string, string>): nat
    decreases |fields|
  {
    if fields == map[] then 0 else
      var k :| k in fields;
      |k| + |fields[k]| + FieldsSize(fields - {k})
  }

  lemma {:induction false} FieldsSizeTakes(fields: map<string, string>, k: string)
    requires k in fields
    ensures FieldsSize(fields) == |k| + |fields[k]| + FieldsSize(fields - {k})
    decreases |fields|
  {
    var j :| j in fields && FieldsSize(fields) == |j| + |fields[j]| + FieldsSize(fields - {j});
    if j != k {
      FieldsSizeTakes(fields - {j}, k);
      FieldsSizeTakes(fields - {k}, j);
      assert fields - {j} - {k} == fields - {k} - {j};
    }
  }

  ghost function EntrySize(e: Entry): nat {
    |e.id| + |e.node| + FieldsSize(e.fields)
  }

  ghost function Size(entries: seq<Entry>): nat {
    if entries == [] then 0 else EntrySize(entries[0]) + Size(entries[1..])
  }

  /** Drops the oldest entries until the rest is not over the size. */
  ghost function Light(entries: seq<Entry>, maxSize: int): seq<Entry> {
    if entries == [] || Size(entries) <= maxSize then entries else Light(entries[1..], maxSize)
  }

  ghost function Retained(p: Policy, now: int, entries: seq<Entry>): seq<Entry> {
    Light(LastOf(p.maxEntries, Young(entries, now, p.maxAge)), p.maxSize)
  }

  // ----- the order of a merged log -----

  function InsertInto(sorted: seq<Entry>, e: Entry): seq<Entry> {
    if sorted == [] || !Before(e, sorted[|sorted| - 1]) then sorted + [e]
    else InsertInto(sorted[..|sorted| - 1], e) + [sorted[|sorted| - 1]]
  }

  function SortEntries(entries: seq<Entry>): seq<Entry> {
    if entries == [] then [] else InsertInto(SortEntries(entries[..|entries| - 1]), entries[|entries| - 1])
  }

  // ----- identifiers -----

  ghost predicate DistinctIds(entries: seq<Entry>) {
    forall i, j :: 0 <= i < j < |entries| ==> entries[i].id != entries[j].id
  }

  function Find(entries: seq<Entry>, id: string): Option<nat> {
    FindFrom(entries, id, 0)
  }

  function FindFrom(entries: seq<Entry>, id: string, from: nat): (r: Option<nat>)
    requires from <= |entries|
    ensures r.Some? ==> from <= r.value < |entries| && entries[r.value].id == id
    ensures r.None? ==> forall i :: from <= i < |entries| ==> entries[i].id != id
    decreases |entries| - from
  {
    if from == |entries| then None else if entries[from].id == id then Some(from) else FindFrom(entries, id, from + 1)
  }

  /** The index of a log: exactly its identifiers, each with its entry. */
  ghost predicate Indexes(index: map<string, Entry>, entries: seq<Entry>) {
    && (forall i :: 0 <= i < |entries| ==> entries[i].id in index && index[entries[i].id] == entries[i])
    && (forall id :: id in index ==> index[id] in entries && index[id].id == id)
  }

  // ----- reading -----

  function StartOf(entries: seq<Entry>, id: string): (start: nat)
    ensures start <= |entries|
  {
    if id == "0" || id == "" then 0 else match Find(entries, id) case None => 0 case Some(i) => i + 1
  }

  function EndOf(entries: seq<Entry>, id: string): (end: int)
    ensures -1 <= end < |entries|
  {
    if id == "-" || id == "" then |entries| - 1
    else match Find(entries, id) case None => |entries| - 1 case Some(i) => i
  }

  function Between(entries: seq<Entry>, start: nat, end: int, limit: int): seq<Entry>
    requires end < |entries|
  {
    if start > end then [] else entries[start..start + Limited(limit, end + 1 - start)]
  }

  function RangeOf(entries: seq<Entry>, startId: string, endId: string, limit: int): seq<Entry> {
    Between(entries, StartOf(entries, startId), EndOf(entries, endId), limit)
  }

  /** A range up to the current last entry. */
  lemma RangeToEnd(entries: seq<Entry>, id: string, limit: int)
    ensures var k := StartOf(entries, id);
            RangeOf(entries, id, "-", limit) == entries[k..k + Limited(limit, |entries| - k)]
  {
  }

  /** A range starts after the entry that is named, and at the beginning where none is. */
  lemma StartMeaning(entries: seq<Entry>, id: string)
    ensures var start := StartOf(entries, id);
            if start > 0 then id != "0" && id != "" && entries[start - 1].id == id
            else id == "0" || id == "" || forall i :: 0 <= i < |entries| ==> entries[i].id != id
  {
  }

  /** It ends with the entry that is named, and with the last one where none is. */
  lemma EndMeaning(entries: seq<Entry>, id: string)
    ensures var end := EndOf(entries, id);
            && (end < |entries| - 1 ==> id != "-" && id != "" && 0 <= end && entries[end].id == id)
            && (end == |entries| - 1 ==>
                  || id == "-" || id == "" || (0 <= end && entries[end].id == id)
                  || forall i :: 0 <= i < |entries| ==> entries[i].id != id)
  {
  }

  /** A limit of all entries is none. */
  lemma RangeAll(entries: seq<Entry>, id: string)
    ensures RangeOf(entries, id, "-", |entries|) == entries[StartOf(entries, id)..]
  {
    RangeToEnd(entries, id, |entries|);
  }

  // ----- laws -----

  lemma {:induction false} YoungHas(entries: seq<Entry>, now: int, maxAge: int, e: Entry)
    ensures e in Young(entries, now, maxAge) <==> e in entries && !TooOld(e, now, maxAge)
  {
    if entries != [] {
      YoungHas(entries[..|entries| - 1], now, maxAge, e);
      assert entries == entries[..|entries| - 1] + [entries[|entries| - 1]];
    }
  }

  lemma {:induction false} YoungKeeps(entries: seq<Entry>, now: int, maxAge: int)
    ensures DistinctIds(entries) ==> DistinctIds(Young(entries, now, maxAge))
    ensures Ordered(entries) ==> Ordered(Young(entries, now, maxAge))
  {
    if entries != [] {
      var front, last := entries[..|entries| - 1], entries[|entries| - 1];
      YoungKeeps(front, now, maxAge);
      FrontLast(entries);
      var young := Young(front, now, maxAge);
      forall i | 0 <= i < |young|
        ensures DistinctIds(entries) ==> young[i].id != last.id
        ensures Ordered(entries) ==> Before(young[i], last)
      {
        YoungHas(front, now, maxAge, young[i]);
        var k :| 0 <= k < |front| && front[k] == young[i];
        assert entries[k] == young[i] && entries[|entries| - 1] == last;
      }
    }
  }

  lemma {:induction false} YoungAll(entries: seq<Entry>, now: int, maxAge: int)
    requires forall e :: e in entries ==> !TooOld(e, now, maxAge)
    ensures Young(entries, now, maxAge) == entries
  {
    if entries != [] {
      FrontLast(entries);
      YoungAll(entries[..|entries| - 1], now, maxAge);
      assert entries[|entries| - 1] in entries;
    }
  }

  ghost predicate Suffix(s: seq<Entry>, t: seq<Entry>) {
    |s| <= |t| && s == t[|t| - |s|..]
  }

  lemma {:induction false} LightSuffix(entries: seq<Entry>, maxSize: int)
    ensures Suffix(Light(entries, maxSize), entries)
  {
    if entries != [] && Size(entries) > maxSize {
      LightSuffix(entries[1..], maxSize);
      var light := Light(entries, maxSize);
      assert entries[1..][|entries| - 1 - |light|..] == entries[|entries| - |light|..];
    }
  }

  ghost predicate Timely(entries: seq<Entry>) {
    forall i, j :: 0 <= i < j < |entries| ==> entries[i].timestamp <= entries[j].timestamp
  }

  /** On entries with nondecreasing timestamps the ones past their age are the first ones. */
  lemma SuffixMore(s: seq<Entry>, t: seq<Entry>)
    requires t != [] && Suffix(s, t[..|t| - 1])
    ensures Suffix(s + [t[|t| - 1]], t)
  {
    var front, last := t[..|t| - 1], t[|t| - 1];
    assert front + [last] == t;
    assert front[|front| - |s|..] + [last] == t[|front| - |s|..];
  }

  lemma {:induction false} YoungSuffix(entries: seq<Entry>, now: int, maxAge: int)
    requires Timely(entries)
    ensures Suffix(Young(entries, now, maxAge), entries)
  {
    if entries != [] {
      var front, last := entries[..|entries| - 1], entries[|entries| - 1];
      YoungSuffix(front, now, maxAge);
      if TooOld(last, now, maxAge) {
        YoungNone(front, now, maxAge);
      } else {
        SuffixMore(Young(front, now, maxAge), entries);
      }
    }
  }

  lemma {:induction false} YoungNone(entries: seq<Entry>, now: int, maxAge: int)
    requires forall i :: 0 <= i < |entries| ==> TooOld(entries[i], now, maxAge)
    ensures Young(entries, now, maxAge) == []
  {
    if entries != [] { YoungNone(entries[..|entries| - 1], now, maxAge); }
  }

  /** Then retention only ever removes a prefix. */
  lemma RetainedSuffix(p: Policy, now: int, entries: seq<Entry>)
    requires Timely(entries)
    ensures Suffix(Retained(p, now, entries), entries)
  {
    YoungSuffix(entries, now, p.maxAge);
    LightSuffix(LastOf(p.maxEntries, Young(entries, now, p.maxAge)), p.maxSize);
  }

  /** The n last entries and the one before them. */
  function Longer(entries: seq<Entry>, n: nat): seq<Entry>
    requires n < |entries|
  {
    entries[|entries| - n - 1..]
  }

  lemma LongerLater(entries: seq<Entry>, n: nat)
    requires n < |entries| - 1
    ensures Longer(entries, n) == Longer(entries[1..], n)
  {
  }

  lemma LongerInSuffix(s: seq<Entry>, t: seq<Entry>, n: nat)
    requires Suffix(s, t) && n < |s|
    ensures Longer(s, n) == Longer(t, n)
  {
  }

  /** What is left is not too heavy. */
  lemma {:induction false} LightWeight(entries: seq<Entry>, maxSize: int)
    ensures Light(entries, maxSize) == [] || Size(Light(entries, maxSize)) <= maxSize
  {
    if entries != [] && Size(entries) > maxSize { LightWeight(entries[1..], maxSize); }
  }

  lemma LongerAll(entries: seq<Entry>)
    requires entries != []
    ensures Longer(entries, |entries| - 1) == entries
  {
  }

  lemma LightLess(entries: seq<Entry>, maxSize: int)
    requires entries != [] && Size(entries) > maxSize
    ensures Light(entries, maxSize) == Light(entries[1..], maxSize)
  {
  }

  /** And one more entry would be. */
  lemma {:induction false} LightLongest(entries: seq<Entry>, maxSize: int)
    ensures var n := |Light(entries, maxSize)|;
            n <= |entries| && (n < |entries| ==> Size(Longer(entries, n)) > maxSize)
  {
    if entries != [] && Size(entries) > maxSize {
      LightLess(entries, maxSize);
      LightLongest(entries[1..], maxSize);
      var n := |Light(entries, maxSize)|;
      if n < |entries| - 1 { LongerLater(entries, n); } else { LongerAll(entries); }
    }
  }

  lemma YoungMeaning(entries: seq<Entry>, now: int, maxAge: int)
    requires Timely(entries)
    ensures Suffix(Young(entries, now, maxAge), entries)
    ensures var n := |Young(entries, now, maxAge)|;
            n < |entries| ==> now - entries[|entries| - n - 1].timestamp > maxAge
  {
    YoungSuffix(entries, now, maxAge);
    var k := |entries| - |Young(entries, now, maxAge)| - 1;
    if k >= 0 && now - entries[k].timestamp <= maxAge { YoungFrom(entries, now, maxAge, k); }
  }

  /** Entries from one on that is not too old all stay. */
  lemma {:induction false} YoungFrom(entries: seq<Entry>, now: int, maxAge: int, k: nat)
    requires Timely(entries) && k < |entries| && now - entries[k].timestamp <= maxAge
    ensures |Young(entries, now, maxAge)| >= |entries| - k
  {
    var front := entries[..|entries| - 1];
    if k < |front| { YoungFrom(front, now, maxAge, k); }
  }

  lemma SuffixElements(s: seq<Entry>, t: seq<Entry>)
    requires Suffix(s, t)
    ensures forall i :: 0 <= i < |s| ==> s[i] in t
  {
  }

  /** What retention keeps is not too old, not too many and not too heavy. */
  lemma RetainedMeets(p: Policy, now: int, entries: seq<Entry>)
    ensures var r := Retained(p, now, entries);
            && |r| <= p.maxEntries && (r == [] || Size(r) <= p.maxSize)
            && forall i :: 0 <= i < |r| ==> now - r[i].timestamp <= p.maxAge
  {
    var young, r := Young(entries, now, p.maxAge), Retained(p, now, entries);
    var last := LastOf(p.maxEntries, young);
    LightSuffix(last, p.maxSize);
    LightWeight(last, p.maxSize);
    SuffixElements(r, last);
    SuffixElements(last, young);
    forall i | 0 <= i < |r| ensures now - r[i].timestamp <= p.maxAge {
      YoungHas(entries, now, p.maxAge, r[i]);
    }
  }

  /** One more than the n entries kept would be too old, too many or too heavy. */
  ghost predicate NoneMore(p: Policy, now: int, entries: seq<Entry>, n: nat) {
    n < |entries| ==>
      || now - entries[|entries| - n - 1].timestamp > p.maxAge || n == p.maxEntries
      || Size(Longer(entries, n)) > p.maxSize
  }

  lemma NoneMoreOf(p: Policy, now: int, entries: seq<Entry>, young: seq<Entry>, last: seq<Entry>, n: nat)
    requires Suffix(young, entries) && last == LastOf(p.maxEntries, young) && n <= |last|
    requires |young| < |entries| ==> now - entries[|entries| - |young| - 1].timestamp > p.maxAge
    requires n < |last| ==> Size(Longer(last, n)) > p.maxSize
    ensures NoneMore(p, now, entries, n)
  {
    if n < |last| {
      LongerInSuffix(last, young, n);
      LongerInSuffix(young, entries, n);
    }
  }

  /** Of timely entries it keeps as many of the last ones as it can. */
  lemma RetainedLongest(p: Policy, now: int, entries: seq<Entry>)
    requires Timely(entries)
    ensures NoneMore(p, now, entries, |Retained(p, now, entries)|)
  {
    var young := Young(entries, now, p.maxAge);
    var last := LastOf(p.maxEntries, young);
    YoungMeaning(entries, now, p.maxAge);
    LightLongest(last, p.maxSize);
    var n := |Light(last, p.maxSize)|;
    NoneMoreOf(p, now, entries, young, last, n);
  }

  lemma ElementsLast(entries: seq<Entry>)
    requires entries != []
    ensures Elements(entries) == Elements(entries[..|entries| - 1]) + {entries[|entries| - 1]}
  {
    FrontLast(entries);
  }

  lemma ElementsMore(entries: seq<Entry>, e: Entry)
    ensures Elements(entries + [e]) == Elements(entries) + {e}
  {
    Snoc(entries, e);
    ElementsLast(entries + [e]);
  }

  lemma {:induction false} InsertIntoElements(sorted: seq<Entry>, e: Entry)
    ensures Elements(InsertInto(sorted, e)) == Elements(sorted) + {e}
    ensures |InsertInto(sorted, e)| == |sorted| + 1
  {
    if sorted != [] && Before(e, sorted[|sorted| - 1]) {
      InsertIntoElements(sorted[..|sorted| - 1], e);
      ElementsLast(sorted);
      ElementsMore(InsertInto(sorted[..|sorted| - 1], e), sorted[|sorted| - 1]);
    } else {
      ElementsMore(sorted, e);
    }
  }

  lemma {:induction false} InsertIntoOrdered(sorted: seq<Entry>, e: Entry)
    requires Ordered(sorted) && forall x :: x in sorted ==> Before(x, e) || Before(e, x)
    ensures Ordered(InsertInto(sorted, e))
  {
    if sorted == [] || !Before(e, sorted[|sorted| - 1]) {
      forall i | 0 <= i < |sorted| ensures Before(sorted[i], e) {
        assert sorted[|sorted| - 1] in sorted;
        if i < |sorted| - 1 { BeforeTransitive(sorted[i], sorted[|sorted| - 1], e); }
      }
    } else {
      var front, last := sorted[..|sorted| - 1], sorted[|sorted| - 1];
      InsertIntoOrdered(front, e);
      InsertIntoElements(front, e);
      var r := InsertInto(front, e);
      forall i | 0 <= i < |r| ensures Before(r[i], last) { assert r[i] in Elements(r); }
    }
  }

  lemma {:induction false} SortElements(entries: seq<Entry>)
    ensures Elements(SortEntries(entries)) == Elements(entries) && |SortEntries(entries)| == |entries|
  {
    if entries != [] {
      SortElements(entries[..|entries| - 1]);
      InsertIntoElements(SortEntries(entries[..|entries| - 1]), entries[|entries| - 1]);
      ElementsLast(entries);
    }
  }

  lemma {:induction false} InsertIntoAscends(sorted: seq<Entry>, e: Entry)
    requires Ascending(sorted)
    ensures Ascending(InsertInto(sorted, e))
  {
    if sorted == [] || !Before(e, sorted[|sorted| - 1]) {
      forall i | 0 <= i < |sorted| ensures !Before(e, sorted[i]) {
        if i < |sorted| - 1 { NotBeforeTransitive(sorted[i], sorted[|sorted| - 1], e); }
      }
    } else {
      var front, last := sorted[..|sorted| - 1], sorted[|sorted| - 1];
      InsertIntoAscends(front, e);
      InsertIntoElements(front, e);
      BeforeTotal(e, last);
      var r := InsertInto(front, e);
      forall i | 0 <= i < |r| ensures !Before(last, r[i]) {
        assert r[i] in Elements(front) + {e};
      }
    }
  }

  /** Whatever is sorted ascends. */
  lemma {:induction false} SortAscends(entries: seq<Entry>)
    ensures Ascending(SortEntries(entries))
  {
    if entries != [] {
      SortAscends(entries[..|entries| - 1]);
      InsertIntoAscends(SortEntries(entries[..|entries| - 1]), entries[|entries| - 1]);
    }
  }

  /** What retention leaves of it ascends as well. */
  lemma RetainedAscends(p: Policy, now: int, entries: seq<Entry>)
    requires Ascending(entries)
    ensures Ascending(Retained(p, now, entries))
  {
    forall i, j | 0 <= i < j < |entries| ensures entries[i].timestamp <= entries[j].timestamp {
      assert !Before(entries[j], entries[i]);
    }
    RetainedSuffix(p, now, entries);
  }

  lemma {:induction false} SortOrdered(entries: seq<Entry>)
    requires forall i, j :: 0 <= i < j < |entries| ==> Before(entries[i], entries[j]) || Before(entries[j], entries[i])
    ensures Ordered(SortEntries(entries))
  {
    if entries != [] {
      var front, last := entries[..|entries| - 1], entries[|entries| - 1];
      SortOrdered(front);
      SortElements(front);
      forall x | x in SortEntries(front) ensures Before(x, last) || Before(last, x) {
        assert x in Elements(front);
        var i :| 0 <= i < |front| && front[i] == x;
        assert entries[i] == x;
      }
      InsertIntoOrdered(SortEntries(front), last);
    }
  }
}
