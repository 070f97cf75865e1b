/** Claiming a job. The scan deletes expired jobs from the slice it is ranging over, so each deletion makes it
    skip the entry that moves into the gap; and once it has passed the shortened end it deletes out of range. */
module Claims {
  import opened Wrappers
  import opened Jobs

  /** What a claim comes to: a job, the error for none, or a run-time panic. */
  datatype Claim = Claimed(id: string) | NothingClaimable | Panicked

  /** The first unexpired job at an even position from i on. */
  function FirstEven(index: map<string, Job>, ids: seq<string>, now: int, i: nat): (r: Option<nat>)
    requires Known(index, ids)
    ensures r.Some? ==> i <= r.value < |ids| && (r.value - i) % 2 == 0 && !Expired(index[ids[r.value]], now)
    decreases |ids| - i
  {
    if i >= |ids| then None
    else if !Expired(index[ids[i]], now) then Some(i)
    else FirstEven(index, ids, now, i + 2)
  }

  /** The entries at even and at odd positions. */
  function Evens(ids: seq<string>): seq<string> {
    if |ids| == 0 then [] else [ids[0]] + Odds(ids[1..])
  }

  function Odds(ids: seq<string>): seq<string> {
    if |ids| == 0 then [] else Evens(ids[1..])
  }

  const LATE := "deadline exceeded"

  function DeadAll(q: Queue, ids: seq<string>): (r: Queue)
    requires Known(q.index, ids)
    ensures r.index.Keys == q.index.Keys
    decreases |ids|
  {
    if ids == [] then q else DeadLettered(DeadAll(q, ids[..|ids| - 1]), ids[|ids| - 1], LATE)
  }

  /** A claimed job leaves the pending list for the processing list. */
  function TakenBy(q: Queue, id: string, rest: seq<string>, worker: string, now: int, node: string): Queue
    requires id in q.index
  {
    q.(index := q.index[id := ClaimedBy(q.index[id], worker, now, node)], pending := rest,
       processing := q.processing + [id])
  }

  /** Every entry at an even position was expired and is dropped. */
  function AllDropped(q: Queue): (r: Queue)
    requires Known(q.index, q.pending)
    ensures r.index.Keys == q.index.Keys
  {
    EvensKnown(q.index, q.pending);
    DeadAll(q, Evens(q.pending)).(pending := Odds(q.pending))
  }

  /** What has happened to the entry past the end when its deletion panics. */
  function Stumbled(q: Queue, id: string, worker: string, now: int, node: string): Queue
    requires id in q.index
  {
    if Expired(q.index[id], now) then DeadLettered(q, id, LATE)
    else q.(index := q.index[id := ClaimedBy(q.index[id], worker, now, node)])
  }

  lemma AllDroppedKeeps(q: Queue)
    requires Known(q.index, q.pending)
    ensures var r := AllDropped(q);
            && r.log == q.log && r.processing == q.processing && r.lamport == q.lamport && r.superseded == q.superseded
            && r.pending == Odds(q.pending)
            && forall id :: id in q.index ==> SameForLists(r.index[id], q.index[id])
  {
    EvensKnown(q.index, q.pending);
    DeadAllKeeps(q, Evens(q.pending));
  }

  /** The outcome of a claim, and the queue after it. */
  function DoClaim(q: Queue, worker: string, now: int, node: string): (Claim, Queue)
    requires Known(q.index, q.pending)
  {
    var ids := q.pending;
    match FirstEven(q.index, ids, now, 0)
    case Some(f) =>
      EvensKnown(q.index, ids[..f]);
      (Claimed(ids[f]), TakenBy(DeadAll(q, Evens(ids[..f])), ids[f], Odds(ids[..f]) + ids[f + 1..], worker, now, node))
    case None =>
      if |ids| <= 1 then (NothingClaimable, AllDropped(q))
      else (Panicked, Stumbled(AllDropped(q), ids[|ids| - 1], worker, now, node))
  }

  lemma DoClaimAt(q: Queue, worker: string, now: int, node: string, f: nat)
    requires Known(q.index, q.pending) && FirstEven(q.index, q.pending, now, 0) == Some(f)
    ensures f < |q.pending| && Known(q.index, Evens(q.pending[..f])) && q.pending[f] in q.index
    ensures DoClaim(q, worker, now, node) ==
            (Claimed(q.pending[f]),
             TakenBy(DeadAll(q, Evens(q.pending[..f])), q.pending[f], Odds(q.pending[..f]) + q.pending[f + 1..],
                     worker, now, node))
  {
    EvensKnown(q.index, q.pending[..f]);
  }

  lemma {:induction false} EvensKnown(index: map<string, Job>, ids: seq<string>)
    requires Known(index, ids)
    ensures Known(index, Evens(ids)) && Known(index, Odds(ids))
  {
    if ids != [] { EvensKnown(index, ids[1..]); }
  }

  lemma {:induction false} DeadAllKeeps(q: Queue, ids: seq<string>)
    requires Known(q.index, ids)
    ensures var r := DeadAll(q, ids);
            && r.log == q.log && r.pending == q.pending && r.processing == q.processing && r.lamport == q.lamport
                  && r.superseded == q.superseded
            && forall id :: id in q.index ==> SameForLists(r.index[id], q.index[id])
    decreases |ids|
  {
    if ids != [] { DeadAllKeeps(q, ids[..|ids| - 1]); }
  }

  /** The dead letters are the last ones of the old and the new. */
  lemma {:induction false} DeadAllLast(q: Queue, ids: seq<string>)
    requires Known(q.index, ids) && |q.dead| <= DEAD_LETTERS
    ensures DeadAll(q, ids).dead == LastOnes(q.dead + ids, DEAD_LETTERS)
    decreases |ids|
  {
    if ids == [] {
      assert q.dead + ids == q.dead;
    } else {
      var front, last := ids[..|ids| - 1], ids[|ids| - 1];
      DeadAllLast(q, front);
      LastOnesMore(q.dead + front, last);
      Joined(q.dead, ids);
    }
  }

  lemma Joined(a: seq<string>, b: seq<string>)
    requires b != []
    ensures a + b == a + b[..|b| - 1] + [b[|b| - 1]]
  {
  }

  lemma LastOnesMore(all: seq<string>, last: string)
    ensures LastOnes(LastOnes(all, DEAD_LETTERS) + [last], DEAD_LETTERS) == LastOnes(all + [last], DEAD_LETTERS)
  {
  }

  lemma DeadAllDead(q: Queue, ids: seq<string>)
    requires Known(q.index, ids) && |q.dead| <= 10_000
    ensures var all := q.dead + ids;
            DeadAll(q, ids).dead == if |all| > 10_000 then all[|all| - 10_000..] else all
  {
    DeadAllLast(q, ids);
  }

  /** Dead-lettering only writes the reason. */
  lemma {:induction false} DeadAllErrors(q: Queue, ids: seq<string>, id: string)
    requires Known(q.index, ids) && id in q.index
    ensures DeadAll(q, ids).index[id] == if id in ids then q.index[id].(error := "deadline exceeded") else q.index[id]
    decreases |ids|
  {
    if ids != [] {
      DeadAllErrors(q, ids[..|ids| - 1], id);
      assert ids == ids[..|ids| - 1] + [ids[|ids| - 1]];
    }
  }

  /** One more expired entry has been dropped. */
  lemma DeadAllMore(q: Queue, ids: seq<string>, id: string)
    requires Known(q.index, ids) && id in q.index
    ensures Known(q.index, ids + [id]) && DeadAll(q, ids + [id]) == DeadLettered(DeadAll(q, ids), id, LATE)
  {
    assert (ids + [id])[..|ids|] == ids;
  }

  // ----- the slice under the scan -----

  function Least(a: nat, b: nat): nat {
    if a < b then a else b
  }

  function Copies(x: string, n: nat): (r: seq<string>)
    ensures |r| == n && forall k :: 0 <= k < n ==> r[k] == x
  {
    seq(n, k => x)
  }

  /** The slice after i deletions: the odd entries of the part that was scanned, the part that was not, and
      beyond the shortened end the last entry, left over from each move. */
  function Backing(ids: seq<string>, i: nat): seq<string>
    requires ids != []
  {
    Odds(ids[..Least(2 * i, |ids|)]) + ids[Least(2 * i, |ids|)..] + Copies(ids[|ids| - 1], i)
  }

  function Deleted<T>(s: seq<T>, n: nat, i: nat): seq<T>
    requires i < n <= |s|
  {
    s[..i] + s[i + 1..n] + s[n - 1..]
  }

  lemma DeletedKnown(index: map<string, Job>, s: seq<string>, n: nat, i: nat)
    requires i < n <= |s| && Known(index, s)
    ensures |Deleted(s, n, i)| == |s| && Known(index, Deleted(s, n, i)) && Known(index, Deleted(s, n, i)[..n - 1])
    ensures forall x :: x in Deleted(s, n, i) ==> x in s
  {
  }

  /** The scan from entry i on, over a slice of which len entries are still inside. */
  function Scan(q: Queue, slice: seq<string>, len: nat, i: nat, worker: string, now: int, node: string): (Claim, Queue)
    requires Known(q.index, slice) && len <= |slice|
    decreases |slice| - i
  {
    if i >= |slice| then (NothingClaimable, q)
    else
      var id := slice[i];
      if Expired(q.index[id], now) then
        var d := DeadLettered(q, id, LATE);
        if i + 1 > len then (Panicked, d)
        else
          DeletedKnown(q.index, slice, len, i);
          var left := Deleted(slice, len, i);
          Scan(d.(pending := left[..len - 1]), left, len - 1, i + 1, worker, now, node)
      else if q.index[id].status == Pending then
        if i + 1 > len then (Panicked, q.(index := q.index[id := ClaimedBy(q.index[id], worker, now, node)]))
        else (Claimed(id), TakenBy(q, id, Deleted(slice, len, i)[..len - 1], worker, now, node))
      else Scan(q, slice, len, i + 1, worker, now, node)
  }

  /** What a claimed job was, and what it is now. */
  ghost predicate ClaimedRight(q: Queue, slice: seq<string>, worker: string, now: int, node: string, id: string,
      r: Queue)
  {
    && id in slice && id in q.index && id in r.index && r.processing == q.processing + [id]
    && q.index[id].status == Pending && (q.index[id].deadlineAt <= 0 || now <= q.index[id].deadlineAt)
    && r.index[id] == q.index[id].(status := Processing, processedBy := worker, processStarted := now,
                                   updatedAt := now, node := node)
  }

  /** A scan only ever claims a pending job that is not expired, stamps it, and puts it at the end of the
      processing list. */
  lemma {:induction false} ScanClaimed(q: Queue, slice: seq<string>, len: nat, i: nat, worker: string, now: int,
      node: string)
    requires Known(q.index, slice) && len <= |slice|
    ensures var (claim, r) := Scan(q, slice, len, i, worker, now, node);
            claim.Claimed? ==> ClaimedRight(q, slice, worker, now, node, claim.id, r)
    decreases |slice| - i
  {
    if i < |slice| {
      var id := slice[i];
      if Expired(q.index[id], now) {
        if i < len {
          DeletedKnown(q.index, slice, len, i);
          var left := Deleted(slice, len, i);
          var d := DeadLettered(q, id, LATE).(pending := left[..len - 1]);
          ScanClaimed(d, left, len - 1, i + 1, worker, now, node);
          var (claim, r) := Scan(q, slice, len, i, worker, now, node);
          if claim.Claimed? { ClaimedLater(q, d, slice, left, id, worker, now, node, claim.id, r); }
        }
      } else if q.index[id].status != Pending {
        ScanClaimed(q, slice, len, i + 1, worker, now, node);
      }
    }
  }

  lemma ClaimedLater(q: Queue, d: Queue, slice: seq<string>, left: seq<string>, dropped: string, worker: string,
      now: int, node: string, id: string, r: Queue)
    requires ClaimedRight(d, left, worker, now, node, id, r) && forall x :: x in left ==> x in slice
    requires dropped in q.index && Expired(q.index[dropped], now) && d.processing == q.processing
    requires d.index == q.index[dropped := q.index[dropped].(error := LATE)]
    ensures ClaimedRight(q, slice, worker, now, node, id, r)
  {
  }

  lemma {:induction false} EvensOdds(s: seq<string>, x: string)
    ensures |Odds(s)| == |s| / 2 && |Evens(s)| == (|s| + 1) / 2
    ensures Evens(s + [x]) == if |s| % 2 == 0 then Evens(s) + [x] else Evens(s)
    ensures Odds(s + [x]) == if |s| % 2 == 0 then Odds(s) else Odds(s) + [x]
  {
    if s == [] {
      assert (s + [x])[1..] == [];
    } else {
      EvensOdds(s[1..], x);
      assert (s + [x])[1..] == s[1..] + [x];
    }
  }

  lemma ScannedMore(ids: seq<string>, i: nat)
    requires 2 * i < |ids|
    ensures |Odds(ids[..2 * i])| == i
    ensures Evens(ids[..Least(2 * i + 2, |ids|)]) == Evens(ids[..2 * i]) + [ids[2 * i]]
    ensures Odds(ids[..Least(2 * i + 2, |ids|)]) ==
            Odds(ids[..2 * i]) + (if 2 * i + 1 < |ids| then [ids[2 * i + 1]] else [])
  {
    EvenLonger(ids, i);
    if 2 * i + 1 < |ids| { OddLonger(ids, i); }
  }

  lemma EvenLonger(ids: seq<string>, i: nat)
    requires 2 * i < |ids|
    ensures |Odds(ids[..2 * i])| == i
    ensures Evens(ids[..2 * i + 1]) == Evens(ids[..2 * i]) + [ids[2 * i]]
    ensures Odds(ids[..2 * i + 1]) == Odds(ids[..2 * i])
  {
    var m := 2 * i;
    assert m % 2 == 0 && m / 2 == i;
    OneLonger(ids, m);
  }

  lemma OddLonger(ids: seq<string>, i: nat)
    requires 2 * i + 1 < |ids|
    ensures Evens(ids[..2 * i + 2]) == Evens(ids[..2 * i + 1])
    ensures Odds(ids[..2 * i + 2]) == Odds(ids[..2 * i + 1]) + [ids[2 * i + 1]]
  {
    var m := 2 * i + 1;
    assert m % 2 == 1;
    OneLonger(ids, m);
  }

  lemma OneLonger(ids: seq<string>, m: nat)
    requires m < |ids|
    ensures |Odds(ids[..m])| == m / 2
    ensures Evens(ids[..m + 1]) == if m % 2 == 0 then Evens(ids[..m]) + [ids[m]] else Evens(ids[..m])
    ensures Odds(ids[..m + 1]) == if m % 2 == 0 then Odds(ids[..m]) else Odds(ids[..m]) + [ids[m]]
  {
    EvensOdds(ids[..m], ids[m]);
    assert ids[..m + 1] == ids[..m] + [ids[m]];
  }

  lemma BackingParts(ids: seq<string>, i: nat)
    requires 2 * i < |ids|
    ensures var b := Backing(ids, i);
            |b| == |ids| && b[..i] == Odds(ids[..2 * i]) && b[i..|ids| - i] == ids[2 * i..]
                  && b[|ids| - i..] == Copies(ids[|ids| - 1], i)
  {
    ScannedMore(ids, i);
  }

  lemma DeletedParts<T>(o: seq<T>, r: seq<T>, c: seq<T>)
    requires r != []
    ensures Deleted(o + r + c, |o| + |r|, |o|) == o + r[1..] + ([r[|r| - 1]] + c)
  {
    var b := o + r + c;
    assert b[..|o|] == o && b[|o| + 1..|o| + |r|] == r[1..] && b[|o| + |r| - 1..] == [r[|r| - 1]] + c;
  }

  lemma BackingAfter(ids: seq<string>, i: nat)
    requires 2 * i < |ids|
    ensures Backing(ids, i + 1) == Odds(ids[..2 * i]) + ids[2 * i + 1..] + Copies(ids[|ids| - 1], i + 1)
  {
    ScannedMore(ids, i);
    var o, last := Odds(ids[..2 * i]), Copies(ids[|ids| - 1], i + 1);
    if 2 * i + 1 < |ids| {
      assert ids[2 * i + 1..] == [ids[2 * i + 1]] + ids[2 * i + 2..];
      assert o + [ids[2 * i + 1]] + ids[2 * i + 2..] == o + ids[2 * i + 1..];
    } else {
      assert ids[2 * i + 1..] == ids[|ids|..] == [];
    }
  }

  /** While the scan is inside the slice, it reads every other entry. */
  lemma BackingNext(ids: seq<string>, i: nat)
    requires 2 * i < |ids|
    ensures |Backing(ids, i)| == |ids| && Backing(ids, i)[i] == ids[2 * i]
    ensures Deleted(Backing(ids, i), |ids| - i, i) == Backing(ids, i + 1)
  {
    var o, r, c := Odds(ids[..2 * i]), ids[2 * i..], Copies(ids[|ids| - 1], i);
    ScannedMore(ids, i);
    DeletedParts(o, r, c);
    BackingAfter(ids, i);
    assert [ids[|ids| - 1]] + c == Copies(ids[|ids| - 1], i + 1);
    assert Backing(ids, i) == o + r + c;
  }

  /** Past the shortened end it reads the last entry once more. */
  lemma BackingPast(ids: seq<string>, i: nat)
    requires |ids| <= 2 * i && i < |ids|
    requires |Odds(ids)| == |ids| - i
    ensures |Backing(ids, i)| == |ids| && Backing(ids, i)[i] == ids[|ids| - 1]
    ensures Backing(ids, i)[..|ids| - i] == Odds(ids)
  {
    assert ids[..|ids|] == ids;
  }

  lemma DeletedAt<T>(s: seq<T>, n: nat, i: nat, k: nat)
    requires i < n <= |s| && k < |s|
    ensures |Deleted(s, n, i)| == |s| && Deleted(s, n, i)[k] == if i <= k < n - 1 then s[k + 1] else s[k]
  {
  }

  /** Deletes entry i of the first n by moving the later ones up; what lies beyond stays. */
  method DeleteAt<T>(a: array<T>, n: nat, i: nat)
    requires i < n <= a.Length
    modifies a
    ensures a[..] == Deleted(old(a[..]), n, i)
  {
    ghost var s := a[..];
    var j := i;
    while j < n - 1
      invariant i <= j <= n - 1
      invariant forall k :: 0 <= k < i ==> a[k] == s[k]
      invariant forall k :: i <= k < j ==> a[k] == s[k + 1]
      invariant forall k :: j <= k < a.Length ==> a[k] == s[k]
    {
      a[j] := a[j + 1];
      j := j + 1;
    }
    forall k | 0 <= k < a.Length ensures |Deleted(s, n, i)| == a.Length && a[k] == Deleted(s, n, i)[k] {
      DeletedAt(s, n, i, k);
    }
  }
}
