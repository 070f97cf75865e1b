/** What a claim means for the queue: which job it takes, when it takes the best one, and when it goes wrong. */
module ClaimLaws {
  import opened Wrappers
  import opened Jobs
  import opened Claims

  // ----- positions -----

  lemma {:induction false} OddsAt(s: seq<string>, j: nat)
    requires j < |s| / 2
    ensures |Odds(s)| == |s| / 2 && Odds(s)[j] == s[2 * j + 1]
    decreases |s|
  {
    EvensOdds(s, "");
    if j > 0 {
      OddsAt(s[2..], j - 1);
      assert s[1..][1..] == s[2..];
    }
  }

  lemma {:induction false} EvensAt(s: seq<string>, j: nat)
    requires 2 * j < |s|
    ensures |Evens(s)| == (|s| + 1) / 2 && Evens(s)[j] == s[2 * j]
    decreases |s|
  {
    EvensOdds(s, "");
    if j > 0 {
      EvensAt(s[2..], j - 1);
      assert s[1..][1..] == s[2..];
    }
  }

  /** A part of the pending list in the same order. */
  ghost predicate PartOf(r: seq<string>, ids: seq<string>, at: seq<nat>) {
    && |at| == |r|
    && (forall j :: 0 <= j < |r| ==> at[j] < |ids| && r[j] == ids[at[j]])
    && forall j, k {:trigger at[j], at[k]} :: 0 <= j < k < |r| ==> at[j] < at[k]
  }

  lemma PartListed(index: map<string, Job>, ids: seq<string>, r: seq<string>, at: seq<nat>)
    requires PendingListed(index, ids) && PartOf(r, ids, at)
    ensures PendingListed(index, r)
  {
    forall j, k | 0 <= j < k < |r|
      ensures r[j] != r[k] && r[k] in index && r[j] in index && !Sooner(index[r[k]], index[r[j]])
    {
      assert at[j] < at[k] && ids[at[j]] != ids[at[k]];
    }
  }

  /** Without the expired entries at even positions before f, and without the one at f. */
  function Rest(ids: seq<string>, f: nat): seq<string>
    requires f < |ids|
  {
    Odds(ids[..f]) + ids[f + 1..]
  }

  ghost function RestAt(n: nat, f: nat): seq<nat>
    requires f < n && f % 2 == 0
  {
    seq(f / 2 + (n - f - 1), j => if j < f / 2 then 2 * j + 1 else j + f / 2 + 1)
  }

  lemma RestIndex(ids: seq<string>, f: nat, j: nat)
    requires f < |ids| && f % 2 == 0 && j < |Rest(ids, f)|
    ensures |Rest(ids, f)| == |RestAt(|ids|, f)|
    ensures RestAt(|ids|, f)[j] < |ids| && Rest(ids, f)[j] == ids[RestAt(|ids|, f)[j]]
  {
    EvensOdds(ids[..f], "");
    if j < f / 2 { OddsAt(ids[..f], j); }
  }

  lemma RestAtRises(n: nat, f: nat, j: nat, k: nat)
    requires f < n && f % 2 == 0 && j < k < |RestAt(n, f)|
    ensures RestAt(n, f)[j] < RestAt(n, f)[k]
  {
  }

  lemma RestIsPart(ids: seq<string>, f: nat)
    requires f < |ids| && f % 2 == 0
    ensures PartOf(Rest(ids, f), ids, RestAt(|ids|, f))
  {
    var at, r := RestAt(|ids|, f), Rest(ids, f);
    EvensOdds(ids[..f], "");
    assert |at| == |r|;
    forall j | 0 <= j < |r| ensures at[j] < |ids| && r[j] == ids[at[j]] { RestIndex(ids, f, j); }
    forall j, k | 0 <= j < k < |r| ensures at[j] < at[k] { RestAtRises(|ids|, f, j, k); }
  }

  lemma OddsArePart(ids: seq<string>)
    ensures PartOf(Odds(ids), ids, OddAt(|ids| / 2))
  {
    EvensOdds(ids, "");
    var m := |ids| / 2;
    var at, odds := OddAt(m), Odds(ids);
    assert |odds| == m <= 2 * m <= |ids|;
    forall j | 0 <= j < m ensures at[j] < |ids| && odds[j] == ids[at[j]] {
      assert at[j] == 2 * j + 1;
      OddsAt(ids, j);
    }
  }

  /** The first n odd numbers. */
  ghost function OddAt(n: nat): (at: seq<nat>)
    ensures |at| == n && forall j :: 0 <= j < n ==> at[j] == 2 * j + 1
  {
    seq(n, j => 2 * j + 1)
  }

  lemma NotInRest(ids: seq<string>, f: nat)
    requires Distinct(ids) && f < |ids| && f % 2 == 0
    ensures ids[f] !in Rest(ids, f) && forall x :: x in Rest(ids, f) ==> x in ids
  {
    RestIsPart(ids, f);
    var at := RestAt(|ids|, f);
    forall j | 0 <= j < |Rest(ids, f)| ensures Rest(ids, f)[j] != ids[f] && Rest(ids, f)[j] in ids {
      assert at[j] != f && Rest(ids, f)[j] == ids[at[j]];
    }
  }

  // ----- which job a claim takes -----

  /** The first unexpired job. */
  function FirstLive(index: map<string, Job>, ids: seq<string>, now: int, i: nat): (r: Option<nat>)
    requires Known(index, ids)
    ensures r.Some? ==> i <= r.value < |ids| && !Expired(index[ids[r.value]], now)
    ensures forall k :: i <= k < (if r.Some? then r.value else |ids|) ==> Expired(index[ids[k]], now)
    decreases |ids| - i
  {
    if i >= |ids| then None else if !Expired(index[ids[i]], now) then Some(i) else FirstLive(index, ids, now, i + 1)
  }

  /** No unexpired job has a higher priority than the first one, nor at its priority an earlier time. */
  lemma FirstLiveIsBest(index: map<string, Job>, ids: seq<string>, now: int, k: nat)
    requires Known(index, ids) && Ordered(index, ids) && k < |ids| && !Expired(index[ids[k]], now)
    ensures FirstLive(index, ids, now, 0).Some?
    ensures var best, job := index[ids[FirstLive(index, ids, now, 0).value]], index[ids[k]];
            job.priority < best.priority || (job.priority == best.priority && best.timestamp <= job.timestamp)
  {
  }

  lemma {:induction false} FirstEvenOfLive(index: map<string, Job>, ids: seq<string>, now: int, i: nat)
    requires Known(index, ids) && i % 2 == 0
    ensures var even, live := FirstEven(index, ids, now, i), FirstLive(index, ids, now, i);
            && (live.None? ==> even.None?)
            && (live.Some? ==> (even == live <==> live.value % 2 == 0))
            && (even.Some? ==> live.Some? && live.value <= even.value)
    decreases |ids| - i
  {
    if i < |ids| && Expired(index[ids[i]], now) { FirstEvenOfLive(index, ids, now, i + 2); }
  }

  /** A claim takes the best unexpired job exactly when that job stands at an even position; otherwise it takes a
      later one, or none. */
  lemma ClaimsBestIff(q: Queue, worker: string, now: int, node: string)
    requires Listed(q)
    ensures var live := FirstLive(q.index, q.pending, now, 0);
            live.Some? ==> (DoClaim(q, worker, now, node).0 == Claimed(q.pending[live.value]) <==> live.value % 2 == 0)
  {
    FirstEvenOfLive(q.index, q.pending, now, 0);
    var even, live := FirstEven(q.index, q.pending, now, 0), FirstLive(q.index, q.pending, now, 0);
    if even.Some? && live.Some? && even != live { assert q.pending[even.value] != q.pending[live.value]; }
  }

  /** With no expired job in the queue, a claim takes the one of the highest priority, and of those the oldest, and
      leaves the rest. */
  lemma ClaimWithoutExpired(q: Queue, worker: string, now: int, node: string)
    requires Listed(q) && q.pending != []
    requires forall k :: 0 <= k < |q.pending| ==>
               q.index[q.pending[k]].deadlineAt <= 0 || now <= q.index[q.pending[k]].deadlineAt
    ensures DoClaim(q, worker, now, node) ==
            (Claimed(q.pending[0]), TakenBy(q, q.pending[0], q.pending[1..], worker, now, node))
    ensures forall k :: 0 <= k < |q.pending| ==>
              || q.index[q.pending[k]].priority < q.index[q.pending[0]].priority
              || (q.index[q.pending[k]].priority == q.index[q.pending[0]].priority
                  && q.index[q.pending[0]].timestamp <= q.index[q.pending[k]].timestamp)
  {
    assert q.pending[..0] == [];
    assert [] + q.pending[1..] == q.pending[1..];
  }

  lemma DroppedAt(ids: seq<string>, f: nat, j: nat)
    requires Distinct(ids) && j < f < |ids| && f % 2 == 0
    ensures j % 2 == 0 ==> ids[j] in Evens(ids[..f]) && ids[j] !in Rest(ids, f)
    ensures j % 2 == 1 ==> ids[j] in Rest(ids, f)
  {
    EvensOdds(ids[..f], "");
    if j % 2 == 0 {
      EvensAt(ids[..f], j / 2);
      assert ids[..f][j] == ids[j] && 2 * (j / 2) == j;
      EvenNotInRest(ids, f, j);
    } else {
      OddsAt(ids[..f], j / 2);
      assert Rest(ids, f)[j / 2] == ids[j];
    }
  }

  lemma EvenNotInRest(ids: seq<string>, f: nat, j: nat)
    requires Distinct(ids) && j < f < |ids| && f % 2 == 0 && j % 2 == 0
    ensures ids[j] !in Rest(ids, f)
  {
    forall i | 0 <= i < |Rest(ids, f)| ensures Rest(ids, f)[i] != ids[j] {
      RestIndex(ids, f, i);
      NoEvenBefore(|ids|, f, i, j);
    }
  }

  lemma NoEvenBefore(n: nat, f: nat, i: nat, j: nat)
    requires f < n && f % 2 == 0 && i < |RestAt(n, f)| && j < f && j % 2 == 0
    ensures RestAt(n, f)[i] != j
  {
  }

  lemma InTail(s: seq<string>, t: seq<string>, i: nat)
    requires i < |t|
    ensures t[i] in s + t
  {
    assert (s + t)[|s| + i] == t[i];
  }

  lemma LaterStays(ids: seq<string>, f: nat, j: nat)
    requires f < j < |ids| && f % 2 == 0
    ensures ids[j] in Rest(ids, f)
  {
    InTail(Odds(ids[..f]), ids[f + 1..], j - f - 1);
  }

  /** What becomes of the other entries when the job at position k is claimed: those at even positions before it are
      dead letters, marked as such, and all others are still pending. */
  lemma ClaimDrops(q: Queue, worker: string, now: int, node: string, k: nat, j: nat)
    requires Listed(q) && k < |q.pending| && DoClaim(q, worker, now, node).0 == Claimed(q.pending[k])
    requires j < |q.pending| && j != k
    ensures var r, id := DoClaim(q, worker, now, node).1, q.pending[j];
            && (id in r.pending <==> k < j || j % 2 == 1)
            && id in r.index && r.index[id].status == Pending
            && (j < k && j % 2 == 0 ==> r.index[id].error == "deadline exceeded")
  {
    ClaimsAtIff(q, worker, now, node, k);
    FirstEvenIff(q.index, q.pending, now, k);
    DoClaimAt(q, worker, now, node, k);
    var ids := q.pending;
    EvensKnown(q.index, ids[..k]);
    DeadAllErrors(q, Evens(ids[..k]), ids[j]);
    DeadAllKeeps(q, Evens(ids[..k]));
    assert ids[j] != ids[k];
    if j < k { DroppedAt(ids, k, j); } else { LaterStays(ids, k, j); }
  }

  /** The dead letters after a claim are the latest of the old ones and these. */
  lemma ClaimDeads(q: Queue, worker: string, now: int, node: string, k: nat)
    requires Listed(q) && k < |q.pending| && DoClaim(q, worker, now, node).0 == Claimed(q.pending[k])
    requires |q.dead| <= 10_000
    ensures |Evens(q.pending[..k])| == k / 2
    ensures forall j: nat :: j < k / 2 ==> Evens(q.pending[..k])[j] == q.pending[2 * j]
    ensures var all := q.dead + Evens(q.pending[..k]);
            DoClaim(q, worker, now, node).1.dead == if |all| > 10_000 then all[|all| - 10_000..] else all
  {
    ClaimsAtIff(q, worker, now, node, k);
    FirstEvenIff(q.index, q.pending, now, k);
    DoClaimAt(q, worker, now, node, k);
    EvensKnown(q.index, q.pending[..k]);
    DeadAllDead(q, Evens(q.pending[..k]));
    EvensOdds(q.pending[..k], "");
    forall j: nat | j < k / 2 ensures Evens(q.pending[..k])[j] == q.pending[2 * j] { EvensAt(q.pending[..k], j); }
  }

  /** When every entry at an even position is expired, these are gone and marked, and the others are left. */
  lemma AllDroppedMeaning(q: Queue, j: nat)
    requires Known(q.index, q.pending) && j < |q.pending|
    ensures var r, id := AllDropped(q), q.pending[j];
            && |r.pending| == |q.pending| / 2 && (j % 2 == 1 ==> r.pending[j / 2] == id)
            && id in r.index && (j % 2 == 0 ==> r.index[id].error == "deadline exceeded")
            && r.index[id].status == q.index[id].status
  {
    EvensKnown(q.index, q.pending);
    DeadAllKeeps(q, Evens(q.pending));
    DeadAllErrors(q, Evens(q.pending), q.pending[j]);
    ByParity(q.pending, j);
  }

  lemma ByParity(ids: seq<string>, j: nat)
    requires j < |ids|
    ensures |Odds(ids)| == |ids| / 2
    ensures j % 2 == 0 ==> ids[j] in Evens(ids)
    ensures j % 2 == 1 ==> j / 2 < |Odds(ids)| && Odds(ids)[j / 2] == ids[j]
  {
    EvensOdds(ids, "");
    if j % 2 == 0 {
      EvensAt(ids, j / 2);
      assert 2 * (j / 2) == j;
    } else {
      OddsAt(ids, j / 2);
      assert 2 * (j / 2) + 1 == j;
    }
  }

  lemma LastNotEven(ids: seq<string>)
    requires Distinct(ids) && 0 < |ids| && (|ids| - 1) % 2 == 1
    ensures ids[|ids| - 1] !in Evens(ids)
  {
    var evens, last := Evens(ids), ids[|ids| - 1];
    forall i: nat | i < |evens| ensures evens[i] != last { EvenUnlike(ids, i); }
  }

  lemma EvenUnlike(ids: seq<string>, i: nat)
    requires Distinct(ids) && 0 < |ids| && (|ids| - 1) % 2 == 1 && i < |Evens(ids)|
    ensures Evens(ids)[i] != ids[|ids| - 1]
  {
    HalfEvens(ids);
    EvensAt(ids, i);
    Unlike(ids, 2 * i, |ids| - 1);
  }

  lemma HalfEvens(ids: seq<string>)
    requires 0 < |ids| && (|ids| - 1) % 2 == 1
    ensures 2 * |Evens(ids)| == |ids|
  {
    EvensOdds(ids, "");
  }

  lemma Unlike(ids: seq<string>, i: nat, j: nat)
    requires Distinct(ids) && i < j < |ids|
    ensures ids[i] != ids[j]
  {
  }

  /** Every entry at an even position of the list is expired. */
  ghost predicate EvensLate(index: map<string, Job>, ids: seq<string>, now: int)
    requires Known(index, ids)
  {
    forall k :: 0 <= k < |ids| && k % 2 == 0 ==> Expired(index[ids[k]], now)
  }

  lemma {:induction false} EvenIsFound(index: map<string, Job>, ids: seq<string>, now: int, i: nat, k: nat)
    requires Known(index, ids) && i <= k < |ids| && (k - i) % 2 == 0 && !Expired(index[ids[k]], now)
    ensures FirstEven(index, ids, now, i).Some? && FirstEven(index, ids, now, i).value <= k
    decreases k - i
  {
    if Expired(index[ids[i]], now) { EvenIsFound(index, ids, now, i + 2, k); }
  }

  lemma FirstEvenIff(index: map<string, Job>, ids: seq<string>, now: int, k: nat)
    requires Known(index, ids) && k < |ids|
    ensures Known(index, ids[..k])
    ensures FirstEven(index, ids, now, 0) == Some(k)
            <==> k % 2 == 0 && !Expired(index[ids[k]], now) && EvensLate(index, ids[..k], now)
  {
    var even := FirstEven(index, ids, now, 0);
    if even == Some(k) {
      forall j | 0 <= j < k && j % 2 == 0 ensures Expired(index[ids[..k][j]], now) {
        if !Expired(index[ids[j]], now) { EvenIsFound(index, ids, now, 0, j); }
      }
    } else if k % 2 == 0 && !Expired(index[ids[k]], now) {
      EvenIsFound(index, ids, now, 0, k);
      assert ids[..k][even.value] == ids[even.value];
    }
  }

  /** A claim takes the job at a position exactly when that position is even, its job is not expired, and every job
      at an even position before it is. */
  lemma ClaimsAtIff(q: Queue, worker: string, now: int, node: string, k: nat)
    requires Listed(q) && k < |q.pending|
    ensures DoClaim(q, worker, now, node).0 == Claimed(q.pending[k])
            <==> k % 2 == 0 && !Expired(q.index[q.pending[k]], now) && EvensLate(q.index, q.pending[..k], now)
  {
    FirstEvenIff(q.index, q.pending, now, k);
    var even := FirstEven(q.index, q.pending, now, 0);
    if even.Some? && even.value != k { assert q.pending[even.value] != q.pending[k]; }
  }

  lemma NoneIffEvensLate(index: map<string, Job>, ids: seq<string>, now: int)
    requires Known(index, ids)
    ensures FirstEven(index, ids, now, 0).None? <==> EvensLate(index, ids, now)
  {
    if FirstEven(index, ids, now, 0).None? {
      forall k | 0 <= k < |ids| && k % 2 == 0 ensures Expired(index[ids[k]], now) {
        if !Expired(index[ids[k]], now) {
          EvenIsFound(index, ids, now, 0, k);
          assert false;
        }
      }
    }
  }

  /** A claim panics exactly when there are two or more entries and every entry at an even position is expired; it
      finds nothing exactly when there is no entry, or a single one that is expired. */
  lemma ClaimPanicsIff(q: Queue, worker: string, now: int, node: string)
    requires Known(q.index, q.pending)
    ensures DoClaim(q, worker, now, node).0 == Panicked <==> 2 <= |q.pending| && EvensLate(q.index, q.pending, now)
    ensures DoClaim(q, worker, now, node).0 == NothingClaimable <==>
            |q.pending| < 2 && EvensLate(q.index, q.pending, now)
  {
    NoneIffEvensLate(q.index, q.pending, now);
  }

  // ----- what a claim keeps -----

  /** The last entry is marked as claimed, but stays in the pending list. */
  ghost predicate Strands(q: Queue, now: int)
    requires Known(q.index, q.pending)
  {
    && 2 <= |q.pending| && EvensLate(q.index, q.pending, now)
    && !Expired(q.index[q.pending[|q.pending| - 1]], now)
  }

  lemma DeadAllListed(q: Queue, ids: seq<string>)
    requires Listed(q) && Known(q.index, ids)
    ensures Listed(DeadAll(q, ids))
  {
    DeadAllKeeps(q, ids);
    PendingStays(q.index, DeadAll(q, ids).index, q.pending);
  }

  lemma TakenListed(q: Queue, id: string, rest: seq<string>, worker: string, now: int, node: string)
    requires Listed(q) && id in q.index && q.index[id].status == Pending && PendingListed(q.index, rest) && id !in rest
    ensures Listed(TakenBy(q, id, rest, worker, now, node))
  {
    var r := TakenBy(q, id, rest, worker, now, node);
    PendingStays(q.index, r.index, rest);
    assert forall x :: x in r.processing <==> x in q.processing || x == id;
    assert id !in q.processing;
  }

  lemma DeadLetteredListed(q: Queue, id: string, reason: string)
    requires Listed(q) && id in q.index
    ensures Listed(DeadLettered(q, id, reason))
  {
    PendingStays(q.index, DeadLettered(q, id, reason).index, q.pending);
  }

  lemma RestListed(q: Queue, f: nat)
    requires Listed(q) && f < |q.pending| && f % 2 == 0
    ensures Known(q.index, Evens(q.pending[..f]))
    ensures var d := DeadAll(q, Evens(q.pending[..f]));
            Listed(d) && d.processing == q.processing && PendingListed(d.index, Rest(q.pending, f))
            && q.pending[f] in d.index && d.index[q.pending[f]].status == Pending
  {
    EvensKnown(q.index, q.pending[..f]);
    DeadAllListed(q, Evens(q.pending[..f]));
    DeadAllKeeps(q, Evens(q.pending[..f]));
    RestIsPart(q.pending, f);
    PartListed(DeadAll(q, Evens(q.pending[..f])).index, q.pending, Rest(q.pending, f), RestAt(|q.pending|, f));
  }

  /** A job that was claimed is in processing and no longer pending. */
  lemma ClaimListed(q: Queue, worker: string, now: int, node: string)
    requires Listed(q) && DoClaim(q, worker, now, node).0.Claimed?
    ensures var (claim, r) := DoClaim(q, worker, now, node);
            Listed(r) && claim.id in q.pending && claim.id !in r.pending && r.processing == q.processing + [claim.id]
  {
    var f := FirstEven(q.index, q.pending, now, 0).value;
    RestListed(q, f);
    NotInRest(q.pending, f);
    TakenListed(DeadAll(q, Evens(q.pending[..f])), q.pending[f], Rest(q.pending, f), worker, now, node);
  }

  lemma SweptListed(q: Queue)
    requires Listed(q)
    ensures Listed(AllDropped(q))
  {
    EvensKnown(q.index, q.pending);
    DeadAllListed(q, Evens(q.pending));
    DeadAllKeeps(q, Evens(q.pending));
    OddsArePart(q.pending);
    PartListed(DeadAll(q, Evens(q.pending)).index, q.pending, Odds(q.pending), OddAt(|q.pending| / 2));
  }

  lemma StrandedNotListed(q: Queue, id: string, worker: string, now: int, node: string)
    requires id in q.index && id !in q.processing
    ensures !Listed(q.(index := q.index[id := ClaimedBy(q.index[id], worker, now, node)]))
  {
    var r := q.(index := q.index[id := ClaimedBy(q.index[id], worker, now, node)]);
    assert id in r.index && r.index[id].status == Processing;
  }

  /** A claim keeps the lists right unless it strands the last entry. */
  lemma ClaimListedIff(q: Queue, worker: string, now: int, node: string)
    requires Listed(q)
    ensures Listed(DoClaim(q, worker, now, node).1) <==> !Strands(q, now)
  {
    NoneIffEvensLate(q.index, q.pending, now);
    if FirstEven(q.index, q.pending, now, 0).Some? {
      ClaimListed(q, worker, now, node);
    } else {
      SweptListed(q);
      if 2 <= |q.pending| { SweptLast(q, worker, now, node); }
    }
  }

  lemma SweptOutcome(q: Queue, worker: string, now: int, node: string)
    requires Known(q.index, q.pending) && FirstEven(q.index, q.pending, now, 0).None? && 2 <= |q.pending|
    ensures var after, last := AllDropped(q), q.pending[|q.pending| - 1];
            && last in after.index && (Expired(after.index[last], now) <==> Expired(q.index[last], now))
            && DoClaim(q, worker, now, node).1 == Stumbled(after, last, worker, now, node)
  {
    AllDroppedKeeps(q);
  }

  lemma StumbledMeaning(q: Queue, id: string, worker: string, now: int, node: string)
    requires id in q.index
    ensures var r := Stumbled(q, id, worker, now, node);
            && r.pending == q.pending && r.processing == q.processing && id in r.index
            && if q.index[id].deadlineAt > 0 && now > q.index[id].deadlineAt
               then r.index[id] == q.index[id].(error := "deadline exceeded")
               else r.index[id] == q.index[id].(status := Processing, processedBy := worker, processStarted := now,
                                                updatedAt := now, node := node)
  {
  }

  lemma LastAfter(q: Queue, now: int)
    requires Listed(q) && 2 <= |q.pending| && EvensLate(q.index, q.pending, now)
    ensures var r, last := AllDropped(q), q.pending[|q.pending| - 1];
            && last in q.index && last in r.index && r.processing == q.processing
            && (!Expired(q.index[last], now) ==> r.index[last] == q.index[last] && last in r.pending)
            && (Expired(q.index[last], now) ==> Expired(r.index[last], now))
  {
    var n := |q.pending|;
    AllDroppedKeeps(q);
    if !Expired(q.index[q.pending[n - 1]], now) {
      assert (n - 1) % 2 == 1;
      AllDroppedMeaning(q, n - 1);
      assert AllDropped(q).pending[(n - 1) / 2] == q.pending[n - 1];
      LastUntouched(q);
    }
  }

  lemma LastUntouched(q: Queue)
    requires Listed(q) && 0 < |q.pending| && (|q.pending| - 1) % 2 == 1
    ensures var last := q.pending[|q.pending| - 1];
            last in q.index && last in AllDropped(q).index && AllDropped(q).index[last] == q.index[last]
  {
    LastNotEven(q.pending);
    EvensKnown(q.index, q.pending);
    DeadAllErrors(q, Evens(q.pending), q.pending[|q.pending| - 1]);
  }

  /** A claim that runs out of range has touched the last entry: an unexpired one is marked as the worker's, and stays
      in the pending list. */
  lemma PanicLeaves(q: Queue, worker: string, now: int, node: string)
    requires Listed(q) && DoClaim(q, worker, now, node).0 == Panicked
    ensures 2 <= |q.pending|
    ensures var r, last := DoClaim(q, worker, now, node).1, q.pending[|q.pending| - 1];
            && r.pending == AllDropped(q).pending && r.processing == q.processing && last in q.index && last in r.index
            && if q.index[last].deadlineAt > 0 && now > q.index[last].deadlineAt
               then r.index[last].error == "deadline exceeded"
               else last in r.pending
                    && r.index[last] == q.index[last].(status := Processing, processedBy := worker,
                                                       processStarted := now, updatedAt := now, node := node)
  {
    ClaimPanicsIff(q, worker, now, node);
    NoneIffEvensLate(q.index, q.pending, now);
    SweptOutcome(q, worker, now, node);
    LastAfter(q, now);
    StumbledMeaning(AllDropped(q), q.pending[|q.pending| - 1], worker, now, node);
  }

  lemma NotProcessing(q: Queue, id: string)
    requires Listed(q) && id in q.pending
    ensures id !in q.processing
  {
  }

  lemma SweptStrands(q: Queue, now: int)
    requires Known(q.index, q.pending) && FirstEven(q.index, q.pending, now, 0).None? && 2 <= |q.pending|
    ensures Strands(q, now) <==> !Expired(q.index[q.pending[|q.pending| - 1]], now)
  {
    NoneIffEvensLate(q.index, q.pending, now);
  }

  lemma SweptNotProcessing(q: Queue)
    requires Listed(q) && q.pending != []
    ensures Listed(AllDropped(q)) && q.pending[|q.pending| - 1] !in AllDropped(q).processing
  {
    SweptListed(q);
    AllDroppedKeeps(q);
    NotProcessing(q, q.pending[|q.pending| - 1]);
  }

  lemma StumbledListedIff(q: Queue, id: string, worker: string, now: int, node: string)
    requires Listed(q) && id in q.index && id !in q.processing
    ensures Listed(Stumbled(q, id, worker, now, node)) <==> Expired(q.index[id], now)
  {
    if Expired(q.index[id], now) {
      DeadLetteredListed(q, id, LATE);
    } else {
      StrandedNotListed(q, id, worker, now, node);
    }
  }

  lemma SweptLast(q: Queue, worker: string, now: int, node: string)
    requires Listed(q) && FirstEven(q.index, q.pending, now, 0).None? && 2 <= |q.pending|
    ensures Listed(DoClaim(q, worker, now, node).1) <==> !Strands(q, now)
  {
    SweptStrands(q, now);
    SweptOutcome(q, worker, now, node);
    SweptNotProcessing(q);
    StumbledListedIff(AllDropped(q), q.pending[|q.pending| - 1], worker, now, node);
  }
}
