/** Runs of one search engine: documents are indexed, deleted, and taken over from peers' snapshots. */
module SearchRuns {
  import opened Order
  import opened SearchIndexes

  datatype Event = Index(doc: Document) | Delete(id: string) | Merge(peers: seq<Document>)

  function Do(documents: Documents, event: Event): Documents {
    match event
    case Index(doc) => documents[doc.id := doc]
    case Delete(id) => documents - {id}
    case Merge(peers) => Merged(documents, peers)
  }

  function After(documents: Documents, events: seq<Event>): Documents
    decreases |events|
  {
    if events == [] then documents else Do(After(documents, events[..|events| - 1]), events[|events| - 1])
  }

  /** The event has this version of the document, indexed or offered by a peer. */
  ghost predicate Has(event: Event, doc: Document) {
    match event
    case Index(x) => x == doc
    case Delete(_) => false
    case Merge(peers) => Offered(peers, doc)
  }

  ghost predicate Brings(event: Event, id: string) {
    match event
    case Index(doc) => doc.id == id
    case Delete(_) => false
    case Merge(peers) => OffersId(peers, id)
  }

  ghost predicate DeletedFrom(events: seq<Event>, k: int, id: string) {
    exists j :: k <= j < |events| && 0 <= j && events[j] == Delete(id)
  }

  /** The k-th event brings the document, and nothing deletes it afterwards. */
  ghost predicate BroughtAt(events: seq<Event>, k: nat, id: string) {
    k < |events| && Brings(events[k], id) && !DeletedFrom(events, k, id)
  }

  ghost predicate Brought(events: seq<Event>, id: string) {
    exists k: nat :: BroughtAt(events, k, id)
  }

  /** The k-th event has this version of the document, and nothing deletes it afterwards. */
  ghost predicate CameAt(events: seq<Event>, k: nat, doc: Document) {
    k < |events| && Has(events[k], doc) && !DeletedFrom(events, k, doc.id)
  }

  lemma DeletedMore(events: seq<Event>, last: Event, k: nat, id: string)
    requires k <= |events|
    ensures DeletedFrom(events + [last], k, id) <==> DeletedFrom(events, k, id) || last == Delete(id)
  {
    var more := events + [last];
    assert more[|events|] == last;
    if j :| k <= j < |events| && events[j] == Delete(id) { assert more[j] == Delete(id); }
  }

  lemma BroughtMore(events: seq<Event>, last: Event, id: string)
    ensures Brought(events + [last], id) <==> Brings(last, id) || (Brought(events, id) && last != Delete(id))
  {
    var more := events + [last];
    assert more[|events|] == last;
    if k: nat :| BroughtAt(more, k, id) {
      if k < |events| {
        DeletedMore(events, last, k, id);
        assert more[k] == events[k] && BroughtAt(events, k, id);
      }
    }
    if Brings(last, id) {
      DeletedMore(events, last, |events|, id);
      assert BroughtAt(more, |events|, id);
    } else if last != Delete(id) && Brought(events, id) {
      var k: nat :| BroughtAt(events, k, id);
      DeletedMore(events, last, k, id);
      assert more[k] == events[k] && BroughtAt(more, k, id);
    }
  }

  lemma DoHas(documents: Documents, event: Event, id: string)
    ensures id in Do(documents, event) <==> Brings(event, id) || (id in documents && event != Delete(id))
  {
    if event.Merge? { MergedKeepsNewest(documents, event.peers, id); }
  }

  /** A deletion leaves no trace: after any run a document is held exactly when an indexing or a peer's snapshot brought
      it after the last deletion of it, or it was there before and was never deleted. */
  lemma {:induction false} HeldIff(documents: Documents, events: seq<Event>, id: string)
    ensures id in After(documents, events)
            <==> Brought(events, id) || (id in documents && !DeletedFrom(events, 0, id))
    decreases |events|
  {
    if events != [] {
      var front, last := events[..|events| - 1], events[|events| - 1];
      assert front + [last] == events;
      HeldIff(documents, front, id);
      DoHas(After(documents, front), last, id);
      BroughtMore(front, last, id);
      DeletedMore(front, last, 0, id);
    }
  }

  // ----- in which version -----

  /** The k-th event is a merge, and afterwards the document is neither indexed nor deleted here. */
  ghost predicate MergedAt(events: seq<Event>, k: nat, id: string) {
    && k < |events| && events[k].Merge?
    && forall j :: k < j < |events| ==> events[j] != Delete(id) && !(events[j].Index? && events[j].doc.id == id)
  }

  /** Where the version held comes from, and that no snapshot merged since had a later one. */
  ghost predicate RightVersion(documents: Documents, events: seq<Event>, id: string, doc: Document) {
    && ((id in documents && doc == documents[id] && !DeletedFrom(events, 0, id))
        || (doc.id == id && exists k: nat :: CameAt(events, k, doc)))
    && forall k: nat :: MergedAt(events, k, id) ==> NoneLater(events[k].peers, id, doc)
  }

  lemma CameMore(events: seq<Event>, last: Event, doc: Document)
    requires last != Delete(doc.id) && exists k: nat :: CameAt(events, k, doc)
    ensures exists k: nat :: CameAt(events + [last], k, doc)
  {
    var k: nat :| CameAt(events, k, doc);
    DeletedMore(events, last, k, doc.id);
    assert (events + [last])[k] == events[k] && CameAt(events + [last], k, doc);
  }

  lemma CameNow(events: seq<Event>, last: Event, doc: Document)
    requires Has(last, doc)
    ensures exists k: nat :: CameAt(events + [last], k, doc)
  {
    DeletedMore(events, last, |events|, doc.id);
    assert !DeletedFrom(events, |events|, doc.id);
    assert (events + [last])[|events|] == last && CameAt(events + [last], |events|, doc);
  }

  lemma MergedBefore(events: seq<Event>, last: Event, k: nat, id: string)
    requires MergedAt(events + [last], k, id) && k < |events|
    ensures MergedAt(events, k, id) && (events + [last])[k] == events[k]
    ensures last != Delete(id) && !(last.Index? && last.doc.id == id)
  {
    var more := events + [last];
    assert more[|events|] == last && more[k] == events[k];
    forall j | k < j < |events| ensures events[j] != Delete(id) && !(events[j].Index? && events[j].doc.id == id) {
      assert more[j] == events[j];
    }
  }

  lemma NotLater(was: Document, now: Document, peer: Document)
    requires !Later(peer, was) && !Later(was, now)
    ensures !Later(peer, now)
  {
    VersionTotal(was.timestamp, was.node, now.timestamp, now.node);
    if Later(peer, now) && Later(now, was) {
      VersionTransitive(was.timestamp, was.node, now.timestamp, now.node, peer.timestamp, peer.node);
    }
  }

  /** A merge keeps the version or replaces it by a later one. */
  lemma LaterStays(peers: seq<Document>, id: string, was: Document, now: Document)
    requires NoneLater(peers, id, was) && !Later(was, now)
    ensures NoneLater(peers, id, now)
  {
    forall k | 0 <= k < |peers| && peers[k].id == id ensures !Later(peers[k], now) {
      NotLater(was, now, peers[k]);
    }
  }

  lemma VersionSource(documents: Documents, front: seq<Event>, last: Event, id: string)
    requires var before := After(documents, front); id in before ==> RightVersion(documents, front, id, before[id])
    requires id in Do(After(documents, front), last)
    ensures var doc := Do(After(documents, front), last)[id];
            || (id in documents && doc == documents[id] && !DeletedFrom(front + [last], 0, id))
            || (doc.id == id && exists k: nat :: CameAt(front + [last], k, doc))
  {
    var before := After(documents, front);
    var doc := Do(before, last)[id];
    DoHas(before, last, id);
    DeletedMore(front, last, 0, id);
    if last.Merge? { MergedKeepsNewest(before, last.peers, id); }
    if Has(last, doc) && doc.id == id {
      CameNow(front, last, doc);
    } else if doc.id == id && exists k: nat :: CameAt(front, k, doc) {
      CameMore(front, last, doc);
    }
  }

  lemma VersionNewest(documents: Documents, front: seq<Event>, last: Event, id: string, k: nat)
    requires var before := After(documents, front); id in before ==> RightVersion(documents, front, id, before[id])
    requires id in Do(After(documents, front), last) && MergedAt(front + [last], k, id)
    ensures NoneLater((front + [last])[k].peers, id, Do(After(documents, front), last)[id])
  {
    var before := After(documents, front);
    if last.Merge? { MergedKeepsNewest(before, last.peers, id); }
    if k < |front| {
      MergedBefore(front, last, k, id);
      if id in before {
        assert NoneLater(front[k].peers, id, before[id]);
        LaterOrder(before[id], before[id], before[id]);
        LaterStays(front[k].peers, id, before[id], Do(before, last)[id]);
      } else {
        NeverOffered(documents, front, k, id);
      }
    }
  }

  lemma NeverOffered(documents: Documents, events: seq<Event>, k: nat, id: string)
    requires MergedAt(events, k, id) && id !in After(documents, events)
    ensures !OffersId(events[k].peers, id)
  {
    HeldIff(documents, events, id);
    if OffersId(events[k].peers, id) {
      assert !DeletedFrom(events, k, id);
      assert BroughtAt(events, k, id);
    }
  }

  /** And it is held in a version that was indexed, offered or there since the last deletion; no snapshot merged since
      it was last indexed or deleted here had a later one. */
  lemma {:induction false} HeldVersion(documents: Documents, events: seq<Event>, id: string)
    requires id in After(documents, events)
    ensures RightVersion(documents, events, id, After(documents, events)[id])
    decreases |events|
  {
    if events != [] {
      var front, last := events[..|events| - 1], events[|events| - 1];
      assert front + [last] == events;
      if id in After(documents, front) { HeldVersion(documents, front, id); }
      VersionSource(documents, front, last, id);
      forall k: nat | MergedAt(events, k, id) ensures NoneLater(events[k].peers, id, After(documents, events)[id]) {
        VersionNewest(documents, front, last, id, k);
      }
    }
  }
}
