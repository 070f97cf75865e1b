/** The full-text index: postings, lengths and totals that are updated document by document, and always those
    that indexing the documents from scratch would give. */
module SearchIndexes {
  import opened Wrappers
  import opened Order

  datatype Document = Document(id: string, content: string, timestamp: int, node: string)

  type Documents = map<string, Document>

  /** The words of each document. */
  type Words = map<string, seq<string>>

  /** How often each word occurs in which documents. */
  type Postings = map<string, map<string, nat>>

  // ----- the index of some documents -----

  function WordsOf(tokens: string -> seq<string>, documents: Documents): Words {
    map id | id in documents :: tokens(documents[id].content)
  }

  lemma WordsWith(tokens: string -> seq<string>, documents: Documents, doc: Document)
    ensures WordsOf(tokens, documents[doc.id := doc]) ==
            (WordsOf(tokens, documents) - {doc.id})[doc.id := tokens(doc.content)]
  {
  }

  lemma WordsWithout(tokens: string -> seq<string>, documents: Documents, id: string)
    ensures WordsOf(tokens, documents - {id}) == WordsOf(tokens, documents) - {id}
  {
  }

  function Count(ws: seq<string>, t: string): nat {
    if ws == [] then 0 else Count(ws[..|ws| - 1], t) + (if ws[|ws| - 1] == t then 1 else 0)
  }

  /** It is how often the word occurs. */
  lemma {:induction false} CountIsMultiplicity(ws: seq<string>, t: string)
    ensures Count(ws, t) == multiset(ws)[t]
  {
    if ws != [] {
      CountIsMultiplicity(ws[..|ws| - 1], t);
      assert ws == ws[..|ws| - 1] + [ws[|ws| - 1]];
    }
  }

  function Vocabulary(words: Words): set<string> {
    set id, i | id in words && 0 <= i < |words[id]| :: words[id][i]
  }

  function PostingsOf(words: Words): (index: Postings)
    ensures index.Keys == Vocabulary(words)
  {
    map t | t in Vocabulary(words) :: CountsFor(words, t)
  }

  function CountsFor(words: Words, t: string): map<string, nat> {
    map id | id in words && t in words[id] :: Count(words[id], t)
  }

  function LengthsOf(words: Words): map<string, nat> {
    map id | id in words :: |words[id]|
  }

  ghost function TotalOf(words: Words): nat
    decreases |words|
  {
    if words == map[] then 0 else
      var id :| id in words;
      |words[id]| + TotalOf(words - {id})
  }

  function Average(total: int, count: int): real {
    if count > 0 then total as real / count as real else 0.0
  }

  // ----- how it changes -----

  lemma {:induction false} TotalTakes(words: Words, id: string)
    requires id in words
    ensures TotalOf(words) == |words[id]| + TotalOf(words - {id})
    decreases |words|
  {
    var j :| j in words && TotalOf(words) == |words[j]| + TotalOf(words - {j});
    if j != id {
      TotalTakes(words - {j}, id);
      TotalTakes(words - {id}, j);
      assert words - {j} - {id} == words - {id} - {j};
    }
  }

  lemma {:induction false} CountPositive(ws: seq<string>, t: string)
    ensures Count(ws, t) > 0 <==> t in ws
  {
    if ws != [] {
      CountPositive(ws[..|ws| - 1], t);
      assert ws == ws[..|ws| - 1] + [ws[|ws| - 1]];
    }
  }

  lemma InVocabulary(words: Words, t: string)
    ensures t in Vocabulary(words) <==> exists id :: id in words && t in words[id]
  {
    if id :| id in words && t in words[id] {
      var i :| 0 <= i < |words[id]| && words[id][i] == t;
      assert words[id][i] in Vocabulary(words);
    }
  }

  /** No empty posting lists. */
  lemma NoEmptyPostings(words: Words, t: string)
    ensures t in PostingsOf(words) ==> PostingsOf(words)[t] != map[]
    ensures t in PostingsOf(words) <==> CountsFor(words, t) != map[]
  {
    InVocabulary(words, t);
    if id :| id in words && t in words[id] { assert id in CountsFor(words, t); }
    if CountsFor(words, t) != map[] {
      var id :| id in CountsFor(words, t);
      assert id in words && t in words[id];
    }
  }

  function Purged(postings: map<string, nat>, id: string): map<string, nat> {
    postings - {id}
  }

  /** The postings without a document, for the words that have been visited. */
  function PurgedPart(index: Postings, id: string, rest: set<string>): Postings {
    map t | t in index && (t in rest || Purged(index[t], id) != map[]) ::
      if t in rest then index[t] else Purged(index[t], id)
  }

  lemma PurgedAll(words: Words, id: string)
    ensures PurgedPart(PostingsOf(words), id, {}) == PostingsOf(words - {id})
  {
    var a, b := PurgedPart(PostingsOf(words), id, {}), PostingsOf(words - {id});
    assert forall t :: (t in a <==> t in b) && (t in a ==> a[t] == b[t]) by {
      forall t ensures (t in a <==> t in b) && (t in a ==> a[t] == b[t]) {
        NoEmptyPostings(words, t);
        NoEmptyPostings(words - {id}, t);
        assert CountsFor(words - {id}, t) == Purged(CountsFor(words, t), id);
      }
    }
    SameMaps(a, b);
  }

  lemma PurgedStep(index: Postings, id: string, rest: set<string>, t: string)
    requires t in rest && t in index
    ensures var now := PurgedPart(index, id, rest);
            && t in now && now[t] == index[t]
            && PurgedPart(index, id, rest - {t}) ==
                 if Purged(index[t], id) == map[] then now - {t} else now[t := Purged(index[t], id)]
  {
  }

  function At(index: Postings, t: string): map<string, nat> {
    if t in index then index[t] else map[]
  }

  ghost predicate NoneEmpty(index: Postings) {
    forall t :: t in index ==> index[t] != map[]
  }

  lemma SamePostings(a: Postings, b: Postings)
    requires NoneEmpty(a) && NoneEmpty(b) && forall t :: At(a, t) == At(b, t)
    ensures a == b
  {
    forall t ensures (t in a <==> t in b) && (t in a ==> a[t] == b[t]) { assert At(a, t) == At(b, t); }
    SameMaps(a, b);
  }

  lemma PostingsAt(words: Words)
    ensures NoneEmpty(PostingsOf(words)) && forall t :: At(PostingsOf(words), t) == CountsFor(words, t)
  {
    forall t
      ensures (t in PostingsOf(words) ==> PostingsOf(words)[t] != map[])
      ensures At(PostingsOf(words), t) == CountsFor(words, t)
    {
      NoEmptyPostings(words, t);
    }
  }

  function Counted(index: Postings, t: string, id: string): Postings {
    index[t := OneMore(At(index, t), id)]
  }

  function OneMore(postings: map<string, nat>, id: string): map<string, nat> {
    postings[id := (if id in postings then postings[id] else 0) + 1]
  }

  lemma OneMoreWord(words: Words, id: string, ws: seq<string>, t: string)
    ensures PostingsOf(words[id := ws + [t]]) == Counted(PostingsOf(words[id := ws]), t, id)
  {
    var before, after := words[id := ws], words[id := ws + [t]];
    var a, b := PostingsOf(after), Counted(PostingsOf(before), t, id);
    PostingsAt(before);
    PostingsAt(after);
    assert NoneEmpty(b) by { assert id in b[t]; }
    forall x ensures At(a, x) == At(b, x) { OneMoreCount(words, id, ws, t, x); }
    SamePostings(a, b);
  }

  lemma OneMoreCount(words: Words, id: string, ws: seq<string>, t: string, x: string)
    ensures var before, after := CountsFor(words[id := ws], x), CountsFor(words[id := ws + [t]], x);
            after == if x == t then OneMore(before, id) else before
  {
    var before, after := CountsFor(words[id := ws], x), CountsFor(words[id := ws + [t]], x);
    var target := if x == t then OneMore(before, id) else before;
    forall k ensures (k in after <==> k in target) && (k in after ==> after[k] == target[k]) {
      OneMoreCountAt(words, id, ws, t, x, k);
    }
    SameMaps(after, target);
  }

  lemma OneMoreCountAt(words: Words, id: string, ws: seq<string>, t: string, x: string, k: string)
    ensures var before, after := CountsFor(words[id := ws], x), CountsFor(words[id := ws + [t]], x);
            var target := if x == t then OneMore(before, id) else before;
            (k in after <==> k in target) && (k in after ==> after[k] == target[k])
  {
    CountMore(ws, t, x);
    if k == id {
      assert words[id := ws][k] == ws && words[id := ws + [t]][k] == ws + [t];
    }
  }

  lemma CountMore(ws: seq<string>, t: string, x: string)
    ensures Count(ws + [t], x) == Count(ws, x) + (if x == t then 1 else 0)
    ensures Count(ws, x) > 0 <==> x in ws
    ensures x in ws + [t] <==> x in ws || x == t
  {
    assert (ws + [t])[..|ws|] == ws;
    CountPositive(ws, x);
  }

  lemma NoWordsYet(words: Words, id: string)
    requires id !in words
    ensures PostingsOf(words[id := []]) == PostingsOf(words)
  {
    var a, b := PostingsOf(words[id := []]), PostingsOf(words);
    assert forall x :: (x in a <==> x in b) && (x in a ==> a[x] == b[x]) by {
      forall x ensures (x in a <==> x in b) && (x in a ==> a[x] == b[x]) {
        NoEmptyPostings(words[id := []], x);
        NoEmptyPostings(words, x);
        assert CountsFor(words[id := []], x) == CountsFor(words, x);
      }
    }
    SameMaps(a, b);
  }

  lemma LengthsMore(words: Words, id: string, terms: seq<string>)
    requires id !in words
    ensures LengthsOf(words[id := terms]) == LengthsOf(words)[id := |terms|] && |words[id := terms]| == |words| + 1
  {
  }

  lemma LengthsLess(words: Words, id: string)
    requires id in words
    ensures LengthsOf(words - {id}) == LengthsOf(words) - {id} && |words - {id}| == |words| - 1
  {
    assert words == (words - {id})[id := words[id]];
  }

  // ----- merging -----

  predicate Later(a: Document, b: Document) {
    VersionLess(b.timestamp, b.node, a.timestamp, a.node)
  }

  predicate Newer(documents: Documents, peer: Document) {
    peer.id !in documents || Later(peer, documents[peer.id])
  }

  function Merged(documents: Documents, peers: seq<Document>): Documents {
    if peers == [] then documents
    else
      var before, last := Merged(documents, peers[..|peers| - 1]), peers[|peers| - 1];
      if Newer(before, last) then before[last.id := last] else before
  }

  ghost predicate Offered(peers: seq<Document>, doc: Document) {
    exists k :: 0 <= k < |peers| && peers[k] == doc
  }

  ghost predicate OffersId(peers: seq<Document>, id: string) {
    exists k :: 0 <= k < |peers| && peers[k].id == id
  }

  ghost predicate NoneLater(peers: seq<Document>, id: string, doc: Document) {
    forall k :: 0 <= k < |peers| && peers[k].id == id ==> !Later(peers[k], doc)
  }

  /** One of the local document and the peer's under this identifier, and none of them is newer. */
  ghost predicate IsNewest(documents: Documents, peers: seq<Document>, id: string, doc: Document) {
    && ((id in documents && doc == documents[id]) || (doc.id == id && Offered(peers, doc)))
    && (id in documents ==> !Later(documents[id], doc))
    && NoneLater(peers, id, doc)
  }

  lemma LaterOrder(a: Document, b: Document, c: Document)
    ensures !Later(a, a)
    ensures !Later(b, a) && Later(c, a) ==> !Later(b, c)
  {
    VersionTotal(a.timestamp, a.node, a.timestamp, a.node);
    VersionTotal(a.timestamp, a.node, b.timestamp, b.node);
    VersionTotal(b.timestamp, b.node, c.timestamp, c.node);
    if Later(c, a) && Later(b, c) {
      VersionTransitive(a.timestamp, a.node, c.timestamp, c.node, b.timestamp, b.node);
    }
  }

  lemma OfferedMore(peers: seq<Document>, last: Document, doc: Document, id: string)
    ensures Offered(peers + [last], doc) <==> Offered(peers, doc) || doc == last
    ensures OffersId(peers + [last], id) <==> OffersId(peers, id) || last.id == id
    ensures NoneLater(peers + [last], id, doc) <==> NoneLater(peers, id, doc) && (last.id == id ==> !Later(last, doc))
  {
    var more := peers + [last];
    assert more[|peers|] == last && forall k :: 0 <= k < |peers| ==> more[k] == peers[k];
  }

  lemma NewestStep(documents: Documents, front: seq<Document>, last: Document, m: Documents, id: string)
    requires id in m <==> id in documents || OffersId(front, id)
    requires id in m ==> IsNewest(documents, front, id, m[id])
    ensures var r := if Newer(m, last) then m[last.id := last] else m;
            && (id in r <==> id in documents || OffersId(front + [last], id))
            && (id in r ==> IsNewest(documents, front + [last], id, r[id]))
  {
    var r := if Newer(m, last) then m[last.id := last] else m;
    OfferedMore(front, last, last, id);
    LaterOrder(last, last, last);
    if id in r { OfferedMore(front, last, r[id], id); }
    if id in m && last.id == id && Newer(m, last) {
      if id in documents { LaterOrder(m[id], documents[id], last); }
      forall k | 0 <= k < |front| && front[k].id == id ensures !Later(front[k], last) {
        LaterOrder(m[id], front[k], last);
      }
    }
  }

  /** After a merge exactly the documents known here or sent by the peer are held, each in its newest version. */
  lemma {:induction false} MergedKeepsNewest(documents: Documents, peers: seq<Document>, id: string)
    ensures id in Merged(documents, peers) <==> id in documents || OffersId(peers, id)
    ensures id in Merged(documents, peers) ==> IsNewest(documents, peers, id, Merged(documents, peers)[id])
    decreases |peers|
  {
    if peers == [] {
      if id in documents { LaterOrder(documents[id], documents[id], documents[id]); }
    } else {
      var front, last := peers[..|peers| - 1], peers[|peers| - 1];
      MergedKeepsNewest(documents, front, id);
      NewestStep(documents, front, last, Merged(documents, front), id);
      assert front + [last] == peers;
    }
  }

  /** Of all the versions of a document, offered and local, the one held after a merge has the latest timestamp, and
      at that timestamp the greatest node. */
  lemma NewestMeaning(documents: Documents, peers: seq<Document>, id: string)
    requires id in Merged(documents, peers)
    ensures var doc := Merged(documents, peers)[id];
            && ((id in documents && doc == documents[id])
                || exists k :: 0 <= k < |peers| && peers[k] == doc && peers[k].id == id)
            && (id in documents ==>
                  || documents[id].timestamp < doc.timestamp
                  || (documents[id].timestamp == doc.timestamp && !LexLess(doc.node, documents[id].node)))
            && forall k :: 0 <= k < |peers| && peers[k].id == id ==>
                 || peers[k].timestamp < doc.timestamp
                 || (peers[k].timestamp == doc.timestamp && !LexLess(doc.node, peers[k].node))
  {
    MergedKeepsNewest(documents, peers, id);
    var doc := Merged(documents, peers)[id];
    forall k | 0 <= k < |peers| && peers[k].id == id ensures !Later(peers[k], doc) {
      assert NoneLater(peers, id, doc);
    }
  }

  /** A deletion leaves no trace: the next merge brings the document back exactly when the peer still has it, and
      then the peer's version of it, be it older than the one that was deleted. */
  lemma DeletedComesBack(documents: Documents, peers: seq<Document>, id: string)
    ensures id in Merged(documents - {id}, peers) <==> OffersId(peers, id)
    ensures id in Merged(documents - {id}, peers) ==> Offered(peers, Merged(documents - {id}, peers)[id])
  {
    MergedKeepsNewest(documents - {id}, peers, id);
  }

  /** The lengths, and what is computed from them. */
  ghost predicate Measures(words: Words, lengths: map<string, nat>, count: int, total: int, average: real) {
    lengths == LengthsOf(words) && count == |words| && total == TotalOf(words) && average == Average(total, count)
  }

  lemma MeasuresLess(words: Words, id: string, lengths: map<string, nat>, count: int, total: int, average: real)
    requires id in words && Measures(words, lengths, count, total, average)
    ensures id in lengths
    ensures var left := total - lengths[id];
            Measures(words - {id}, lengths - {id}, count - 1, left, Average(left, count - 1))
  {
    TotalTakes(words, id);
    LengthsLess(words, id);
  }

  class BM25Index {
    const tokens: string -> seq<string>
    var documents: Documents
    var index: Postings
    var docTermsLen: map<string, nat>
    var docCount: int
    var totalTerms: int
    var avgDocLen: real

    ghost function Words(): Words
      reads this`documents
    {
      WordsOf(tokens, documents)
    }

    /** The index is the one that indexing the given words from scratch would give. */
    ghost predicate Indexes(words: Words)
      reads this`index, this`docTermsLen, this`docCount, this`totalTerms, this`avgDocLen
    {
      index == PostingsOf(words) && Measures(words, docTermsLen, docCount, totalTerms, avgDocLen)
    }

    ghost predicate Valid()
      reads this
    {
      Indexes(Words())
    }

    constructor (tokens: string -> seq<string>)
      ensures Valid() && documents == map[] && this.tokens == tokens
    {
      this.tokens := tokens;
      documents, index, docTermsLen, docCount, totalTerms, avgDocLen := map[], map[], map[], 0, 0, 0.0;
      new;
      assert Words() == map[];
      assert PostingsOf(map[]) == map[] && LengthsOf(map[]) == map[];
    }

    /** Takes a document's share out of the index; the documents stay. */
    method Deindex(id: string)
      requires Valid()
      modifies this
      ensures documents == old(documents) && Indexes(Words() - {id})
    {
      if id !in documents {
        assert Words() - {id} == Words();
        return;
      }
      TakeOut(id, Words());
    }

    /** Takes the share of a document that is there out of postings, lengths and totals. */
    method TakeOut(id: string, ghost words: Words)
      requires id in words && Indexes(words)
      modifies this`index, this`docTermsLen, this`docCount, this`totalTerms, this`avgDocLen
      ensures Indexes(words - {id})
    {
      PurgePostings(id, words);
      MeasuresLess(words, id, docTermsLen, docCount, totalTerms, avgDocLen);
      totalTerms := totalTerms - docTermsLen[id];
      docTermsLen := docTermsLen - {id};
      docCount := docCount - 1;
      avgDocLen := if docCount > 0 then totalTerms as real / docCount as real else 0.0;
    }

    method PurgePostings(id: string, ghost words: Words)
      requires index == PostingsOf(words)
      modifies this`index
      ensures index == PostingsOf(words - {id})
    {
      ghost var before := index;
      var rest := index.Keys;
      assert PurgedPart(before, id, rest) == before;
      while rest != {}
        invariant rest <= before.Keys && index == PurgedPart(before, id, rest)
      {
        var t :| t in rest;
        PurgedStep(before, id, rest, t);
        var postings := index[t] - {id};
        if |postings| == 0 { index := index - {t}; } else { index := index[t := postings]; }
        rest := rest - {t};
      }
      PurgedAll(words, id);
    }

    /** Adds a document's words to an index that does not have it. */
    method IndexWords(id: string, terms: seq<string>, ghost words: Words)
      requires id !in words && Indexes(words)
      modifies this`index, this`docTermsLen, this`docCount, this`totalTerms, this`avgDocLen
      ensures Indexes(words[id := terms])
    {
      docCount := docCount + 1;
      NoWordsYet(words, id);
      CountWords(id, terms, words);
      TotalTakes(words[id := terms], id);
      assert words[id := terms] - {id} == words;
      LengthsMore(words, id, terms);
      docTermsLen := docTermsLen[id := |terms|];
      totalTerms := totalTerms + |terms|;
      avgDocLen := totalTerms as real / docCount as real;
    }

    method CountWord(id: string, t: string)
      modifies this`index
      ensures index == Counted(old(index), t, id)
    {
      if t !in index { index := index[t := map[]]; }
      var postings := index[t];
      index := index[t := postings[id := (if id in postings then postings[id] else 0) + 1]];
    }

    method CountWords(id: string, terms: seq<string>, ghost words: Words)
      requires index == PostingsOf(words[id := []])
      modifies this`index
      ensures index == PostingsOf(words[id := terms])
    {
      for i := 0 to |terms|
        invariant index == PostingsOf(words[id := terms[..i]])
      {
        OneMoreWord(words, id, terms[..i], terms[i]);
        assert terms[..i + 1] == terms[..i] + [terms[i]];
        CountWord(id, terms[i]);
      }
      assert terms[..|terms|] == terms;
    }

    /** Indexes a document, in place of the one that had its identifier. */
    method IndexDocument(doc: Document)
      requires Valid()
      modifies this
      ensures Valid() && documents == old(documents)[doc.id := doc]
    {
      ghost var words := Words() - {doc.id};
      Deindex(doc.id);
      documents := documents[doc.id := doc];
      IndexWords(doc.id, tokens(doc.content), words);
      WordsWith(tokens, old(documents), doc);
    }

    method DeleteDocument(id: string)
      requires Valid()
      modifies this
      ensures Valid() && documents == old(documents) - {id}
    {
      ghost var left := Words() - {id};
      WordsWithout(tokens, documents, id);
      Deindex(id);
      documents := documents - {id};
      assert Words() == left && Indexes(left);
    }

    /** Adopts a peer's documents that are unknown here or newer. */
    method MergeSnapshot(peers: seq<Document>)
      requires Valid()
      modifies this
      ensures Valid() && documents == Merged(old(documents), peers)
      ensures forall k :: 0 <= k < |peers| ==>
                && peers[k].id in documents && peers[k].timestamp <= documents[peers[k].id].timestamp
                && (peers[k].timestamp == documents[peers[k].id].timestamp ==>
                      !LexLess(documents[peers[k].id].node, peers[k].node))
    {
      for i := 0 to |peers|
        invariant Valid() && documents == Merged(old(documents), peers[..i])
      {
        assert peers[..i + 1][..i] == peers[..i];
        if peers[i].id in documents
           && !VersionLess(documents[peers[i].id].timestamp, documents[peers[i].id].node, peers[i].timestamp,
                           peers[i].node) {
          continue;
        }
        IndexDocument(peers[i]);
      }
      assert peers[..|peers|] == peers;
      forall k | 0 <= k < |peers|
        ensures && peers[k].id in documents && peers[k].timestamp <= documents[peers[k].id].timestamp
                && (peers[k].timestamp == documents[peers[k].id].timestamp ==>
                      !LexLess(documents[peers[k].id].node, peers[k].node))
      {
        MergedKeepsNewest(old(documents), peers, peers[k].id);
        assert OffersId(peers, peers[k].id);
        NewestMeaning(old(documents), peers, peers[k].id);
      }
    }

    /** What an index holds: for every word and every document it occurs in how often it does, the length of every
        document, and their number and average length. */
    lemma ValidMeaning(t: string, id: string)
      requires Valid()
      ensures t in index && id in index[t] <==> id in documents && t in tokens(documents[id].content)
      ensures t in index && id in index[t] ==> index[t][id] == multiset(tokens(documents[id].content))[t]
      ensures id in docTermsLen <==> id in documents
      ensures id in documents ==> docTermsLen[id] == |tokens(documents[id].content)|
      ensures docCount == |documents|
      ensures avgDocLen == if docCount > 0 then totalTerms as real / docCount as real else 0.0
    {
      var words := Words();
      assert id in words <==> id in documents;
      if id in words { CountIsMultiplicity(words[id], t); }
      assert words.Keys == documents.Keys;
    }

    /** What the scorer relies on: every posting is of a document that is there and has a positive count, no word
        is in more documents than there are, and the average length it divides by is positive. */
    lemma ScorerIsSafe(t: string, id: string)
      requires Valid() && t in index && id in index[t]
      ensures id in documents && index[t][id] > 0 && 0 < |index[t]| <= docCount && avgDocLen > 0.0
    {
      var words := Words();
      assert id in words && t in words[id];
      CountPositive(words[id], t);
      TotalTakes(words, id);
      assert index[t].Keys <= words.Keys;
      FewerKeys(index[t], words);
      assert id in index[t].Keys && |index[t]| == |index[t].Keys| > 0;
      assert totalTerms > 0 && docCount > 0;
      PositiveAverage(totalTerms, docCount);
    }
  }

  lemma PositiveAverage(total: int, count: int)
    requires 0 < total && 0 < count
    ensures Average(total, count) > 0.0
  {
  }

  lemma FewerKeys(a: map<string, nat>, b: Words)
    requires a.Keys <= b.Keys
    ensures |a| <= |b|
  {
    assert b.Keys == a.Keys + (b.Keys - a.Keys);
    assert |a| == |a.Keys| && |b| == |b.Keys|;
  }
}
