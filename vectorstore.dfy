/**
 * The local vector store (backend/embeddings.py): a list of documents, each with its embedded
 * chunks. Adding a document replaces any document with the same id; a query scans the chunks,
 * scores them, sorts by descending score (stably) and keeps the first `top_k`. The similarity
 * score against the query embedding is a parameter.
 */
module VectorStore {
  import opened Wrappers
  import opened Text

  datatype Chunk = Chunk(id: string, text: string, embedding: Option<seq<real>>)
  datatype StoredDocument = StoredDocument(id: string, name: Option<string>, chunks: seq<Chunk>, createdAt: Option<string>)

  /** One query result: the document's id and name and the chunk's id and text, with its score. */
  datatype Hit = Hit(docId: string, docName: Option<string>, chunkId: string, text: string, score: real)

  /** `ch.get("embedding")` is truthy: present and non-empty. */
  predicate HasEmbedding(c: Chunk) {
    c.embedding.Some? && c.embedding.value != []
  }

  /** `document_id` is falsy, or names this document. */
  predicate Selected(d: StoredDocument, documentId: Option<string>) {
    !Truthy(documentId) || d.id == documentId.value
  }

  function HitOf(d: StoredDocument, c: Chunk, score: seq<real> -> real): Hit
    requires c.embedding.Some?
  {
    Hit(d.id, d.name, c.id, c.text, score(c.embedding.value))
  }

  // ---------------------------------------------------------------- add_document

  /** `[d for d in documents if d["id"] != doc_id]`. */
  function WithoutId(docs: seq<StoredDocument>, docId: string): (r: seq<StoredDocument>)
    ensures |r| <= |docs|
    ensures forall k :: 0 <= k < |r| ==> r[k].id != docId
    ensures forall d :: d in r <==> d in docs && d.id != docId
  {
    if docs == [] then []
    else if docs[0].id != docId then [docs[0]] + WithoutId(docs[1..], docId)
    else WithoutId(docs[1..], docId)
  }

  /** The filter keeps relative order: it distributes over concatenation. */
  lemma {:induction false} WithoutIdAppend(xs: seq<StoredDocument>, ys: seq<StoredDocument>, docId: string)
    ensures WithoutId(xs + ys, docId) == WithoutId(xs, docId) + WithoutId(ys, docId)
  {
    if xs != [] {
      assert (xs + ys)[0] == xs[0];
      assert (xs + ys)[1..] == xs[1..] + ys;
      WithoutIdAppend(xs[1..], ys, docId);
      if xs[0].id != docId {
        assert WithoutId(xs + ys, docId) == [xs[0]] + WithoutId(xs[1..] + ys, docId);
        assert WithoutId(xs, docId) == [xs[0]] + WithoutId(xs[1..], docId);
      } else {
        assert WithoutId(xs + ys, docId) == WithoutId(xs[1..] + ys, docId);
      }
    } else {
      assert xs + ys == ys;
    }
  }

  /** The list add_document leaves behind. */
  function Added(docs: seq<StoredDocument>, docId: string, name: string, chunks: seq<Chunk>): (r: seq<StoredDocument>)
    ensures r != [] && r[|r| - 1] == StoredDocument(docId, Some(name), chunks, None)
    ensures forall k :: 0 <= k < |r| ==> (r[k].id == docId <==> k == |r| - 1)
    ensures forall d: StoredDocument :: d.id != docId ==> (d in r <==> d in docs)
  {
    WithoutId(docs, docId) + [StoredDocument(docId, Some(name), chunks, None)]
  }

  /** Adding under the same id twice is adding the second version once. */
  lemma AddedTwice(docs: seq<StoredDocument>, docId: string, name1: string, chunks1: seq<Chunk>,
                   name2: string, chunks2: seq<Chunk>)
    ensures Added(Added(docs, docId, name1, chunks1), docId, name2, chunks2) == Added(docs, docId, name2, chunks2)
  {
    var kept := WithoutId(docs, docId);
    var first := StoredDocument(docId, Some(name1), chunks1, None);
    WithoutIdAppend(kept, [first], docId);
    WithoutIdAbsent(kept, docId);
    assert WithoutId([first], docId) == [];
  }

  /** Filtering a list with no entry of that id is the identity. */
  lemma {:induction false} WithoutIdAbsent(docs: seq<StoredDocument>, docId: string)
    requires forall k :: 0 <= k < |docs| ==> docs[k].id != docId
    ensures WithoutId(docs, docId) == docs
  {
    if docs != [] {
      WithoutIdAbsent(docs[1..], docId);
      assert [docs[0]] + docs[1..] == docs;
    }
  }

  /** Adding a document with another id keeps the earlier documents, in order, ahead of it. */
  lemma AddedKeepsOrder(docs: seq<StoredDocument>, docId: string, name: string, chunks: seq<Chunk>)
    requires forall k :: 0 <= k < |docs| ==> docs[k].id != docId
    ensures Added(docs, docId, name, chunks) == docs + [StoredDocument(docId, Some(name), chunks, None)]
  {
    WithoutIdAbsent(docs, docId);
  }

  // ---------------------------------------------------------------- query: scan

  /** The hits of one document's chunks, in chunk order. */
  function ScanChunks(d: StoredDocument, chunks: seq<Chunk>, score: seq<real> -> real): (hits: seq<Hit>)
    ensures |hits| <= |chunks|
  {
    if chunks == [] then []
    else
      var init := chunks[..|chunks| - 1];
      var c := chunks[|chunks| - 1];
      ScanChunks(d, init, score) + (if HasEmbedding(c) then [HitOf(d, c, score)] else [])
  }

  /** A document's hits are exactly the scored chunks that have an embedding, each carrying the
      document's id and name. */
  lemma {:induction false} ScanChunksMeaning(d: StoredDocument, chunks: seq<Chunk>, score: seq<real> -> real)
    ensures forall h :: h in ScanChunks(d, chunks, score) ==> h.docId == d.id && h.docName == d.name
    ensures forall h :: h in ScanChunks(d, chunks, score) ==> exists c :: c in chunks && HasEmbedding(c) && h == HitOf(d, c, score)
    ensures forall c :: c in chunks && HasEmbedding(c) ==> HitOf(d, c, score) in ScanChunks(d, chunks, score)
    decreases |chunks|
  {
    if chunks != [] {
      var init := chunks[..|chunks| - 1];
      assert chunks == init + [chunks[|chunks| - 1]];
      ScanChunksMeaning(d, init, score);
    }
  }

  /** The hits of the outer loop over documents, in document order. */
  function Scan(docs: seq<StoredDocument>, documentId: Option<string>, score: seq<real> -> real): (hits: seq<Hit>) {
    if docs == [] then []
    else
      var init := docs[..|docs| - 1];
      var d := docs[|docs| - 1];
      Scan(init, documentId, score) + (if Selected(d, documentId) then ScanChunks(d, d.chunks, score) else [])
  }

  /** The scan's hits come from the selected documents only, and every embedded chunk of a
      selected document is among them. */
  lemma {:induction false} ScanMeaning(docs: seq<StoredDocument>, documentId: Option<string>, score: seq<real> -> real)
    ensures Truthy(documentId) ==> forall h :: h in Scan(docs, documentId, score) ==> h.docId == documentId.value
    ensures forall h :: h in Scan(docs, documentId, score) ==>
              exists d :: d in docs && Selected(d, documentId) && h in ScanChunks(d, d.chunks, score)
    ensures forall d, c :: d in docs && Selected(d, documentId) && c in d.chunks && HasEmbedding(c) ==>
              HitOf(d, c, score) in Scan(docs, documentId, score)
    decreases |docs|
  {
    if docs != [] {
      var init := docs[..|docs| - 1];
      var d := docs[|docs| - 1];
      assert docs == init + [d];
      ScanMeaning(init, documentId, score);
      ScanChunksMeaning(d, d.chunks, score);
      forall e, c | e in docs && Selected(e, documentId) && c in e.chunks && HasEmbedding(c)
        ensures HitOf(e, c, score) in Scan(docs, documentId, score)
      {
        ScanChunksMeaning(e, e.chunks, score);
      }
    }
  }

  /** One step of the loop over a document's chunks. */
  lemma ScanChunksStep(d: StoredDocument, chunks: seq<Chunk>, j: int, score: seq<real> -> real)
    requires 0 <= j < |chunks|
    ensures ScanChunks(d, chunks[..j + 1], score) ==
              ScanChunks(d, chunks[..j], score) + (if HasEmbedding(chunks[j]) then [HitOf(d, chunks[j], score)] else [])
  {
    assert chunks[..j + 1][..j] == chunks[..j];
  }

  /** One step of the loop over documents. */
  lemma ScanStep(docs: seq<StoredDocument>, i: int, documentId: Option<string>, score: seq<real> -> real)
    requires 0 <= i < |docs|
    ensures Scan(docs[..i + 1], documentId, score) ==
              Scan(docs[..i], documentId, score) + (if Selected(docs[i], documentId) then ScanChunks(docs[i], docs[i].chunks, score) else [])
  {
    assert docs[..i + 1][..i] == docs[..i];
  }

  // ---------------------------------------------------------------- query: sort and cut

  /** Non-increasing by score. */
  predicate SortedDesc(hs: seq<Hit>) {
    forall i, j :: 0 <= i < j < |hs| ==> hs[i].score >= hs[j].score
  }

  /** The hits of one score, in list order. */
  function WithScore(hs: seq<Hit>, s: real): seq<Hit> {
    if hs == [] then []
    else (if hs[0].score == s then [hs[0]] else []) + WithScore(hs[1..], s)
  }

  /** Inserts `x` before the first hit that does not score higher. */
  function Insert(x: Hit, hs: seq<Hit>): (r: seq<Hit>)
    ensures |r| == |hs| + 1
    ensures r[0] == x || (hs != [] && r[0] == hs[0])
  {
    if hs == [] || hs[0].score <= x.score then [x] + hs
    else [hs[0]] + Insert(x, hs[1..])
  }

  /** Inserting into a sorted list keeps it sorted. */
  lemma {:induction false} InsertSorted(x: Hit, hs: seq<Hit>)
    requires SortedDesc(hs)
    ensures SortedDesc(Insert(x, hs))
  {
    if hs != [] && hs[0].score > x.score {
      var rest := Insert(x, hs[1..]);
      InsertSorted(x, hs[1..]);
      assert hs[0].score >= rest[0].score;
      var r := [hs[0]] + rest;
      forall i, j | 0 <= i < j < |r| ensures r[i].score >= r[j].score {
        if i == 0 {
          assert r[j] == rest[j - 1];
        } else {
          assert r[i] == rest[i - 1] && r[j] == rest[j - 1];
        }
      }
    }
  }

  /** Inserting adds exactly `x`. */
  lemma {:induction false} InsertPermutes(x: Hit, hs: seq<Hit>)
    ensures multiset(Insert(x, hs)) == multiset(hs) + multiset{x}
  {
    if hs != [] && hs[0].score > x.score {
      InsertPermutes(x, hs[1..]);
      assert hs == [hs[0]] + hs[1..];
    }
  }

  /** `results.sort(key=score, reverse=True)`: a stable sort into non-increasing score. */
  function SortByScore(hs: seq<Hit>): (r: seq<Hit>)
    ensures SortedDesc(r)
    ensures multiset(r) == multiset(hs)
  {
    if hs == [] then []
    else
      var rest := SortByScore(hs[1..]);
      InsertSorted(hs[0], rest);
      InsertPermutes(hs[0], rest);
      assert hs == [hs[0]] + hs[1..];
      Insert(hs[0], rest)
  }

  /** Inserting puts `x` ahead of every hit of its own score. */
  lemma {:induction false} InsertWithScore(x: Hit, hs: seq<Hit>, s: real)
    requires SortedDesc(hs)
    ensures WithScore(Insert(x, hs), s) == (if x.score == s then [x] else []) + WithScore(hs, s)
  {
    if hs == [] || hs[0].score <= x.score {
      assert ([x] + hs)[1..] == hs;
    } else {
      InsertWithScore(x, hs[1..], s);
      var rest := Insert(x, hs[1..]);
      assert ([hs[0]] + rest)[1..] == rest;
      if x.score == s {
        assert hs[0].score != s;
      }
    }
  }

  /** The sort is stable: for every score, the hits of that score keep their scan order. */
  lemma {:induction false} SortIsStable(hs: seq<Hit>, s: real)
    ensures WithScore(SortByScore(hs), s) == WithScore(hs, s)
  {
    if hs != [] {
      SortIsStable(hs[1..], s);
      InsertWithScore(hs[0], SortByScore(hs[1..]), s);
    }
  }

  /** Python's `xs[:k]`: a negative `k` counts from the end. */
  function PyPrefix(hs: seq<Hit>, k: int): (r: seq<Hit>)
    ensures r <= hs
    ensures k >= 0 ==> |r| == if k < |hs| then k else |hs|
    ensures k < 0 ==> |r| == if |hs| + k > 0 then |hs| + k else 0
  {
    var n := if k >= 0 then (if k < |hs| then k else |hs|) else (if |hs| + k > 0 then |hs| + k else 0);
    hs[..n]
  }

  /** A prefix of a sorted list is sorted. */
  lemma PrefixSorted(hs: seq<Hit>, k: int)
    requires SortedDesc(hs)
    ensures SortedDesc(PyPrefix(hs, k))
  {
  }

  /** What query returns for the store's documents. */
  function QueryResult(docs: seq<StoredDocument>, documentId: Option<string>, score: seq<real> -> real, topK: int): seq<Hit> {
    PyPrefix(SortByScore(Scan(docs, documentId, score)), topK)
  }

  /** The query's results are at most `top_k`, sorted by score, restricted to the named document,
      and each one is a scored chunk that has an embedding. */
  lemma QueryResultProperties(docs: seq<StoredDocument>, documentId: Option<string>, score: seq<real> -> real, topK: int)
    ensures var r := QueryResult(docs, documentId, score, topK);
            && (topK >= 0 ==> |r| <= topK)
            && SortedDesc(r)
            && (forall h :: h in r ==> h in Scan(docs, documentId, score))
            && (Truthy(documentId) ==> forall h :: h in r ==> h.docId == documentId.value)
  {
    var all := Scan(docs, documentId, score);
    var sorted := SortByScore(all);
    var r := PyPrefix(sorted, topK);
    ScanMeaning(docs, documentId, score);
    PrefixSorted(sorted, topK);
    forall h | h in r ensures h in all {
      assert h in sorted;
      assert h in multiset(sorted);
    }
  }

  /** The inner loop of query over one selected document's chunks. */
  method ScoreChunks(doc: StoredDocument, score: seq<real> -> real) returns (hits: seq<Hit>)
    ensures hits == ScanChunks(doc, doc.chunks, score)
  {
    hits := [];
    for j := 0 to |doc.chunks|
      invariant hits == ScanChunks(doc, doc.chunks[..j], score)
    {
      var ch := doc.chunks[j];
      ScanChunksStep(doc, doc.chunks, j, score);
      if HasEmbedding(ch) {
        hits := hits + [HitOf(doc, ch, score)];
      }
    }
    assert doc.chunks[..|doc.chunks|] == doc.chunks;
  }

  class Store {
    var documents: seq<StoredDocument>

    constructor ()
      ensures documents == []
    {
      documents := [];
    }

    /** add_document: drop the documents with this id, then append the new one. */
    method AddDocument(docId: string, name: string, chunks: seq<Chunk>)
      modifies this
      ensures documents == Added(old(documents), docId, name, chunks)
    {
      var docs := documents;
      var kept: seq<StoredDocument> := [];
      var i := 0;
      while i < |docs|
        invariant 0 <= i <= |docs|
        invariant kept == WithoutId(docs[..i], docId)
      {
        WithoutIdAppend(docs[..i], [docs[i]], docId);
        assert docs[..i + 1] == docs[..i] + [docs[i]];
        assert [docs[i]][1..] == [];
        if docs[i].id != docId {
          kept := kept + [docs[i]];
        }
        i := i + 1;
      }
      assert docs[..i] == docs;
      documents := kept + [StoredDocument(docId, Some(name), chunks, None)];
    }

    /** query: the nested scan, then the sort and the cut. */
    method Query(documentId: Option<string>, score: seq<real> -> real, topK: int) returns (results: seq<Hit>)
      ensures results == QueryResult(documents, documentId, score, topK)
    {
      var docs := documents;
      var found: seq<Hit> := [];
      var i := 0;
      while i < |docs|
        invariant 0 <= i <= |docs|
        invariant found == Scan(docs[..i], documentId, score)
      {
        var doc := docs[i];
        ScanStep(docs, i, documentId, score);
        if Selected(doc, documentId) {
          var hits := ScoreChunks(doc, score);
          found := found + hits;
        }
        i := i + 1;
      }
      assert docs[..i] == docs;
      results := PyPrefix(SortByScore(found), topK);
    }
  }
}
