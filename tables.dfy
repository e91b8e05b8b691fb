/** The two tables behind `PolicyWordingRAG` (rag.py:229-253) as values, with the
    constraints the schema declares: `policy_documents` (id SERIAL, `document_name`
    VARCHAR(255) NOT NULL, `document_hash` UNIQUE, `total_chunks`) and `policy_chunks` (id
    SERIAL, `document_id` REFERENCES `policy_documents(id)` ON DELETE CASCADE, `chunk_index`,
    `chunk_text`, `page_number`, metadata with `start_char`/`end_char`, the embedding,
    UNIQUE(`document_id`, `chunk_index`)). */
module Tables {
  import opened Embedding

  /** `VARCHAR(255)` of `document_name`. */
  const MaxNameLength: nat := 255

  datatype DocumentRow = DocumentRow(id: nat, name: string, hash: string, totalChunks: nat)

  datatype ChunkRow = ChunkRow(
    id: nat,
    documentId: nat,
    chunkIndex: nat,
    text: string,
    pageNumber: int,
    startChar: nat,
    endChar: nat,
    embedding: Vector)

  /** Both tables, in insertion order, and the next values of their SERIAL sequences. */
  datatype Db = Db(documents: seq<DocumentRow>, chunks: seq<ChunkRow>, nextDocumentId: nat, nextChunkId: nat)

  function DocumentIds(docs: seq<DocumentRow>): set<nat> {
    set d | d in docs :: d.id
  }

  /** The number of chunk rows owned by document `documentId`. */
  function CountChunks(chunks: seq<ChunkRow>, documentId: nat): (n: nat)
    ensures n <= |chunks|
  {
    if chunks == [] then 0
    else (if chunks[0].documentId == documentId then 1 else 0) + CountChunks(chunks[1..], documentId)
  }

  predicate DocumentIdsIncrease(docs: seq<DocumentRow>) {
    forall i, j :: 0 <= i < j < |docs| ==> docs[i].id < docs[j].id
  }

  predicate HashesUnique(docs: seq<DocumentRow>) {
    forall i, j :: 0 <= i < j < |docs| ==> docs[i].hash != docs[j].hash
  }

  predicate ChunkIdsIncrease(chunks: seq<ChunkRow>) {
    forall i, j :: 0 <= i < j < |chunks| ==> chunks[i].id < chunks[j].id
  }

  /** UNIQUE(document_id, chunk_index). */
  predicate IndicesUnique(chunks: seq<ChunkRow>) {
    forall i, j :: 0 <= i < j < |chunks| && chunks[i].documentId == chunks[j].documentId ==>
      chunks[i].chunkIndex != chunks[j].chunkIndex
  }

  /** Document ids increase in insertion order and stay below the sequence; names fit the
      column; hashes are unique; `total_chunks` is the number of chunk rows of the document. */
  predicate DocumentsValid(db: Db) {
    DocumentIdsIncrease(db.documents) && HashesUnique(db.documents)
    && (forall d :: d in db.documents ==>
          d.id < db.nextDocumentId && |d.name| <= MaxNameLength && d.totalChunks == CountChunks(db.chunks, d.id))
  }

  /** Chunk ids increase in insertion order and stay below the sequence; every chunk's
      document exists; no document has two chunks with the same index. */
  predicate ChunksValid(db: Db) {
    ChunkIdsIncrease(db.chunks) && IndicesUnique(db.chunks)
    && (forall c :: c in db.chunks ==> c.id < db.nextChunkId && c.documentId in DocumentIds(db.documents))
  }

  predicate Valid(db: Db) {
    DocumentsValid(db) && ChunksValid(db)
  }

  /** The empty tables of a freshly created database; SERIAL starts at 1. */
  function Empty(): (db: Db)
    ensures Valid(db)
  {
    Db([], [], 1, 1)
  }

  lemma {:induction false} CountAppend(a: seq<ChunkRow>, b: seq<ChunkRow>, documentId: nat)
    ensures CountChunks(a + b, documentId) == CountChunks(a, documentId) + CountChunks(b, documentId)
  {
    if a == [] {
      assert a + b == b;
    } else {
      assert (a + b)[0] == a[0] && (a + b)[1..] == a[1..] + b;
      CountAppend(a[1..], b, documentId);
    }
  }

  lemma {:induction false} CountAbsent(chunks: seq<ChunkRow>, documentId: nat)
    requires forall c :: c in chunks ==> c.documentId != documentId
    ensures CountChunks(chunks, documentId) == 0
  {
    if chunks != [] {
      assert chunks[0] in chunks;
      CountAbsent(chunks[1..], documentId);
    }
  }

  lemma {:induction false} CountAll(chunks: seq<ChunkRow>, documentId: nat)
    requires forall c :: c in chunks ==> c.documentId == documentId
    ensures CountChunks(chunks, documentId) == |chunks|
  {
    if chunks != [] {
      assert chunks[0] in chunks;
      CountAll(chunks[1..], documentId);
    }
  }

  // ----- total_chunks summed over the documents -----

  /** `SUM(total_chunks)`. */
  function SumTotals(docs: seq<DocumentRow>): nat {
    if docs == [] then 0 else docs[0].totalChunks + SumTotals(docs[1..])
  }

  /** The chunk counts of the documents, summed. */
  function SumCounts(docs: seq<DocumentRow>, chunks: seq<ChunkRow>): nat {
    if docs == [] then 0 else CountChunks(chunks, docs[0].id) + SumCounts(docs[1..], chunks)
  }

  /** How many documents carry id `documentId`. */
  function IdOccurrences(docs: seq<DocumentRow>, documentId: nat): nat {
    if docs == [] then 0 else (if docs[0].id == documentId then 1 else 0) + IdOccurrences(docs[1..], documentId)
  }

  lemma {:induction false} SumCountsCons(docs: seq<DocumentRow>, c: ChunkRow, chunks: seq<ChunkRow>)
    ensures SumCounts(docs, [c] + chunks) == IdOccurrences(docs, c.documentId) + SumCounts(docs, chunks)
  {
    if docs != [] {
      assert ([c] + chunks)[1..] == chunks;
      SumCountsCons(docs[1..], c, chunks);
    }
  }

  lemma {:induction false} IdOccursOnce(docs: seq<DocumentRow>, documentId: nat)
    requires DocumentIdsIncrease(docs)
    requires documentId in DocumentIds(docs)
    ensures IdOccurrences(docs, documentId) == 1
  {
    var rest := docs[1..];
    if docs[0].id == documentId {
      forall d | d in rest ensures d.id != documentId {
        var k :| 0 <= k < |rest| && rest[k] == d;
        assert docs[k + 1] == d;
      }
      IdAbsent(rest, documentId);
    } else {
      var d :| d in docs && d.id == documentId;
      var k :| 0 <= k < |docs| && docs[k] == d;
      assert rest[k - 1] == d;
      IdOccursOnce(rest, documentId);
    }
  }

  lemma {:induction false} IdAbsent(docs: seq<DocumentRow>, documentId: nat)
    requires forall d :: d in docs ==> d.id != documentId
    ensures IdOccurrences(docs, documentId) == 0
  {
    if docs != [] {
      assert docs[0] in docs;
      IdAbsent(docs[1..], documentId);
    }
  }

  lemma {:induction false} SumCountsIsChunkCount(docs: seq<DocumentRow>, chunks: seq<ChunkRow>)
    requires DocumentIdsIncrease(docs)
    requires forall c :: c in chunks ==> c.documentId in DocumentIds(docs)
    ensures SumCounts(docs, chunks) == |chunks|
  {
    if chunks == [] {
      SumCountsEmpty(docs);
    } else {
      assert chunks == [chunks[0]] + chunks[1..];
      assert chunks[0] in chunks;
      SumCountsCons(docs, chunks[0], chunks[1..]);
      IdOccursOnce(docs, chunks[0].documentId);
      SumCountsIsChunkCount(docs, chunks[1..]);
    }
  }

  lemma {:induction false} SumCountsEmpty(docs: seq<DocumentRow>)
    ensures SumCounts(docs, []) == 0
  {
    if docs != [] {
      SumCountsEmpty(docs[1..]);
    }
  }

  lemma {:induction false} SumTotalsIsSumCounts(docs: seq<DocumentRow>, chunks: seq<ChunkRow>)
    requires forall d :: d in docs ==> d.totalChunks == CountChunks(chunks, d.id)
    ensures SumTotals(docs) == SumCounts(docs, chunks)
  {
    if docs != [] {
      assert docs[0] in docs;
      SumTotalsIsSumCounts(docs[1..], chunks);
    }
  }

  /** In valid tables `SUM(total_chunks)` is the number of chunk rows. */
  lemma TotalsCountChunkRows(db: Db)
    requires Valid(db)
    ensures SumTotals(db.documents) == |db.chunks|
  {
    SumTotalsIsSumCounts(db.documents, db.chunks);
    SumCountsIsChunkCount(db.documents, db.chunks);
  }
}
