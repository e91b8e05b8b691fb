/** `PolicyWordingRAG` (rag.py:185-605) over the in-memory tables of module `Tables`: adding
    a document (hash-deduplicated, all-or-nothing), similarity search with filters and a
    stable ranking, deletion with cascade, clearing, and statistics. The database is the
    only state; the embedding model, the similarity measure and SHA-256 are parameters. */
module Store {
  import opened Common
  import opened Text
  import opened Chunker
  import opened Embedding
  import opened Ranking
  import opened Tables

  /** The `PDFProcessor()` defaults used by the store (rag.py:103, 207). */
  const DefaultChunkSize: nat := 1500
  const DefaultChunkOverlap: nat := 300

  /** Why `add_policy_document` raises (and rolls back). */
  datatype AddError =
    | NoInput               // neither text nor PDF bytes (rag.py:309-310)
    | PdfExtractionFailed   // the PDF gave no chunks (rag.py:303-304)
    | NameMissing           // `document_name` is None: NOT NULL violation
    | NameTooLong           // more than 255 characters: VARCHAR(255) violation
    | DuplicateChunkIndex   // two chunks share a `chunk_index`: UNIQUE violation

  datatype DocumentStats = DocumentStats(totalDocuments: nat, totalChunks: nat, avgChunksPerDocument: real)

  // ----- add_policy_document -----

  function ChunkTexts(cs: seq<Chunk>): (r: seq<string>)
    ensures |r| == |cs| && forall k :: 0 <= k < |cs| ==> r[k] == cs[k].text
  {
    seq(|cs|, k requires 0 <= k < |cs| => cs[k].text)
  }

  /** The text that is hashed and the chunks to insert (rag.py:300-310): the PDF path runs
      when PDF bytes are given and the text is empty or missing, and hashes the chunk texts
      joined by single spaces; otherwise a non-empty text is chunked as page 1. The PDF is
      given as the pages its text extraction yields. */
  function InputChunks(documentText: string, pdf: Option<seq<PageText>>): Result<(string, seq<Chunk>), AddError> {
    if pdf.Some? && documentText == [] then
      var cs := PdfChunks(pdf.value, DefaultChunkSize, DefaultChunkOverlap);
      if cs == [] then Err(PdfExtractionFailed) else Ok((Join(" ", ChunkTexts(cs)), cs))
    else if documentText != [] then
      Ok((documentText, Chunks(documentText, 1, DefaultChunkSize, DefaultChunkOverlap)))
    else Err(NoInput)
  }

  /** The row `SELECT ... WHERE document_hash = h` finds. */
  function FindByHash(docs: seq<DocumentRow>, h: string): (r: Option<DocumentRow>)
    ensures r.None? <==> forall d :: d in docs ==> d.hash != h
    ensures r.Some? ==> r.value in docs && r.value.hash == h
  {
    if docs == [] then None
    else if docs[0].hash == h then Some(docs[0])
    else
      var r := FindByHash(docs[1..], h);
      assert forall d :: d in docs ==> d == docs[0] || d in docs[1..];
      r
  }

  /** Two chunks of one insert share a `chunk_index`. */
  predicate HasDuplicateIndex(cs: seq<Chunk>) {
    exists i, j :: 0 <= i < j < |cs| && cs[i].chunkIndex == cs[j].chunkIndex
  }

  /** Row `j` of an insert repeats the `chunk_index` of an earlier row. */
  predicate RepeatsIndex(cs: seq<Chunk>, j: nat) {
    j < |cs| && exists i :: 0 <= i < j && cs[i].chunkIndex == cs[j].chunkIndex
  }

  /** The chunk rows of an insert that reach the table, from row `k` on: rows go in one at a
      time in list order, each taking the next chunk id before its UNIQUE check, and the
      first row that repeats an index aborts the insert. */
  function RowsTried(cs: seq<Chunk>, k: nat): (n: nat)
    requires k <= |cs|
    ensures k <= n <= |cs|
    ensures n == |cs| || (0 < n && RepeatsIndex(cs, n - 1))
    ensures forall j :: k <= j < n - 1 ==> !RepeatsIndex(cs, j)
    decreases |cs| - k
  {
    if k == |cs| then |cs|
    else if RepeatsIndex(cs, k) then k + 1
    else RowsTried(cs, k + 1)
  }

  /** On an insert that breaks UNIQUE(document_id, chunk_index) the rows tried are those up
      to and including the first row that repeats an index. */
  lemma RowsTriedStopAtFirstRepeat(cs: seq<Chunk>)
    requires HasDuplicateIndex(cs)
    ensures var n := RowsTried(cs, 0);
      0 < n && RepeatsIndex(cs, n - 1) && forall j :: 0 <= j < n - 1 ==> !RepeatsIndex(cs, j)
  {
    var i, j :| 0 <= i < j < |cs| && cs[i].chunkIndex == cs[j].chunkIndex;
    assert RepeatsIndex(cs, j);
  }

  /** The chunk rows inserted for document `documentId`, ids taken from `firstId` on. */
  function ChunkRows(documentId: nat, firstId: nat, cs: seq<Chunk>, embeddings: seq<Vector>): (rows: seq<ChunkRow>)
    requires |embeddings| == |cs|
    ensures |rows| == |cs|
    ensures forall k :: 0 <= k < |cs| ==>
      rows[k] == ChunkRow(firstId + k, documentId, cs[k].chunkIndex, cs[k].text, cs[k].pageNumber, cs[k].startChar, cs[k].endChar, embeddings[k])
  {
    seq(|cs|, k requires 0 <= k < |cs| =>
      ChunkRow(firstId + k, documentId, cs[k].chunkIndex, cs[k].text, cs[k].pageNumber, cs[k].startChar, cs[k].endChar, embeddings[k]))
  }

  /** `add_policy_document(document_text, document_name, pdf_bytes)`: the result and the
      tables afterwards. An error leaves the rows as they were (rollback); the SERIAL
      sequences keep any value they handed out before the error. */
  function Add(db: Db, hash: string -> string, enc: Encoder, documentText: string, documentName: Option<string>, pdf: Option<seq<PageText>>)
    : (Result<(nat, nat), AddError>, Db)
  {
    match InputChunks(documentText, pdf)
    case Err(e) => (Err(e), db)
    case Ok((text, cs)) =>
      var h := hash(text);
      var existing := FindByHash(db.documents, h);
      if existing.Some? then (Ok((existing.value.id, existing.value.totalChunks)), db)
      else InsertDocument(db, enc, h, cs, documentName)
  }

  /** The insert of rag.py:324-372 for content whose hash `h` is not stored yet. A NULL
      name fails the NOT NULL check after the document id is drawn; a name over 255
      characters fails when the literal is converted to VARCHAR(255), before any id is
      drawn; a repeated `chunk_index` fails after the document id and the ids of the rows
      tried are drawn. */
  function InsertDocument(db: Db, enc: Encoder, h: string, cs: seq<Chunk>, documentName: Option<string>)
    : (Result<(nat, nat), AddError>, Db)
  {
    if documentName.None? then (Err(NameMissing), Db(db.documents, db.chunks, db.nextDocumentId + 1, db.nextChunkId))
    else if |documentName.value| > MaxNameLength then (Err(NameTooLong), db)
    else if HasDuplicateIndex(cs) then
      (Err(DuplicateChunkIndex), Db(db.documents, db.chunks, db.nextDocumentId + 1, db.nextChunkId + RowsTried(cs, 0)))
    else
      var embeddings := BatchEmbeddings(enc, ChunkTexts(cs), DefaultBatchSize);
      var id := db.nextDocumentId;
      var rows := ChunkRows(id, db.nextChunkId, cs, embeddings);
      (Ok((id, |cs|)),
       Db(db.documents + [DocumentRow(id, documentName.value, h, |cs|)], db.chunks + rows, id + 1, db.nextChunkId + |cs|))
  }

  /** Inserting a document row with the next id, a new hash and a fitting name, together
      with its chunk rows (the next chunk ids, distinct indices), keeps the tables valid. */
  lemma InsertKeepsValid(db: Db, nd: DocumentRow, rows: seq<ChunkRow>)
    requires Valid(db)
    requires nd.id == db.nextDocumentId && |nd.name| <= MaxNameLength && nd.totalChunks == |rows|
    requires forall d :: d in db.documents ==> d.hash != nd.hash
    requires forall k :: 0 <= k < |rows| ==> rows[k].id == db.nextChunkId + k && rows[k].documentId == nd.id
    requires forall i, j :: 0 <= i < j < |rows| ==> rows[i].chunkIndex != rows[j].chunkIndex
    ensures Valid(Db(db.documents + [nd], db.chunks + rows, nd.id + 1, db.nextChunkId + |rows|))
  {
    var db' := Db(db.documents + [nd], db.chunks + rows, nd.id + 1, db.nextChunkId + |rows|);
    InsertKeepsDocumentsValid(db, nd, rows);
    InsertKeepsChunksValid(db, nd, rows);
  }

  lemma InsertKeepsDocumentsValid(db: Db, nd: DocumentRow, rows: seq<ChunkRow>)
    requires Valid(db)
    requires nd.id == db.nextDocumentId && |nd.name| <= MaxNameLength && nd.totalChunks == |rows|
    requires forall d :: d in db.documents ==> d.hash != nd.hash
    requires forall k :: 0 <= k < |rows| ==> rows[k].documentId == nd.id
    ensures DocumentsValid(Db(db.documents + [nd], db.chunks + rows, nd.id + 1, db.nextChunkId + |rows|))
  {
    var docs' := db.documents + [nd];
    var chunks' := db.chunks + rows;
    forall c | c in db.chunks ensures c.documentId != nd.id {
      assert c.documentId in DocumentIds(db.documents);
    }
    forall c | c in rows ensures c.documentId == nd.id {
      var k :| 0 <= k < |rows| && rows[k] == c;
    }
    CountAbsent(db.chunks, nd.id);
    CountAll(rows, nd.id);
    CountAppend(db.chunks, rows, nd.id);
    forall d | d in docs' ensures d.id < nd.id + 1 && |d.name| <= MaxNameLength && d.totalChunks == CountChunks(chunks', d.id) {
      if d != nd {
        assert d in db.documents;
        CountAbsent(rows, d.id);
        CountAppend(db.chunks, rows, d.id);
      }
    }
    forall i, j | 0 <= i < j < |docs'| ensures docs'[i].id < docs'[j].id && docs'[i].hash != docs'[j].hash {
      assert docs'[i] in db.documents;
      if j < |db.documents| {
        assert docs'[j] == db.documents[j];
      }
    }
  }

  lemma InsertKeepsChunksValid(db: Db, nd: DocumentRow, rows: seq<ChunkRow>)
    requires Valid(db)
    requires nd.id == db.nextDocumentId
    requires forall k :: 0 <= k < |rows| ==> rows[k].id == db.nextChunkId + k && rows[k].documentId == nd.id
    requires forall i, j :: 0 <= i < j < |rows| ==> rows[i].chunkIndex != rows[j].chunkIndex
    ensures ChunksValid(Db(db.documents + [nd], db.chunks + rows, nd.id + 1, db.nextChunkId + |rows|))
  {
    var docs' := db.documents + [nd];
    var chunks' := db.chunks + rows;
    var n := |db.chunks|;
    assert forall d :: d in db.documents ==> d in docs';
    forall c | c in chunks' ensures c.id < db.nextChunkId + |rows| && c.documentId in DocumentIds(docs') {
      if c in db.chunks {
        assert c.documentId in DocumentIds(db.documents);
      } else {
        var k :| 0 <= k < |rows| && rows[k] == c;
        assert nd in docs';
      }
    }
    forall i, j | 0 <= i < j < |chunks'|
      ensures chunks'[i].id < chunks'[j].id
      ensures chunks'[i].documentId == chunks'[j].documentId ==> chunks'[i].chunkIndex != chunks'[j].chunkIndex
    {
      if j < n {
        assert chunks'[i] == db.chunks[i] && chunks'[j] == db.chunks[j];
      } else if i < n {
        assert chunks'[i] == db.chunks[i] && chunks'[i] in db.chunks;
        assert chunks'[j] == rows[j - n];
        assert chunks'[i].documentId in DocumentIds(db.documents);
      } else {
        assert chunks'[i] == rows[i - n] && chunks'[j] == rows[j - n];
      }
    }
  }

  /** Adding keeps the tables valid. */
  lemma AddKeepsValid(db: Db, hash: string -> string, enc: Encoder, documentText: string, documentName: Option<string>, pdf: Option<seq<PageText>>)
    requires Valid(db)
    ensures Valid(Add(db, hash, enc, documentText, documentName, pdf).1)
  {
    var (r, db') := Add(db, hash, enc, documentText, documentName, pdf);
    if r.Err? {
      AdvanceKeepsValid(db, 1, 0);
      if InputChunks(documentText, pdf).Ok? {
        AdvanceKeepsValid(db, 1, RowsTried(InputChunks(documentText, pdf).value.1, 0));
      }
    } else if db' != db {
      var (text, cs) := InputChunks(documentText, pdf).value;
      var h := hash(text);
      var id := db.nextDocumentId;
      var embeddings := BatchEmbeddings(enc, ChunkTexts(cs), DefaultBatchSize);
      BatchEmbeddingsMeaning(enc, ChunkTexts(cs), DefaultBatchSize);
      var rows := ChunkRows(id, db.nextChunkId, cs, embeddings);
      var nd := DocumentRow(id, documentName.value, h, |cs|);
      assert db' == Db(db.documents + [nd], db.chunks + rows, nd.id + 1, db.nextChunkId + |rows|);
      InsertKeepsValid(db, nd, rows);
    }
  }

  /** Moving the SERIAL sequences forward keeps the tables valid. */
  lemma AdvanceKeepsValid(db: Db, documentIds: nat, chunkIds: nat)
    requires Valid(db)
    ensures Valid(Db(db.documents, db.chunks, db.nextDocumentId + documentIds, db.nextChunkId + chunkIds))
  {
  }

  /** Adding the same content again returns the stored `(id, total_chunks)` and writes
      nothing, whatever name is given the second time. */
  lemma AddIsIdempotent(db: Db, hash: string -> string, enc: Encoder, documentText: string, name: Option<string>, pdf: Option<seq<PageText>>, otherName: Option<string>)
    requires Valid(db)
    requires Add(db, hash, enc, documentText, name, pdf).0.Ok?
    ensures var (r, db') := Add(db, hash, enc, documentText, name, pdf);
      Add(db', hash, enc, documentText, otherName, pdf) == (r, db')
  {
    var (r, db') := Add(db, hash, enc, documentText, name, pdf);
    var (text, cs) := InputChunks(documentText, pdf).value;
    var h := hash(text);
    if FindByHash(db.documents, h).None? {
      var nd := db'.documents[|db'.documents| - 1];
      assert db'.documents == db.documents + [nd];
      FindLastByHash(db.documents, nd);
    }
  }

  lemma {:induction false} FindLastByHash(docs: seq<DocumentRow>, nd: DocumentRow)
    requires forall d :: d in docs ==> d.hash != nd.hash
    ensures FindByHash(docs + [nd], nd.hash) == Some(nd)
  {
    if docs == [] {
    } else {
      assert docs[0] in docs;
      assert (docs + [nd])[1..] == docs[1..] + [nd];
      FindLastByHash(docs[1..], nd);
    }
  }

  /** A PDF with two pages of visible text is never stored as a new document: both pages
      contribute a chunk numbered 0, which breaks UNIQUE(document_id, chunk_index). */
  lemma TwoPagePdfIsRejected(db: Db, hash: string -> string, enc: Encoder, documentName: Option<string>, p1: PageText, p2: PageText)
    requires !AllSpace(p1.text) && !AllSpace(p2.text)
    requires documentName.Some? && |documentName.value| <= MaxNameLength
    requires var cs := PdfChunks([p1, p2], DefaultChunkSize, DefaultChunkOverlap);
      forall d :: d in db.documents ==> d.hash != hash(Join(" ", ChunkTexts(cs)))
    ensures var (r, db') := Add(db, hash, enc, [], documentName, Some([p1, p2]));
      r == Err(DuplicateChunkIndex)
      && db'.documents == db.documents && db'.chunks == db.chunks && db'.nextDocumentId == db.nextDocumentId + 1
  {
    var cs := PdfChunks([p1, p2], DefaultChunkSize, DefaultChunkOverlap);
    assert HasDuplicateIndex(cs) by {
      PdfIndicesRestartPerPage(p1, p2, DefaultChunkSize, DefaultChunkOverlap);
      var n := |Chunks(p1.text, p1.pageNumber, DefaultChunkSize, DefaultChunkOverlap)|;
      assert cs[0].chunkIndex == cs[n].chunkIndex;
    }
    var text := Join(" ", ChunkTexts(cs));
    assert InputChunks([], Some([p1, p2])) == Ok((text, cs));
    DuplicateIndexIsRejected(db, hash, enc, [], documentName, Some([p1, p2]), text, cs);
  }

  /** New content whose chunks repeat a `chunk_index` is rejected: no row is stored, but the
      document id and the ids of the chunk rows tried are used up. */
  lemma DuplicateIndexIsRejected(db: Db, hash: string -> string, enc: Encoder, documentText: string,
                                 documentName: Option<string>, pdf: Option<seq<PageText>>, text: string, cs: seq<Chunk>)
    requires InputChunks(documentText, pdf) == Ok((text, cs))
    requires forall d :: d in db.documents ==> d.hash != hash(text)
    requires documentName.Some? && |documentName.value| <= MaxNameLength
    requires HasDuplicateIndex(cs)
    ensures Add(db, hash, enc, documentText, documentName, pdf)
      == (Err(DuplicateChunkIndex), Db(db.documents, db.chunks, db.nextDocumentId + 1, db.nextChunkId + RowsTried(cs, 0)))
  {
    assert FindByHash(db.documents, hash(text)).None?;
    InsertRejectsDuplicateIndex(db, enc, hash(text), cs, documentName);
  }

  /** The insert itself on chunks that repeat a `chunk_index`. */
  lemma InsertRejectsDuplicateIndex(db: Db, enc: Encoder, h: string, cs: seq<Chunk>, documentName: Option<string>)
    requires documentName.Some? && |documentName.value| <= MaxNameLength
    requires HasDuplicateIndex(cs)
    ensures InsertDocument(db, enc, h, cs, documentName)
      == (Err(DuplicateChunkIndex), Db(db.documents, db.chunks, db.nextDocumentId + 1, db.nextChunkId + RowsTried(cs, 0)))
  {
  }

  /** New content without a name is rejected by the NOT NULL column, after its document id
      was drawn: no row is stored and the next document gets the id after it. */
  lemma MissingNameUsesDocumentId(db: Db, hash: string -> string, enc: Encoder, documentText: string,
                                  pdf: Option<seq<PageText>>, text: string, cs: seq<Chunk>)
    requires InputChunks(documentText, pdf) == Ok((text, cs))
    requires forall d :: d in db.documents ==> d.hash != hash(text)
    ensures Add(db, hash, enc, documentText, None, pdf)
      == (Err(NameMissing), Db(db.documents, db.chunks, db.nextDocumentId + 1, db.nextChunkId))
  {
    assert FindByHash(db.documents, hash(text)).None?;
    assert InsertDocument(db, enc, hash(text), cs, None).0 == Err(NameMissing);
  }

  // ----- delete_document and clear_all_documents -----

  function RemoveDocument(docs: seq<DocumentRow>, documentId: int): (r: seq<DocumentRow>)
    ensures forall d :: d in r <==> d in docs && d.id != documentId
  {
    if docs == [] then []
    else
      var rest := RemoveDocument(docs[1..], documentId);
      assert forall d :: d in docs <==> d == docs[0] || d in docs[1..];
      if docs[0].id == documentId then rest else [docs[0]] + rest
  }

  /** The cascade: the chunks of the other documents, in order. */
  function RemoveChunksOf(chunks: seq<ChunkRow>, documentId: int): (r: seq<ChunkRow>)
    ensures forall c :: c in r <==> c in chunks && c.documentId != documentId
  {
    if chunks == [] then []
    else
      var rest := RemoveChunksOf(chunks[1..], documentId);
      assert forall c :: c in chunks <==> c == chunks[0] || c in chunks[1..];
      if chunks[0].documentId == documentId then rest else [chunks[0]] + rest
  }

  /** `delete_document(document_id)`: whether a row was deleted, and the tables after. */
  function Delete(db: Db, documentId: int): (bool, Db) {
    ((exists d :: d in db.documents && d.id == documentId),
     Db(RemoveDocument(db.documents, documentId), RemoveChunksOf(db.chunks, documentId), db.nextDocumentId, db.nextChunkId))
  }

  lemma {:induction false} RemoveDocumentKeepsOrder(docs: seq<DocumentRow>, documentId: int)
    requires DocumentIdsIncrease(docs) && HashesUnique(docs)
    ensures DocumentIdsIncrease(RemoveDocument(docs, documentId)) && HashesUnique(RemoveDocument(docs, documentId))
  {
    if docs != [] {
      var rest := RemoveDocument(docs[1..], documentId);
      RemoveDocumentKeepsOrder(docs[1..], documentId);
      if docs[0].id != documentId {
        forall e | e in rest ensures docs[0].id < e.id && docs[0].hash != e.hash {
          var k :| 0 <= k < |docs[1..]| && docs[1..][k] == e;
          assert docs[k + 1] == e;
        }
        ConsDocumentKeepsOrder(docs[0], rest);
      }
    }
  }

  /** A document row with a smaller id and another hash than every row of `rest` can head it. */
  lemma ConsDocumentKeepsOrder(d: DocumentRow, rest: seq<DocumentRow>)
    requires DocumentIdsIncrease(rest) && HashesUnique(rest)
    requires forall e :: e in rest ==> d.id < e.id && d.hash != e.hash
    ensures DocumentIdsIncrease([d] + rest) && HashesUnique([d] + rest)
  {
    var r := [d] + rest;
    forall i, j | 0 <= i < j < |r| ensures r[i].id < r[j].id && r[i].hash != r[j].hash {
      assert r[j] == rest[j - 1];
      if i > 0 { assert r[i] == rest[i - 1]; }
    }
  }

  lemma {:induction false} RemoveChunksKeepsIds(chunks: seq<ChunkRow>, documentId: int)
    requires ChunkIdsIncrease(chunks)
    ensures ChunkIdsIncrease(RemoveChunksOf(chunks, documentId))
  {
    if chunks != [] {
      var tail := chunks[1..];
      var rest := RemoveChunksOf(tail, documentId);
      assert ChunkIdsIncrease(tail) by {
        forall i, j | 0 <= i < j < |tail| ensures tail[i].id < tail[j].id {
          assert tail[i] == chunks[i + 1] && tail[j] == chunks[j + 1];
        }
      }
      RemoveChunksKeepsIds(tail, documentId);
      if chunks[0].documentId != documentId {
        forall x | x in rest ensures chunks[0].id < x.id {
          var k :| 0 <= k < |tail| && tail[k] == x;
          assert chunks[k + 1] == x;
        }
        ConsChunkKeepsOrder(chunks[0], rest);
        assert RemoveChunksOf(chunks, documentId) == [chunks[0]] + rest;
      }
    }
  }

  lemma {:induction false} RemoveChunksKeepsIndicesUnique(chunks: seq<ChunkRow>, documentId: int)
    requires IndicesUnique(chunks)
    ensures IndicesUnique(RemoveChunksOf(chunks, documentId))
  {
    if chunks != [] {
      var rest := RemoveChunksOf(chunks[1..], documentId);
      RemoveChunksKeepsIndicesUnique(chunks[1..], documentId);
      if chunks[0].documentId != documentId {
        var r := [chunks[0]] + rest;
        forall i, j | 0 <= i < j < |r| && r[i].documentId == r[j].documentId
          ensures r[i].chunkIndex != r[j].chunkIndex
        {
          assert r[j] == rest[j - 1] && r[j] in chunks[1..];
          if i > 0 {
            assert r[i] == rest[i - 1];
          } else {
            var k :| 0 <= k < |chunks[1..]| && chunks[1..][k] == r[j];
            assert chunks[k + 1] == r[j];
          }
        }
      }
    }
  }

  lemma {:induction false} RemoveChunksKeepsCounts(chunks: seq<ChunkRow>, documentId: int, other: nat)
    requires other != documentId
    ensures CountChunks(RemoveChunksOf(chunks, documentId), other) == CountChunks(chunks, other)
  {
    if chunks != [] {
      RemoveChunksKeepsCounts(chunks[1..], documentId, other);
      if chunks[0].documentId != documentId {
        assert ([chunks[0]] + RemoveChunksOf(chunks[1..], documentId))[1..] == RemoveChunksOf(chunks[1..], documentId);
      }
    }
  }

  /** Deleting keeps the tables valid; the result is true exactly when a document with
      that id existed, and afterwards neither it nor any of its chunks remains while every
      other row is kept. */
  lemma DeleteMeaning(db: Db, documentId: int)
    requires Valid(db)
    ensures var (r, db') := Delete(db, documentId);
      Valid(db')
      && (r <==> exists d :: d in db.documents && d.id == documentId)
      && (forall d :: d in db'.documents <==> d in db.documents && d.id != documentId)
      && (forall c :: c in db'.chunks <==> c in db.chunks && c.documentId != documentId)
  {
    var db' := Delete(db, documentId).1;
    RemoveDocumentKeepsOrder(db.documents, documentId);
    RemoveChunksKeepsIds(db.chunks, documentId);
    RemoveChunksKeepsIndicesUnique(db.chunks, documentId);
    forall d | d in db'.documents ensures d.totalChunks == CountChunks(db'.chunks, d.id) {
      RemoveChunksKeepsCounts(db.chunks, documentId, d.id);
    }
    forall c | c in db'.chunks ensures c.documentId in DocumentIds(db'.documents) {
      assert c.documentId in DocumentIds(db.documents);
      var d :| d in db.documents && d.id == c.documentId;
      assert d in db'.documents;
    }
  }

  /** `clear_all_documents()`: every document goes, and every chunk with it by cascade;
      the sequences keep counting. */
  function Clear(db: Db): (bool, Db) {
    (true, Db([], [], db.nextDocumentId, db.nextChunkId))
  }

  // ----- get_document_stats -----

  /** `get_document_stats()`: the number of documents, `SUM(total_chunks)` and
      `AVG(total_chunks)`, both 0 on an empty table. */
  function Stats(db: Db): DocumentStats {
    var n := |db.documents|;
    var total := SumTotals(db.documents);
    DocumentStats(n, total, if n == 0 then 0.0 else total as real / n as real)
  }

  /** On valid tables the reported chunk total is the number of chunk rows, and the
      average times the number of documents is that total. */
  lemma StatsCountChunkRows(db: Db)
    requires Valid(db)
    ensures var s := Stats(db);
      s.totalDocuments == |db.documents| && s.totalChunks == |db.chunks|
      && s.avgChunksPerDocument * s.totalDocuments as real == s.totalChunks as real
      && (db.documents == [] ==> s.totalChunks == 0)
  {
    TotalsCountChunkRows(db);
  }

  // ----- search_similar_chunks -----

  /** Python truthiness of the optional `document_id` argument. */
  predicate Truthy(documentId: Option<int>) {
    documentId.Some? && documentId.value != 0
  }

  /** The WHERE clause of rag.py:415-427. */
  predicate Selected(c: ChunkRow, documentId: Option<int>, minPage: int) {
    (minPage > 0 ==> c.pageNumber > minPage) && (Truthy(documentId) ==> c.documentId == documentId.value)
  }

  function DocumentName(docs: seq<DocumentRow>, documentId: nat): (r: Option<string>)
    ensures r.Some? <==> documentId in DocumentIds(docs)
  {
    if docs == [] then None
    else if docs[0].id == documentId then Some(docs[0].name)
    else
      assert DocumentIds(docs) == {docs[0].id} + DocumentIds(docs[1..]);
      DocumentName(docs[1..], documentId)
  }

  /** The rows the query returns, in table order: the selected chunks that join a document. */
  function Selection(chunks: seq<ChunkRow>, docs: seq<DocumentRow>, documentId: Option<int>, minPage: int): (r: seq<ChunkRow>)
    ensures forall c :: c in r <==> c in chunks && Selected(c, documentId, minPage) && DocumentName(docs, c.documentId).Some?
  {
    if chunks == [] then []
    else
      var c := chunks[0];
      var rest := Selection(chunks[1..], docs, documentId, minPage);
      assert forall x :: x in chunks <==> x == c || x in chunks[1..];
      if Selected(c, documentId, minPage) && DocumentName(docs, c.documentId).Some? then [c] + rest else rest
  }

  /** A zero vector; its norm is 0. */
  predicate IsZero(v: Vector) {
    forall k :: 0 <= k < |v| ==> v[k] == 0.0
  }

  /** The cosine score of rag.py:444-447: 0 when either norm is 0. */
  function Score(sim: (Vector, Vector) -> real, q: Vector, e: Vector): (s: real)
    ensures IsZero(q) || IsZero(e) ==> s == 0.0
  {
    if !IsZero(e) && !IsZero(q) then sim(q, e) else 0.0
  }

  /** `np.dot` of two non-zero vectors of different lengths raises. */
  predicate Mismatch(q: Vector, e: Vector) {
    !IsZero(e) && !IsZero(q) && |q| != |e|
  }

  function ToHit(docs: seq<DocumentRow>, sim: (Vector, Vector) -> real, q: Vector, c: ChunkRow): SearchHit
    requires DocumentName(docs, c.documentId).Some?
  {
    SearchHit(c.id, c.documentId, DocumentName(docs, c.documentId).value, c.chunkIndex, c.text,
              c.pageNumber, c.startChar, c.endChar, Score(sim, q, c.embedding))
  }

  /** The `similarities` list of rag.py:437-458, in row order. */
  function Hits(docs: seq<DocumentRow>, sim: (Vector, Vector) -> real, q: Vector, rows: seq<ChunkRow>): (r: seq<SearchHit>)
    requires forall c :: c in rows ==> DocumentName(docs, c.documentId).Some?
    ensures |r| == |rows| && forall k :: 0 <= k < |rows| ==> r[k] == ToHit(docs, sim, q, rows[k])
  {
    seq(|rows|, k requires 0 <= k < |rows| => ToHit(docs, sim, q, rows[k]))
  }

  /** `search_similar_chunks(query, top_k, document_id, min_page)`. With a non-negative
      `top_k` it returns `min(top_k, n)` hits for the `n` selected rows, unless no row is
      selected or an embedding's width differs from the query's, which both give `[]`. */
  function Search(db: Db, enc: Encoder, sim: (Vector, Vector) -> real, query: string, topK: int, documentId: Option<int>, minPage: int)
    : (r: seq<SearchHit>)
    ensures var q := GenerateEmbedding(enc, query);
      var rows := Selection(db.chunks, db.documents, documentId, minPage);
      (rows == [] || (exists c :: c in rows && Mismatch(q, c.embedding)) ==> r == [])
      && (rows != [] && (forall c :: c in rows ==> !Mismatch(q, c.embedding)) && topK >= 0 ==>
            |r| == if topK < |rows| then topK else |rows|)
  {
    var q := GenerateEmbedding(enc, query);
    var rows := Selection(db.chunks, db.documents, documentId, minPage);
    if rows == [] then []
    else if exists c :: c in rows && Mismatch(q, c.embedding) then []
    else PyPrefix(SortDesc(Hits(db.documents, sim, q, rows)), topK)
  }

  lemma {:induction false} SelectionKeepsOrder(chunks: seq<ChunkRow>, docs: seq<DocumentRow>, documentId: Option<int>, minPage: int)
    requires ChunkIdsIncrease(chunks)
    ensures ChunkIdsIncrease(Selection(chunks, docs, documentId, minPage))
  {
    if chunks != [] {
      var rest := Selection(chunks[1..], docs, documentId, minPage);
      SelectionKeepsOrder(chunks[1..], docs, documentId, minPage);
      var c := chunks[0];
      if Selected(c, documentId, minPage) && DocumentName(docs, c.documentId).Some? {
        forall e | e in rest ensures c.id < e.id {
          var k :| 0 <= k < |chunks[1..]| && chunks[1..][k] == e;
          assert chunks[k + 1] == e;
        }
        ConsChunkKeepsOrder(c, rest);
      }
    }
  }

  /** A chunk row with a smaller id than every row of `rest` can head it. */
  lemma ConsChunkKeepsOrder(c: ChunkRow, rest: seq<ChunkRow>)
    requires ChunkIdsIncrease(rest) && forall e :: e in rest ==> c.id < e.id
    ensures ChunkIdsIncrease([c] + rest)
  {
    var r := [c] + rest;
    forall i, j | 0 <= i < j < |r| ensures r[i].id < r[j].id {
      assert r[j] == rest[j - 1];
      if i > 0 { assert r[i] == rest[i - 1]; }
    }
  }

  /** Every hit is a chunk row of the tables that passes the filters, carries the name of
      its document and the score of its embedding against the query. */
  lemma SearchHitsAreSelectedRows(db: Db, enc: Encoder, sim: (Vector, Vector) -> real, query: string, topK: int, documentId: Option<int>, minPage: int)
    ensures forall h :: h in Search(db, enc, sim, query, topK, documentId, minPage) ==>
      exists c :: (c in db.chunks && Selected(c, documentId, minPage) && DocumentName(db.documents, c.documentId).Some?
        && h == ToHit(db.documents, sim, GenerateEmbedding(enc, query), c))
  {
    var q := GenerateEmbedding(enc, query);
    var rows := Selection(db.chunks, db.documents, documentId, minPage);
    var r := Search(db, enc, sim, query, topK, documentId, minPage);
    if r != [] {
      var hits := Hits(db.documents, sim, q, rows);
      var sorted := SortDesc(hits);
      forall h | h in r
        ensures exists c :: (c in db.chunks && Selected(c, documentId, minPage) && DocumentName(db.documents, c.documentId).Some?
          && h == ToHit(db.documents, sim, q, c))
      {
        assert r == sorted[..|r|];
        assert h in sorted;
        assert h in multiset(hits);
        var k :| 0 <= k < |hits| && hits[k] == h;
        assert rows[k] in rows;
      }
    }
  }

  /** The hits of one more row are the hits so far followed by that row's hit. */
  lemma HitsOfLonger(docs: seq<DocumentRow>, sim: (Vector, Vector) -> real, q: Vector, rows: seq<ChunkRow>, k: nat)
    requires k < |rows| && forall c :: c in rows ==> DocumentName(docs, c.documentId).Some?
    ensures forall c :: c in rows[..k + 1] ==> DocumentName(docs, c.documentId).Some?
    ensures Hits(docs, sim, q, rows[..k + 1]) == Hits(docs, sim, q, rows[..k]) + [ToHit(docs, sim, q, rows[k])]
  {
    var l, r := Hits(docs, sim, q, rows[..k + 1]), Hits(docs, sim, q, rows[..k]) + [ToHit(docs, sim, q, rows[k])];
    assert |l| == |r|;
    forall i | 0 <= i < |l| ensures l[i] == r[i] {
      assert rows[..k + 1][i] == rows[i];
      if i < k { assert rows[..k][i] == rows[i]; }
    }
  }

  lemma HitsKeepIds(docs: seq<DocumentRow>, sim: (Vector, Vector) -> real, q: Vector, rows: seq<ChunkRow>)
    requires forall c :: c in rows ==> DocumentName(docs, c.documentId).Some?
    requires ChunkIdsIncrease(rows)
    ensures IdsIncreasing(Hits(docs, sim, q, rows))
  {
    var hits := Hits(docs, sim, q, rows);
    forall i, j | 0 <= i < j < |hits| ensures hits[i].chunkId < hits[j].chunkId {
      assert hits[i].chunkId == rows[i].id && hits[j].chunkId == rows[j].id;
    }
  }

  /** On valid tables the hits come highest score first and, among equal scores, in chunk
      id order: the sort is stable and the rows are listed in insertion order. */
  lemma SearchIsRanked(db: Db, enc: Encoder, sim: (Vector, Vector) -> real, query: string, topK: int, documentId: Option<int>, minPage: int)
    requires Valid(db)
    ensures Ranked(Search(db, enc, sim, query, topK, documentId, minPage))
    ensures NonIncreasing(Search(db, enc, sim, query, topK, documentId, minPage))
  {
    var q := GenerateEmbedding(enc, query);
    var rows := Selection(db.chunks, db.documents, documentId, minPage);
    var r := Search(db, enc, sim, query, topK, documentId, minPage);
    if r != [] {
      SelectionKeepsOrder(db.chunks, db.documents, documentId, minPage);
      var hits := Hits(db.documents, sim, q, rows);
      HitsKeepIds(db.documents, sim, q, rows);
      SortDescRanked(hits);
      PrefixOfRanked(SortDesc(hits), topK);
    }
    RankedIsNonIncreasing(r);
  }

  /** The hits are the best `top_k` of the selected rows: no chunk appears twice, and every
      selected row left out of the result ranks after every hit. */
  lemma SearchIsTopK(db: Db, enc: Encoder, sim: (Vector, Vector) -> real, query: string, topK: int, documentId: Option<int>, minPage: int)
    requires Valid(db)
    ensures var r := Search(db, enc, sim, query, topK, documentId, minPage);
      forall i, j :: 0 <= i < j < |r| ==> r[i].chunkId != r[j].chunkId
    ensures var r := Search(db, enc, sim, query, topK, documentId, minPage);
      var q := GenerateEmbedding(enc, query);
      forall c, h :: (c in Selection(db.chunks, db.documents, documentId, minPage) && h in r
                      && ToHit(db.documents, sim, q, c) !in r) ==> Before(h, ToHit(db.documents, sim, q, c))
  {
    var q := GenerateEmbedding(enc, query);
    var rows := Selection(db.chunks, db.documents, documentId, minPage);
    var r := Search(db, enc, sim, query, topK, documentId, minPage);
    if r != [] {
      SelectionKeepsOrder(db.chunks, db.documents, documentId, minPage);
      var hits := Hits(db.documents, sim, q, rows);
      HitsKeepIds(db.documents, sim, q, rows);
      assert r == PyPrefix(SortDesc(hits), topK);
      TopOfSorted(hits, topK);
      forall c | c in rows ensures ToHit(db.documents, sim, q, c) in hits {
        var k :| 0 <= k < |rows| && rows[k] == c;
      }
    }
  }

  lemma {:induction false} InsertTie(sorted: seq<SearchHit>, h: SearchHit)
    requires forall x :: x in sorted ==> x.score == h.score
    ensures Insert(sorted, h) == sorted + [h]
  {
    if sorted != [] {
      assert sorted[0] in sorted;
      forall x | x in sorted[1..] ensures x.score == h.score {
        assert x in sorted;
      }
      InsertTie(sorted[1..], h);
      assert sorted == [sorted[0]] + sorted[1..];
    }
  }

  lemma {:induction false} SortDescOfTies(s: seq<SearchHit>, score: real)
    requires forall x :: x in s ==> x.score == score
    ensures SortDesc(s) == s
  {
    if s != [] {
      var init := s[..|s| - 1];
      forall x | x in init ensures x.score == score {
        assert x in s;
      }
      var last := s[|s| - 1];
      assert last in s;
      calc {
        SortDesc(s);
        Insert(SortDesc(init), last);
        { SortDescOfTies(init, score); }
        Insert(init, last);
        { InsertTie(init, last); }
        init + [last];
        s;
      }
    }
  }

  /** When the query cannot be embedded the zero vector is used, every score is 0, and the
      hits are the first `top_k` selected rows in table order. */
  lemma FailedQueryKeepsRowOrder(db: Db, enc: Encoder, sim: (Vector, Vector) -> real, query: string, topK: int, documentId: Option<int>, minPage: int)
    requires enc.fails(query)
    ensures var rows := Selection(db.chunks, db.documents, documentId, minPage);
      var q := GenerateEmbedding(enc, query);
      Search(db, enc, sim, query, topK, documentId, minPage) == PyPrefix(Hits(db.documents, sim, q, rows), topK)
      && forall h :: h in Search(db, enc, sim, query, topK, documentId, minPage) ==> h.score == 0.0
  {
    var q := GenerateEmbedding(enc, query);
    var rows := Selection(db.chunks, db.documents, documentId, minPage);
    assert IsZero(q);
    var hits := Hits(db.documents, sim, q, rows);
    forall h | h in hits ensures h.score == 0.0 {
      var k :| 0 <= k < |hits| && hits[k] == h;
    }
    SortDescOfTies(hits, 0.0);
    var r := Search(db, enc, sim, query, topK, documentId, minPage);
    if rows == [] {
      assert r == [] == PyPrefix(hits, topK);
    } else {
      assert !exists c :: c in rows && Mismatch(q, c.embedding);
      assert r == PyPrefix(SortDesc(hits), topK);
    }
    forall h | h in r ensures h.score == 0.0 {
      assert h in hits;
    }
  }

  /** After `delete_document(id)` no search returns a chunk of that document. */
  lemma DeletedDocumentIsNotFound(db: Db, deletedId: int, enc: Encoder, sim: (Vector, Vector) -> real, query: string, topK: int, documentId: Option<int>, minPage: int)
    ensures var db' := Delete(db, deletedId).1;
      forall h :: h in Search(db', enc, sim, query, topK, documentId, minPage) ==> h.documentId != deletedId
  {
    var db' := Delete(db, deletedId).1;
    SearchHitsAreSelectedRows(db', enc, sim, query, topK, documentId, minPage);
  }

  // ----- the store object -----

  /** The branch of rag.py:300-310 that yields the text to hash and the chunks. */
  method PrepareInput(documentText: string, pdf: Option<seq<PageText>>) returns (r: Result<(string, seq<Chunk>), AddError>)
    ensures r == InputChunks(documentText, pdf)
  {
    if pdf.Some? && documentText == [] {
      var cs := ProcessPdfPages(pdf.value, DefaultChunkSize, DefaultChunkOverlap);
      if cs == [] {
        return Err(PdfExtractionFailed);
      }
      return Ok((Join(" ", ChunkTexts(cs)), cs));
    } else if documentText != [] {
      var cs := ChunkText(documentText, 1, DefaultChunkSize, DefaultChunkOverlap);
      return Ok((documentText, cs));
    } else {
      return Err(NoInput);
    }
  }

  /** The `chunk_records` loop of rag.py:346-360 over `zip(chunks_data, embeddings)`, with
      the ids the SERIAL column hands out. */
  method BuildChunkRecords(documentId: nat, firstId: nat, cs: seq<Chunk>, embeddings: seq<Vector>) returns (records: seq<ChunkRow>)
    requires |embeddings| == |cs|
    ensures records == ChunkRows(documentId, firstId, cs, embeddings)
  {
    records := [];
    for k := 0 to |cs|
      invariant records == ChunkRows(documentId, firstId, cs[..k], embeddings[..k])
    {
      records := records + [ChunkRow(firstId + k, documentId, cs[k].chunkIndex, cs[k].text,
                                     cs[k].pageNumber, cs[k].startChar, cs[k].endChar, embeddings[k])];
    }
    assert cs[..|cs|] == cs && embeddings[..|cs|] == embeddings;
  }

  /** A `PolicyWordingRAG` connected to its database. */
  class PolicyWordingRag {
    var documents: seq<DocumentRow>
    var chunks: seq<ChunkRow>
    var nextDocumentId: nat
    var nextChunkId: nat
    /** The sentence-transformer model. */
    const encoder: Encoder
    /** The SHA-256 hex digest of a text (rag.py:277-279). */
    const hash: string -> string
    /** The cosine of two non-zero vectors of equal width. */
    const similarity: (Vector, Vector) -> real

    function State(): Db
      reads this
    {
      Db(documents, chunks, nextDocumentId, nextChunkId)
    }

    ghost predicate Valid()
      reads this
    {
      Tables.Valid(State())
    }

    /** A store over a freshly created, empty database. */
    constructor(encoder: Encoder, hash: string -> string, similarity: (Vector, Vector) -> real)
      ensures Valid() && State() == Empty()
      ensures this.encoder == encoder && this.hash == hash && this.similarity == similarity
    {
      this.encoder := encoder;
      this.hash := hash;
      this.similarity := similarity;
      documents := [];
      chunks := [];
      nextDocumentId := 1;
      nextChunkId := 1;
    }

    /** `add_policy_document` (rag.py:281-388). */
    method AddPolicyDocument(documentText: string, documentName: Option<string>, pdf: Option<seq<PageText>>)
      returns (r: Result<(nat, nat), AddError>)
      requires Valid()
      modifies this
      ensures Valid()
      ensures (r, State()) == Add(old(State()), hash, encoder, documentText, documentName, pdf)
    {
      AddKeepsValid(State(), hash, encoder, documentText, documentName, pdf);
      var input := PrepareInput(documentText, pdf);
      if input.Err? {
        return Err(input.error);
      }
      var (text, cs) := input.value;
      var h := hash(text);
      var existing := FindByHash(documents, h);
      if existing.Some? {
        return Ok((existing.value.id, existing.value.totalChunks));
      }
      r := InsertNewDocument(h, cs, documentName);
    }

    /** The insert of rag.py:324-372: embeddings, the name checks of the columns, the
        document row and its chunk rows, or a rollback that keeps the ids drawn. */
    method InsertNewDocument(h: string, cs: seq<Chunk>, documentName: Option<string>)
      returns (r: Result<(nat, nat), AddError>)
      modifies this
      ensures (r, State()) == InsertDocument(old(State()), encoder, h, cs, documentName)
    {
      var embeddings := GenerateEmbeddingsBatch(encoder, ChunkTexts(cs), DefaultBatchSize);
      if documentName.None? {
        nextDocumentId := nextDocumentId + 1;
        return Err(NameMissing);
      }
      if |documentName.value| > MaxNameLength {
        return Err(NameTooLong);
      }
      var documentId := nextDocumentId;
      nextDocumentId := documentId + 1;
      var records := BuildChunkRecords(documentId, nextChunkId, cs, embeddings);
      if HasDuplicateIndex(cs) {
        InsertRejectsDuplicateIndex(old(State()), encoder, h, cs, documentName);
        nextChunkId := nextChunkId + RowsTried(cs, 0);
        return Err(DuplicateChunkIndex);
      }
      documents, chunks, nextChunkId :=
        documents + [DocumentRow(documentId, documentName.value, h, |cs|)], chunks + records,
        nextChunkId + |cs|;
      r := Ok((documentId, |cs|));
    }

    /** `search_similar_chunks` (rag.py:390-473). */
    method SearchSimilarChunks(query: string, topK: int, documentId: Option<int>, minPage: int)
      returns (hits: seq<SearchHit>)
      ensures hits == Search(State(), encoder, similarity, query, topK, documentId, minPage)
    {
      var q := GenerateEmbedding(encoder, query);
      var rows := Selection(chunks, documents, documentId, minPage);
      if rows == [] {
        return [];
      }
      var scored := ScoreRows(q, rows);
      if scored.None? {
        return [];
      }
      hits := PyPrefix(SortDesc(scored.value), topK);
    }

    /** The scoring loop of rag.py:437-457: `None` on the first row whose embedding width
        differs from the query's, where the source's `np.dot` raises. */
    method ScoreRows(q: Vector, rows: seq<ChunkRow>) returns (scored: Option<seq<SearchHit>>)
      requires forall c :: c in rows ==> DocumentName(documents, c.documentId).Some?
      ensures scored.None? <==> exists c :: c in rows && Mismatch(q, c.embedding)
      ensures scored.Some? ==> scored.value == Hits(documents, similarity, q, rows)
    {
      var similarities: seq<SearchHit> := [];
      for k := 0 to |rows|
        invariant similarities == Hits(documents, similarity, q, rows[..k])
        invariant forall c :: c in rows[..k] ==> !Mismatch(q, c.embedding)
      {
        var row := rows[k];
        if Mismatch(q, row.embedding) {
          assert row in rows;
          return None;
        }
        HitsOfLonger(documents, similarity, q, rows, k);
        similarities := similarities + [ToHit(documents, similarity, q, row)];
      }
      assert rows[..|rows|] == rows;
      return Some(similarities);
    }

    /** `delete_document` (rag.py:502-523). */
    method DeleteDocument(documentId: int) returns (deleted: bool)
      requires Valid()
      modifies this
      ensures Valid()
      ensures (deleted, State()) == Delete(old(State()), documentId)
    {
      DeleteMeaning(State(), documentId);
      deleted := exists d :: d in documents && d.id == documentId;
      documents := RemoveDocument(documents, documentId);
      chunks := RemoveChunksOf(chunks, documentId);
    }

    /** `clear_all_documents` (rag.py:589-605). */
    method ClearAllDocuments() returns (cleared: bool)
      requires Valid()
      modifies this
      ensures Valid()
      ensures (cleared, State()) == Clear(old(State()))
    {
      documents := [];
      chunks := [];
      cleared := true;
    }

    /** `get_document_stats` (rag.py:525-549). */
    function GetDocumentStats(): (s: DocumentStats)
      reads this
      requires Valid()
      ensures s.totalDocuments == |documents| && s.totalChunks == |chunks|
    {
      StatsCountChunkRows(State());
      Stats(State())
    }
  }
}
