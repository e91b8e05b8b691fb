# Policy wording store and claim validation, modelled in Dafny

This project models the core of an insurance-claim assistant written in Python. The core has two parts.

**The policy wording store** (`rag.py`):

- `PDFProcessor.chunk_text` collapses whitespace. It then cuts a text into windows of at most 1500 characters. A window ends after its last sentence terminator where possible, and consecutive windows overlap by 300 characters.
- `process_pdf_bytes` chunks every extracted page.
- `EmbeddingGenerator` turns texts into vectors. It falls back to zero vectors when the model raises.
- `PolicyWordingRAG` keeps documents and chunks in two tables:
  - `add_policy_document` is deduplicated by content hash and all-or-nothing.
  - `search_similar_chunks` ranks by cosine similarity with optional page and document filters.
  - `delete_document` cascades to the document's chunks.
  - `clear_all_documents` and `get_document_stats` complete the interface.

**The extraction and validation front end** (`stream_invoice_clean.py`):

- `extract_json_from_text` recovers a JSON object from a language model's reply.
- `process_policy_schedule` and `process_claim_document` wrap the model call.
- `validate_documents` is the rule engine. It compares a decoded policy schedule with a decoded claim, accumulates checks through its `add_check` closure, and reports counts and an overall status.

Where the source changes state, the model is imperative:

- `PolicyWordingRag` is a class whose fields are the two tables and their SERIAL counters. Its methods are proved against the functions `Add`, `Search`, `Delete`, `Clear` and `Stats`, and they keep the table invariants: unique hashes, increasing ids, `total_chunks` equal to the document's chunk rows, every chunk's document present, and UNIQUE(`document_id`, `chunk_index`).
- `Results` is the `validation_results` dictionary. `AddCheck` updates its counters and keeps them equal to a summary function of the list of checks.
- The loops of `chunk_text`, `process_pdf_bytes`, `generate_embeddings_batch`, the chunk-record builder, the similarity loop and `parse_date` are methods with loop invariants. Each is proved equal to a specification function.

The rest is pure functions and lemmas.

Several outside pieces are parameters:

- the embedding model (an `Encoder` that may raise);
- SHA-256 (`hash`);
- the cosine of two non-zero vectors (`similarity`);
- `json.loads` (`Parser`);
- the language model behind the prompt (`Llm`);
- `datetime.strptime` (`DateParser`).

Modules, one file each: `Common` (Option, Result), `Text` (Python's `strip`, `upper`, `split`, `rfind`, `replace`, `in` and whitespace collapsing), `Chunker`, `Embedding`, `Ranking`, `Tables`, `Store`, `Json` (decoded values, truthiness, `str()`), `Extract` and `Validation`.

A property proved about the store as written: a PDF with two pages of visible text is never stored (`Store.TwoPagePdfIsRejected`). Chunk numbering restarts on every page (rag.py:178-181). So two chunks numbered 0 reach the UNIQUE(`document_id`, `chunk_index`) constraint, and the insert rolls back.

## Model

| member | source | states |
|---|---|---|
| Text.StripIsSlice | stream_invoice_clean.py:365 | `s.strip()` is the slice of `s` between a whitespace prefix and a whitespace suffix; it is empty or starts and ends with non-whitespace |
| Text.StripEmptyIff | stream_invoice_clean.py:394-399 | a stripped text is empty (falsy) exactly when the text is all whitespace |
| Text.NormalizeIsNormalized | rag.py:136 | `re.sub(r'\s+', ' ', text).strip()` has no leading or trailing whitespace and no whitespace other than single spaces between words |
| Text.NormalizeKeepsVisible | rag.py:136 | the normalisation keeps every non-whitespace character, in order |
| Text.NormalizeIdempotent | rag.py:136 | normalising twice is normalising once |
| Text.NormalizeEmptyIff | rag.py:136 | the normalised text is empty exactly when the input is all whitespace |
| Text.RFind | rag.py:148-150 | `text.rfind(c, lo, hi)` is the last index in `[lo, hi)` holding `c`, or -1 when there is none |
| Text.StripUpper | stream_invoice_clean.py:379 | `.strip()` and `.upper()` commute |
| Text.UpperIdempotent | stream_invoice_clean.py:379 | upper-casing twice is upper-casing once |
| Text.RemoveAllAppend | stream_invoice_clean.py:379 | `.replace(" ", "")` distributes over concatenation |
| Text.ContainsIff | stream_invoice_clean.py:400 | `p in q` holds exactly when `p` occurs in `q` at some index |
| Text.Split | stream_invoice_clean.py:420 | every word of `name.split()` is non-empty and holds no whitespace |
| Text.SplitJoinsToNormalize | stream_invoice_clean.py:420-421 | the words of `s.split()`, joined by single spaces, are exactly `re.sub(r'\s+', ' ', s).strip()`: the maximal non-whitespace runs of `s`, in order |
| Chunker.LastTerminator | rag.py:146-151 | the max of the three `rfind`s is the last `.`, `!` or `?` in `[start, end)`, or -1 |
| Chunker.WindowEnd | rag.py:143-153 | a window ends within `chunk_size` of its start; one that does not reach the end of the text ends just after its last terminator past `start`, or at full width when there is none |
| Chunker.FindWindowEnd | rag.py:143-153 | the loop body's `end` computation yields `WindowEnd` |
| Chunker.Advance | rag.py:167 | the next start is `end - chunk_overlap` when that moves forward, else `end`; it always moves forward (corrected step, see Findings) |
| Chunker.ChunkText | rag.py:134-169 | the `chunk_text` loop returns exactly the chunk list of the specification `Chunks` |
| Chunker.ChunksAreWindows | rag.py:155-165 | chunks are numbered 0..n-1, carry the page number, are non-blank, and each is the stripped window `text[start_char:end_char]` of the normalised text, at most `chunk_size` wide |
| Chunker.CutChunkEndsAtSentence | rag.py:145-153 | a chunk cut before the end of the text whose window holds a terminator after its start ends with a terminator |
| Chunker.BlankTextHasNoChunks | rag.py:136-157 | no chunks exactly when the text is all whitespace |
| Chunker.ChunkSequencing | rag.py:139-167 | the first chunk starts at 0; each next one starts at the previous `end_char - chunk_overlap` when that moves forward; the step after the last chunk leaves the text |
| Chunker.WindowsCoverText | rag.py:142-167 | with a non-negative overlap consecutive windows leave no gap and the last reaches the end of the text |
| Chunker.ShortTextIsOneChunk | rag.py:142-169 | a normalised text no longer than `chunk_size - chunk_overlap` is a single chunk holding all of it |
| Chunker.TailGetsSecondChunk | rag.py:142-169 | when `0 < chunk_overlap` and `2 * chunk_overlap <= chunk_size`, a text of length in `(chunk_size - chunk_overlap, chunk_size]` gives exactly two chunks, the second only the overlapping tail |
| Chunker.ChunkStartsIncrease | rag.py:167 | chunk starts strictly increase (termination of the corrected loop) |
| Chunker.AsWrittenLoopNeverEnds | rag.py:142-167 | with 1500/300, on "A. " followed by 1498 characters that are neither terminators nor whitespace (a text the normalisation leaves alone), `start` goes 0, -298, -300, -300, ... and stays below the text length |
| Chunker.AsWrittenStepToTerminator | rag.py:143-167 | a pass over a window short of the end whose last terminator after `start` is at `k` sets `start` to `k + 1 - chunk_overlap` |
| Chunker.AsWrittenFixedPoint | rag.py:142-167 | a pass over a window short of the end whose last terminator is `chunk_overlap - 1` past its start leaves `start` unchanged |
| Chunker.AsWrittenStepsBack | rag.py:142-167 | a pass over a window short of the end whose last terminator is less than `chunk_overlap - 1` past its start moves `start` backwards |
| Chunker.AsWrittenStuckAtPositiveStart | rag.py:142-167 | with 1500/300, on a normalised 3000-character text with terminators only at 1000 and 1400, `start` goes 0, 1101, 1101, ... and stays below the text length |
| Chunker.AsWrittenSkipsText | rag.py:142-167 | with 1500/300, on a normalised 3000-character text whose only terminator is at 298, the windows are `[0, 299)`, the empty `text[-1:1499]`, `[1199, 2699)` and `[2399, 3000)`, and the loop ends: characters 299..1198 are in no chunk, while the corrected loop's second window starts at 299 |
| Chunker.ProcessPdfPages | rag.py:171-183 | the chunks of every extracted page, concatenated in page order |
| Chunker.PdfIndicesRestartPerPage | rag.py:178-181 | two pages with visible text both contribute a chunk numbered 0 |
| Embedding.Zero | rag.py:79 | the fallback vector has 384 components, all zero |
| Embedding.GenerateEmbedding | rag.py:70-79 | the encoding of the text, or the zero vector when the model raises |
| Embedding.GenerateEmbeddingsBatch | rag.py:81-97 | the batch loop returns `BatchEmbeddings`: the batches' encodings concatenated, or zeros for all texts once a batch raises |
| Embedding.BatchEmbeddingsMeaning | rag.py:81-97 | one vector per text (none for a negative batch size); each text's own encoding in order when no batch raises; only 384-wide zero vectors when some batch raises or the batch size is 0 |
| Ranking.SortDesc | rag.py:461 | the sorted list is a permutation of the input |
| Ranking.SortDescRanked | rag.py:461 | the stable descending sort orders by score, highest first, and keeps row order among equal scores |
| Ranking.RankedIsNonIncreasing | rag.py:461 | a ranked list has non-increasing scores |
| Ranking.PyPrefix | rag.py:464 | `s[:k]` is a prefix of length `min(k, len)`, or `len + k` clipped at 0 for negative `k` |
| Ranking.PrefixOfRanked | rag.py:464 | taking `[:top_k]` keeps the ranking |
| Ranking.PrefixOutranksRest | rag.py:460-464 | every entry of a prefix of a ranked list comes before every entry left out of it |
| Ranking.RankedIdsDistinct | rag.py:460-464 | a ranked list drawn from rows with increasing chunk ids repeats no chunk id |
| Ranking.TopOfSorted | rag.py:460-464 | the first `top_k` of the sorted scored rows repeat no chunk id, and every row left out ranks after every row kept |
| Tables.Empty | rag.py:229-253 | the freshly created tables satisfy every table constraint |
| Tables.TotalsCountChunkRows | rag.py:229-253 | on valid tables the documents' `total_chunks` add up to the number of chunk rows |
| Store.FindByHash | rag.py:316-320 | the lookup by `document_hash` finds a stored row with that hash, or none exists |
| Store.ChunkRows | rag.py:346-361 | one chunk row per chunk, in order, with its index, text, page, offsets and embedding, and consecutive ids |
| Store.BuildChunkRecords | rag.py:346-361 | the `zip` loop builds exactly `ChunkRows` |
| Store.PrepareInput | rag.py:300-310 | the PDF branch (PDF given, text empty) hashes the space-joined chunk texts and fails on no chunks; otherwise a non-empty text is chunked; with neither input it fails |
| Store.AddKeepsValid | rag.py:281-388 | adding keeps every table constraint |
| Store.AddIsIdempotent | rag.py:313-325 | adding the same content again returns the stored `(id, total_chunks)` and changes nothing, whatever the name |
| Store.TwoPagePdfIsRejected | rag.py:300-373 | a new PDF with two pages of visible text fails with a duplicate chunk index; no row is stored and the document id it drew is used up |
| Store.DuplicateIndexIsRejected | rag.py:327-373 | new content whose chunks repeat a `chunk_index` fails; no row is stored, the document sequence moves by one and the chunk sequence by the rows tried |
| Store.RowsTried | rag.py:362-372 | the chunk rows tried run up to and including the first row that repeats an earlier `chunk_index`, or are all rows |
| Store.RowsTriedStopAtFirstRepeat | rag.py:362-372 | on a duplicate `chunk_index` the rows tried end exactly at the first repeating row |
| Store.MissingNameUsesDocumentId | rag.py:335-343 | new content without a name fails the NOT NULL check; no row is stored and the document sequence moves by one |
| Store.RemoveDocument | rag.py:508 | the documents left are exactly those with another id |
| Store.RemoveChunksOf | rag.py:244 | the cascade keeps exactly the chunks of other documents |
| Store.DeleteMeaning | rag.py:502-523 | deleting keeps the constraints; the result is true exactly when the id existed; that document and its chunks are gone and every other row stays |
| Store.DocumentName | rag.py:414 | the join finds a name exactly for the ids of stored documents |
| Store.Selection | rag.py:403-430 | the query returns exactly the chunks that pass the page and document filters and join a document |
| Store.Score | rag.py:443-447 | the score is 0 when either vector is zero |
| Store.Hits | rag.py:437-458 | one hit per selected row, in row order, carrying the row's fields, its document name and its score |
| Store.Search | rag.py:390-473 | no rows, or an embedding whose width differs from the query's (the caught exception), give `[]`; otherwise `min(top_k, n)` hits for non-negative `top_k` |
| Store.SearchHitsAreSelectedRows | rag.py:403-458 | every hit is a stored chunk passing the filters, with its document's name and its score against the query |
| Store.SearchIsRanked | rag.py:460-464 | on valid tables hits come highest score first, ties in chunk id order |
| Store.SearchIsTopK | rag.py:437-464 | on valid tables the hits are the best `top_k` selected rows: no chunk appears twice, and every selected row left out ranks after every hit (lower score, or the same score and a later chunk id) |
| Store.FailedQueryKeepsRowOrder | rag.py:443-464 | when the query cannot be embedded every score is 0 and the hits are the first `top_k` selected rows in table order |
| Store.DeletedDocumentIsNotFound | rag.py:244 | after deleting a document no search returns any of its chunks |
| Store.PolicyWordingRag.constructor | rag.py:189-210 | the store starts on valid, empty tables |
| Store.PolicyWordingRag.AddPolicyDocument | rag.py:281-388 | the result and the new tables are `Add` of the old tables, including the SERIAL counters a rolled-back insert leaves advanced, and the constraints hold |
| Store.PolicyWordingRag.InsertNewDocument | rag.py:327-375 | the insert of a new document and its chunk rows, or an error with the rows unchanged and the SERIAL counters moved by the ids the failed INSERTs drew (`InsertDocument`) |
| Store.PolicyWordingRag.SearchSimilarChunks | rag.py:390-473 | the similarity loop and ranking return `Search` of the current tables |
| Store.PolicyWordingRag.ScoreRows | rag.py:437-457 | the loop gives up exactly when some selected row's embedding width differs from the query's, and otherwise yields one hit per row, in row order |
| Store.PolicyWordingRag.DeleteDocument | rag.py:502-523 | the result and the new tables are `Delete` of the old ones, and the constraints hold |
| Store.PolicyWordingRag.ClearAllDocuments | rag.py:589-605 | returns true and leaves both tables empty, with the constraints kept |
| Store.PolicyWordingRag.GetDocumentStats | rag.py:525-549 | the document count and the chunk total, which equals the number of chunk rows |
| Store.StatsCountChunkRows | rag.py:525-549 | the total is the number of chunk rows; the average times the document count is the total; both are 0 on an empty table |
| Json.Lookup | stream_invoice_clean.py:376 | a key's value is that of its last occurrence in the object; `None` exactly when the key is absent |
| Json.Get | stream_invoice_clean.py:376-380 | `.get` gives a value exactly when the receiver is a dict (otherwise `AttributeError`) |
| Json.NullRendersAsNone | stream_invoice_clean.py:379 | `str(None)` is "None", which is not blank |
| Json.RendersBlankIff | stream_invoice_clean.py:379-382 | `str(x).strip()` is empty exactly for a string made of whitespace |
| Extract.Find | stream_invoice_clean.py:137 | the first index holding a character, or -1 |
| Extract.BraceSpan | stream_invoice_clean.py:137 | `re.search(r'\{.*\}', DOTALL)` spans from the first `{` to the last `}` after it; there is no match exactly when no `}` follows a `{` |
| Extract.ExtractJson | stream_invoice_clean.py:132-148 | `None` exactly when both the brace span (if any) and the whole stripped text fail to parse |
| Extract.BackticksFreeOfFences | stream_invoice_clean.py:134-135 | removing fences leaves a text without backticks unchanged |
| Extract.ExtractBare | stream_invoice_clean.py:132-148 | a bare object text is recovered as `json.loads` of itself |
| Extract.ExtractFenced | stream_invoice_clean.py:132-148 | an object text inside a "```json" fence is recovered as `json.loads` of the object text |
| Extract.ProcessDocument | stream_invoice_clean.py:255-269 | exactly one of data and error; data exactly for a truthy parse of the reply, and then that parse; "API Error: All API attempts failed. Last error: ..." on an API failure; the parse error carries the raw reply (also `process_claim_document`, 313-327) |
| Extract.FalsyReplyIsRejected | stream_invoice_clean.py:261-266 | a bare object reply that does not parse, or parses to a falsy value, gives the parse error carrying the reply |
| Extract.EmptyObjectIsRejected | stream_invoice_clean.py:261-266 | a reply of `{}` is reported as unparseable |
| Extract.FencedReplyIsAccepted | stream_invoice_clean.py:261-264 | a fenced non-empty object reply is returned as data |
| Validation.Results.constructor | stream_invoice_clean.py:332-339 | status PASS, counters 0, no checks |
| Validation.Results.AddCheck | stream_invoice_clean.py:341-358 | appends the check and keeps the counters and the status equal to the summary of the checks |
| Validation.SummaryOfAppend | stream_invoice_clean.py:341-358 | one more check raises the total and the counter of its status by one, and a FAIL of severity "error" makes the status FAIL |
| Validation.CountsAddUp | stream_invoice_clean.py:341-358 | `total_checks == passed_checks + failed_checks + warnings == len(checks)` |
| Validation.OverallFailIff | stream_invoice_clean.py:344-349 | when every FAIL has severity "error", the status is FAIL exactly when a check failed, and never WARNING |
| Validation.Lookups | stream_invoice_clean.py:376-440 | the lookups succeed exactly when the policy, the claim, `insured_vehicle`, `vehicle_details` and `policy_period` are dicts (a missing sub-dict defaults to `{}`) |
| Validation.PolicyNumberCheck | stream_invoice_clean.py:364-373 | PASS when both numbers are truthy and equal after `str().strip()`; WARNING with severity "warning" when one is falsy; FAIL otherwise |
| Validation.PolicyNumberPasses | stream_invoice_clean.py:361-366 | the hard-coded policy numbers always pass |
| Validation.RegistrationKey | stream_invoice_clean.py:379-380 | the normalised registration holds no space |
| Validation.RegistrationCheck | stream_invoice_clean.py:382-391 | PASS when both keys are non-empty and equal; FAIL when both are non-empty and differ; WARNING (severity "warning") when one is empty |
| Validation.RegistrationIgnoresCase | stream_invoice_clean.py:379-383 | upper-casing a registration does not change its key |
| Validation.RegistrationIgnoresSpaces | stream_invoice_clean.py:379-383 | a space between two parts does not change the key |
| Validation.NullRegistrationKey | stream_invoice_clean.py:376-380 | a JSON null registration becomes "NONE" |
| Validation.UnspacedRegistrationKey | stream_invoice_clean.py:379-380 | a registration without surrounding or inner spaces only gets upper-cased |
| Validation.NullRegistrationsMatch | stream_invoice_clean.py:376-385 | two JSON null registrations pass |
| Validation.MakeCheck | stream_invoice_clean.py:394-405 | a check only when both makes are non-blank; PASS exactly when one contains the other, else FAIL, severity "error" |
| Validation.ModelCheck | stream_invoice_clean.py:396-413 | a check only when both models are non-blank; PASS exactly when one contains the other, else WARNING, never FAIL |
| Validation.NameCheck | stream_invoice_clean.py:416-432 | PASS exactly when both names are non-blank and the shared words are at least half the holder's distinct words; never FAIL |
| Validation.SameNamePasses | stream_invoice_clean.py:419-426 | the same non-blank name on both sides passes |
| Validation.NullNamesPass | stream_invoice_clean.py:416-426 | two JSON null names render as "NONE" and pass |
| Validation.FirstParse | stream_invoice_clean.py:446-452 | `None` exactly when no format parses the text |
| Validation.FirstParseIsFirst | stream_invoice_clean.py:446-452 | a parsed date comes from the first format that accepts the text |
| Validation.ParseDate | stream_invoice_clean.py:446-452 | the format loop on `str(date_str).strip()` returns `FirstParse` |
| Validation.DateVerdict | stream_invoice_clean.py:458-467 | PASS exactly when all three dates parse and start <= incident <= end; FAIL exactly when all parse and the incident is outside; otherwise WARNING |
| Validation.BoundaryDatesPass | stream_invoice_clean.py:459 | the period is closed: an incident on the first or the last day passes |
| Validation.DateCheck | stream_invoice_clean.py:437-473 | WARNING when a date is falsy; a FAIL always has severity "error" |
| Validation.DateRule | stream_invoice_clean.py:437-473 | the rule 5 block, parsing with `parse_date`, gives `DateCheck` |
| Validation.ClaimAmountCheck | stream_invoice_clean.py:476-497 | the check reports under "Claim Amount within Range" |
| Validation.ClaimAmountPasses | stream_invoice_clean.py:477-488 | the hard-coded amount 45640 lies in [0, 1000000], so the check passes |
| Validation.VehicleRules | stream_invoice_clean.py:375-413 | appends the registration check and the optional make and model checks |
| Validation.AddOptional | stream_invoice_clean.py:399-413 | a conditional `add_check` appends the check if there is one |
| Validation.PolicyNumberRule | stream_invoice_clean.py:332-373 | a fresh results object holding only the policy-number check |
| Validation.FieldRules | stream_invoice_clean.py:375-497 | after the policy-number check, rules 2 to 6 leave exactly `RuleChecks` in the results |
| Validation.PartyRules | stream_invoice_clean.py:415-497 | appends the name, date and claim-amount checks |
| Validation.ValidateDocuments | stream_invoice_clean.py:329-499 | the engine returns `Validate`: the summary of the rules' checks in order, or the `AttributeError` |
| Validation.FailsAreErrors | stream_invoice_clean.py:360-497 | every FAIL the rules produce has severity "error" |
| Validation.AssembleShape | stream_invoice_clean.py:360-497 | with at most one make and one model check there are 5 to 7 checks, the policy-number check first and the claim-amount check last |
| Validation.ValidateReport | stream_invoice_clean.py:329-499 | a report exactly when the lookups succeed; counts add up; FAIL exactly when a check failed; 5 to 7 checks, the first and last passing |
| Validation.ModelNeverFails | stream_invoice_clean.py:407-413 | no "Vehicle Model Match" check is a FAIL |

## Left out

- PDF text extraction (PyPDF2), `_clean_text` (NFKD normalisation and the `\w` filter) and OCR: a PDF is given as the pages its extraction yields.
- `Store.PrepareInput`: `Some(pages)` stands for non-empty PDF bytes. Empty bytes are falsy in Python and take the "neither input" branch; that is not distinguished here.
- The embedding model, SHA-256, `np.linalg.norm`/`np.dot` and float32 arithmetic are parameters or reals. Cosine similarity is abstract, with only its zero-norm case written out.
- PostgreSQL plumbing (connections, cursors, commit/rollback) is left out. The tables are values. An error leaves their rows unchanged, as the rollback does, but not the SERIAL counters: `nextval` is not undone by a rollback. A NULL name draws a document id before the NOT NULL check fails. A repeated `chunk_index` draws the document id and one chunk id per row, up to the first clashing row. A name over 255 characters fails while the statement is planned, before any id is drawn. `metadata`, `upload_date` and `created_at` are not modelled.
- `Store.Selection`: a SELECT without ORDER BY is taken to return rows in insertion order.
- `Store.PolicyWordingRag.constructor`: starts from empty tables. `CREATE TABLE IF NOT EXISTS` may instead open a database that already has rows; the methods need only valid tables, so any such state is covered by `Valid()`.
- `Store.Search`: only a vector-width mismatch is modelled among the exceptions the search swallows; other database errors are not.
- `get_context_for_query`, `list_documents`, `analyze_claim_with_rag`, the chatbot, the display functions and the Streamlit UI are outside the core.
- `call_gemini_api` (HTTP, model listing, retries across endpoints) and the prompt wording are one abstract `Llm` function of the document kind and the extracted text.
- `Extract.ProcessDocument`: the "Processing error" branch is not modelled, because nothing in its body raises once the API call and `json.loads` are abstract.
- `Json.PyRepr`: a string nested in a list or dict is shown between single quotes without Python's escaping or its choice of double quotes. A float is carried as the text `str()` gives for it.
- `Text.Upper`: `str.upper()` is modelled on ASCII letters only.
- `Validation.DateCheck`: the `except` at stream_invoice_clean.py:468-470 is unreachable once `strptime` is abstract: `parse_date` catches its errors and comparing datetimes cannot raise. It is not modelled.
- `Validation.ClaimAmountCheck`: the `except` at stream_invoice_clean.py:492-494 is left out, because `float(45640)` cannot raise.
- `Extract.ExtractJson`: a reply that parses to JSON `null` yields `Some(JNull)`, while Python yields `None`. Both are falsy, so the wrappers give the same parse error.

## Findings

| source | as written | input that shows it | evidently intended | confidence | as-written member | corrected member |
|---|---|---|---|---|---|---|
| rag.py:167 | `start = end - self.chunk_overlap` can move `start` back to or before the previous start; with negative indices the window never advances and `chunk_text` loops forever | defaults 1500/300, text "A. " followed by 1498 or more characters none of which is `.`, `!`, `?` or whitespace: `start` goes 0, -298, -300, -300, ... | every pass moves forward: `end - chunk_overlap` when that is past `start`, else `end` | not executed | Chunker.AsWrittenLoopNeverEnds | Chunker.ChunkStartsIncrease |
| rag.py:167 | when the last terminator of a window short of the end lies `chunk_overlap - 1` characters after a positive `start`, the next `start` equals it, and `chunk_text` loops forever without negative indices | defaults 1500/300, a normalised 3000-character text (say "x" * 1000 + "." + "x" * 399 + "." + "x" * 1599) whose only terminators are at 1000 and 1400: `start` goes 0, 1101, 1101, ... | every pass moves forward: `end - chunk_overlap` when that is past `start`, else `end` | not executed | Chunker.AsWrittenStuckAtPositiveStart | Chunker.ChunkStartsIncrease |
| rag.py:142-167 | after a step to a negative `start`, `rfind` searches an empty range and `text[start:end]` is empty, so the loop can end having left part of the text out of every chunk | defaults 1500/300, a normalised 3000-character text (say "x" * 298 + "." + "y" * 2701) whose only terminator is at 298: `start` goes 0, -1, 1199, 2399, 3599, the chunks start at 0, 1199 and 2399, and characters 299..1198 are in none of them | consecutive windows overlap or touch, so every character lies in some window | not executed | Chunker.AsWrittenSkipsText | Chunker.WindowsCoverText |
