/** The sliding-window chunker of `PDFProcessor` (rag.py:100-183): the text is first
    collapsed to single spaces, then cut into windows of at most `chunkSize` characters
    that end, where possible, just after the last `.`, `!` or `?` of the window, and each
    window starts `chunkOverlap` characters before the previous one ended.

    The loop as written (rag.py:167) can move `start` backwards or leave it where it was:
    it then never stops (`AsWrittenLoopNeverEnds`, `AsWrittenStuckAtPositiveStart`), or it
    stops having left part of the text out of every chunk (`AsWrittenSkipsText`). The model
    advances `start` to the window end whenever stepping back by the overlap would not move
    it forward; where the loop as written ends, its chunks can therefore differ from these. */
module Chunker {
  import opened Text

  /** One element of the list `chunk_text` returns. */
  datatype Chunk = Chunk(text: string, pageNumber: int, chunkIndex: nat, startChar: nat, endChar: nat)

  /** A page of extracted PDF text with its 1-based page number. */
  datatype PageText = PageText(text: string, pageNumber: int)

  /** The sentence terminators the window end is moved back to. */
  predicate IsTerminator(c: char) {
    c == '.' || c == '!' || c == '?'
  }

  function Max(a: int, b: int): int {
    if a < b then b else a
  }

  function Min(a: int, b: int): int {
    if a < b then a else b
  }

  /** `max(text.rfind('.', lo, hi), text.rfind('!', lo, hi), text.rfind('?', lo, hi))`. */
  function LastTerminator(t: string, lo: nat, hi: nat): (r: int)
    requires hi <= |t|
    ensures r == -1 || (lo <= r < hi && IsTerminator(t[r]))
    ensures forall k :: lo <= k < hi && r < k ==> !IsTerminator(t[k])
  {
    Max(Max(RFind(t, '.', lo, hi), RFind(t, '!', lo, hi)), RFind(t, '?', lo, hi))
  }

  /** The `end` of the window that starts at `start`: `start + chunkSize`, or one past
      the last terminator strictly after `start` when the window does not reach the end
      of the text and such a terminator exists. */
  function WindowEnd(t: string, start: nat, chunkSize: nat): (e: nat)
    requires start < |t| && 0 < chunkSize
    ensures start < e <= start + chunkSize
    ensures start + chunkSize >= |t| ==> e == start + chunkSize
    ensures start + chunkSize < |t| ==>
      (e == start + chunkSize && forall k :: start < k < start + chunkSize ==> !IsTerminator(t[k]))
      || (start + 1 < e && IsTerminator(t[e - 1]) && forall k :: e <= k < start + chunkSize ==> !IsTerminator(t[k]))
  {
    var end := start + chunkSize;
    if end < |t| then
      var sentenceEnd := LastTerminator(t, start, end);
      if sentenceEnd > start then sentenceEnd + 1 else end
    else end
  }

  /** Where the next window starts: `end - chunkOverlap` when that is past `start`,
      otherwise `end` itself, so that every step moves forward. */
  function Advance(start: int, end: int, chunkOverlap: int): (next: int)
    ensures start < end ==> start < next
    ensures chunkOverlap >= 0 ==> next <= end
  {
    if end - chunkOverlap > start then end - chunkOverlap else end
  }

  /** The text of the window `[start, end)`, cut at the end of the text and stripped. */
  function Piece(t: string, start: nat, end: nat): string
    requires start < |t| && start < end
  {
    Strip(t[start..Min(end, |t|)])
  }

  /** The chunks produced from position `start` on, numbered from `index`. */
  function ChunksFrom(t: string, pageNumber: int, chunkSize: nat, chunkOverlap: int, start: nat, index: nat): seq<Chunk>
    requires 0 < chunkSize
    decreases |t| - start
  {
    if start >= |t| then []
    else
      var end := WindowEnd(t, start, chunkSize);
      var piece := Piece(t, start, end);
      var next := Advance(start, end, chunkOverlap);
      if piece != [] then [Chunk(piece, pageNumber, index, start, end)] + ChunksFrom(t, pageNumber, chunkSize, chunkOverlap, next, index + 1)
      else ChunksFrom(t, pageNumber, chunkSize, chunkOverlap, next, index)
  }

  /** What `chunk_text(text, page_number)` returns. */
  function Chunks(text: string, pageNumber: int, chunkSize: nat, chunkOverlap: int): seq<Chunk>
    requires 0 < chunkSize
  {
    ChunksFrom(Normalize(text), pageNumber, chunkSize, chunkOverlap, 0, 0)
  }

  /** The window end of one pass of the `chunk_text` loop (rag.py:143-153). */
  method FindWindowEnd(t: string, start: nat, chunkSize: nat) returns (end: nat)
    requires start < |t| && 0 < chunkSize
    ensures end == WindowEnd(t, start, chunkSize)
  {
    end := start + chunkSize;
    if end < |t| {
      var sentenceEnd := Max(Max(RFind(t, '.', start, end), RFind(t, '!', start, end)), RFind(t, '?', start, end));
      if sentenceEnd > start {
        end := sentenceEnd + 1;
      }
    }
  }

  /** `PDFProcessor.chunk_text`. `chunkSize` is positive in every construction of the
      processor (rag.py:103, 207 use the default 1500). */
  method ChunkText(text: string, pageNumber: int, chunkSize: nat, chunkOverlap: int) returns (chunks: seq<Chunk>)
    requires 0 < chunkSize
    ensures chunks == Chunks(text, pageNumber, chunkSize, chunkOverlap)
  {
    var t := Normalize(text);
    chunks := [];
    var start: nat := 0;
    var chunkIndex: nat := 0;
    while start < |t|
      invariant chunks + ChunksFrom(t, pageNumber, chunkSize, chunkOverlap, start, chunkIndex)
                == ChunksFrom(t, pageNumber, chunkSize, chunkOverlap, 0, 0)
      decreases |t| - start
    {
      var end := FindWindowEnd(t, start, chunkSize);
      var piece := Strip(t[start..Min(end, |t|)]);
      ChunksFromStep(t, pageNumber, chunkSize, chunkOverlap, start, chunkIndex);
      var next := if end - chunkOverlap > start then end - chunkOverlap else end;
      assert next == Advance(start, end, chunkOverlap);
      if piece != [] {
        var chunk := Chunk(piece, pageNumber, chunkIndex, start, end);
        assert chunks + ChunksFrom(t, pageNumber, chunkSize, chunkOverlap, start, chunkIndex)
            == (chunks + [chunk]) + ChunksFrom(t, pageNumber, chunkSize, chunkOverlap, next, chunkIndex + 1);
        chunks := chunks + [chunk];
        chunkIndex := chunkIndex + 1;
      }
      assert chunks + ChunksFrom(t, pageNumber, chunkSize, chunkOverlap, next, chunkIndex) == ChunksFrom(t, pageNumber, chunkSize, chunkOverlap, 0, 0);
      start := next;
    }
  }

  /** One step of `ChunksFrom`. */
  lemma ChunksFromStep(t: string, pageNumber: int, chunkSize: nat, chunkOverlap: int, start: nat, index: nat)
    requires 0 < chunkSize && start < |t|
    ensures var end := WindowEnd(t, start, chunkSize);
      var piece := Piece(t, start, end);
      var next := Advance(start, end, chunkOverlap);
      ChunksFrom(t, pageNumber, chunkSize, chunkOverlap, start, index)
      == if piece != [] then [Chunk(piece, pageNumber, index, start, end)] + ChunksFrom(t, pageNumber, chunkSize, chunkOverlap, next, index + 1)
         else ChunksFrom(t, pageNumber, chunkSize, chunkOverlap, next, index)
  {
  }

  /** A chunk is a non-blank stripped window of the normalised text `t`. */
  predicate IsWindowOf(t: string, chunkSize: nat, c: Chunk)
    requires 0 < chunkSize
  {
    c.startChar < |t|
    && c.endChar == WindowEnd(t, c.startChar, chunkSize)
    && c.text == Piece(t, c.startChar, c.endChar)
    && c.text != []
  }

  /** `r` is a run of chunks on page `pageNumber`, numbered from `index` and all starting
      at or after `start`. */
  predicate NumberedFrom(pageNumber: int, start: nat, index: nat, r: seq<Chunk>) {
    forall i :: 0 <= i < |r| ==>
      r[i].chunkIndex == index + i && r[i].pageNumber == pageNumber && start <= r[i].startChar
  }

  lemma {:induction false} ChunksFromNumbered(t: string, pageNumber: int, chunkSize: nat, chunkOverlap: int, start: nat, index: nat)
    requires 0 < chunkSize
    ensures NumberedFrom(pageNumber, start, index, ChunksFrom(t, pageNumber, chunkSize, chunkOverlap, start, index))
    decreases |t| - start
  {
    if start < |t| {
      var end := WindowEnd(t, start, chunkSize);
      var piece := Piece(t, start, end);
      var next := Advance(start, end, chunkOverlap);
      if piece != [] {
        var rest := ChunksFrom(t, pageNumber, chunkSize, chunkOverlap, next, index + 1);
        ChunksFromNumbered(t, pageNumber, chunkSize, chunkOverlap, next, index + 1);
        var r := [Chunk(piece, pageNumber, index, start, end)] + rest;
        assert ChunksFrom(t, pageNumber, chunkSize, chunkOverlap, start, index) == r;
        forall i | 0 <= i < |r|
          ensures r[i].chunkIndex == index + i && r[i].pageNumber == pageNumber && start <= r[i].startChar
        {
          if i > 0 {
            assert r[i] == rest[i - 1];
          }
        }
      } else {
        ChunksFromNumbered(t, pageNumber, chunkSize, chunkOverlap, next, index);
      }
    }
  }

  lemma {:induction false} ChunksFromWindows(t: string, pageNumber: int, chunkSize: nat, chunkOverlap: int, start: nat, index: nat)
    requires 0 < chunkSize
    ensures forall c :: c in ChunksFrom(t, pageNumber, chunkSize, chunkOverlap, start, index) ==> IsWindowOf(t, chunkSize, c)
    decreases |t| - start
  {
    if start < |t| {
      var end := WindowEnd(t, start, chunkSize);
      var piece := Piece(t, start, end);
      var next := Advance(start, end, chunkOverlap);
      if piece != [] {
        var rest := ChunksFrom(t, pageNumber, chunkSize, chunkOverlap, next, index + 1);
        ChunksFromWindows(t, pageNumber, chunkSize, chunkOverlap, next, index + 1);
        var c0 := Chunk(piece, pageNumber, index, start, end);
        assert IsWindowOf(t, chunkSize, c0);
        assert ChunksFrom(t, pageNumber, chunkSize, chunkOverlap, start, index) == [c0] + rest;
      } else {
        ChunksFromWindows(t, pageNumber, chunkSize, chunkOverlap, next, index);
      }
    }
  }

  /** Both facts about the chunks from `start` on. */
  lemma ChunksFromShape(t: string, pageNumber: int, chunkSize: nat, chunkOverlap: int, start: nat, index: nat)
    requires 0 < chunkSize
    ensures var r := ChunksFrom(t, pageNumber, chunkSize, chunkOverlap, start, index);
      NumberedFrom(pageNumber, start, index, r) && forall i :: 0 <= i < |r| ==> IsWindowOf(t, chunkSize, r[i])
  {
    ChunksFromNumbered(t, pageNumber, chunkSize, chunkOverlap, start, index);
    ChunksFromWindows(t, pageNumber, chunkSize, chunkOverlap, start, index);
  }

  /** The chunks are numbered 0, 1, ..., n-1 in order, all carry the given page number, and
      each is the non-blank stripped window `t[startChar..endChar]` of the normalised text,
      at most `chunkSize` characters wide; `endChar` is not clamped to the text length. */
  lemma ChunksAreWindows(text: string, pageNumber: int, chunkSize: nat, chunkOverlap: int)
    requires 0 < chunkSize
    ensures var t, r := Normalize(text), Chunks(text, pageNumber, chunkSize, chunkOverlap);
      forall i :: 0 <= i < |r| ==>
        r[i].chunkIndex == i && r[i].pageNumber == pageNumber
        && r[i].startChar < |t| && r[i].startChar < r[i].endChar <= r[i].startChar + chunkSize
        && r[i].text == Strip(t[r[i].startChar..Min(r[i].endChar, |t|)]) && r[i].text != []
  {
    var t, r := Normalize(text), Chunks(text, pageNumber, chunkSize, chunkOverlap);
    ChunksFromShape(t, pageNumber, chunkSize, chunkOverlap, 0, 0);
    forall i | 0 <= i < |r|
      ensures r[i].startChar < r[i].endChar <= r[i].startChar + chunkSize
    {
      assert IsWindowOf(t, chunkSize, r[i]);
    }
  }

  /** When a window does not reach the end of the text and holds a terminator after its
      start, it ends just after the last such terminator, and its stripped text ends with it. */
  lemma CutWindowEndsAtSentence(t: string, chunkSize: nat, start: nat, k: nat)
    requires 0 < chunkSize && start + chunkSize < |t|
    requires start < k < start + chunkSize && IsTerminator(t[k])
    ensures var e := WindowEnd(t, start, chunkSize);
      k < e <= |t| && IsTerminator(t[e - 1])
      && Piece(t, start, e) != [] && Piece(t, start, e)[|Piece(t, start, e)| - 1] == t[e - 1]
  {
    var e := WindowEnd(t, start, chunkSize);
    var u := t[start..e];
    assert u[|u| - 1] == t[e - 1];
    StripKeepsLast(u);
  }

  /** The chunk form of `CutWindowEndsAtSentence`: a chunk whose window holds a terminator
      after its start and does not reach the end of the text ends with a terminator. */
  lemma CutChunkEndsAtSentence(text: string, pageNumber: int, chunkSize: nat, chunkOverlap: int, c: Chunk, k: nat)
    requires 0 < chunkSize && c in Chunks(text, pageNumber, chunkSize, chunkOverlap)
    requires var t := Normalize(text);
      c.startChar + chunkSize < |t| && c.startChar < k < c.startChar + chunkSize && IsTerminator(t[k])
    ensures var t := Normalize(text);
      k < c.endChar <= |t| && IsTerminator(t[c.endChar - 1])
      && c.text != [] && c.text[|c.text| - 1] == t[c.endChar - 1]
  {
    var t := Normalize(text);
    ChunksFromWindows(t, pageNumber, chunkSize, chunkOverlap, 0, 0);
    CutChunkOfWindow(t, chunkSize, c, k);
  }

  lemma CutChunkOfWindow(t: string, chunkSize: nat, c: Chunk, k: nat)
    requires 0 < chunkSize && IsWindowOf(t, chunkSize, c)
    requires c.startChar + chunkSize < |t| && c.startChar < k < c.startChar + chunkSize && IsTerminator(t[k])
    ensures k < c.endChar <= |t| && IsTerminator(t[c.endChar - 1])
    ensures c.text != [] && c.text[|c.text| - 1] == t[c.endChar - 1]
  {
    CutWindowEndsAtSentence(t, chunkSize, c.startChar, k);
  }

  /** Stripping keeps a final character that is not whitespace. */
  lemma StripKeepsLast(u: string)
    requires u != [] && !IsSpace(u[|u| - 1])
    ensures Strip(u) != [] && Strip(u)[|Strip(u)| - 1] == u[|u| - 1]
  {
    var i, j := StripIsSlice(u);
  }

  /** Stripping a string that holds a visible character gives a non-empty string. */
  lemma StripKeepsVisibleChar(u: string, k: nat)
    requires k < |u| && !IsSpace(u[k])
    ensures Strip(u) != []
  {
    StripEmptyIff(u);
  }

  /** Empty or all-whitespace input gives no chunks; any other input gives at least one. */
  lemma BlankTextHasNoChunks(text: string, pageNumber: int, chunkSize: nat, chunkOverlap: int)
    requires 0 < chunkSize
    ensures Chunks(text, pageNumber, chunkSize, chunkOverlap) == [] <==> AllSpace(text)
  {
    var t := Normalize(text);
    NormalizeEmptyIff(text);
    if t != [] {
      NormalizeIsNormalized(text);
      var e := WindowEnd(t, 0, chunkSize);
      var u := t[0..Min(e, |t|)];
      assert u[0] == t[0];
      StripKeepsVisibleChar(u, 0);
    }
  }

  /** In normalised text a window of two or more characters is never blank. */
  lemma NoBlankWindow(t: string, chunkSize: nat, start: nat)
    requires 2 <= chunkSize && IsNormalized(t) && start < |t|
    ensures Piece(t, start, WindowEnd(t, start, chunkSize)) != []
  {
    var e := WindowEnd(t, start, chunkSize);
    var u := t[start..Min(e, |t|)];
    if e >= |t| {
      assert u[|u| - 1] == t[|t| - 1];
      StripKeepsLast(u);
    } else {
      assert u[0] == t[start] && u[1] == t[start + 1];
      if IsSpace(u[0]) {
        StripKeepsVisibleChar(u, 1);
      } else {
        StripKeepsVisibleChar(u, 0);
      }
    }
  }

  lemma {:induction false} ChunksFromSequence(t: string, pageNumber: int, chunkSize: nat, chunkOverlap: int, start: nat, index: nat)
    requires 2 <= chunkSize && IsNormalized(t)
    ensures var r := ChunksFrom(t, pageNumber, chunkSize, chunkOverlap, start, index);
      (r != [] ==> r[0].startChar == start)
      && (forall i :: 0 <= i < |r| - 1 ==> r[i + 1].startChar == Advance(r[i].startChar, r[i].endChar, chunkOverlap))
      && (r != [] ==> Advance(r[|r| - 1].startChar, r[|r| - 1].endChar, chunkOverlap) >= |t|)
    decreases |t| - start
  {
    if start < |t| {
      var e := WindowEnd(t, start, chunkSize);
      var next := Advance(start, e, chunkOverlap);
      NoBlankWindow(t, chunkSize, start);
      var rest := ChunksFrom(t, pageNumber, chunkSize, chunkOverlap, next, index + 1);
      ChunksFromSequence(t, pageNumber, chunkSize, chunkOverlap, next, index + 1);
      var r := [Chunk(Piece(t, start, e), pageNumber, index, start, e)] + rest;
      assert ChunksFrom(t, pageNumber, chunkSize, chunkOverlap, start, index) == r;
      forall i | 0 <= i < |r| - 1
        ensures r[i + 1].startChar == Advance(r[i].startChar, r[i].endChar, chunkOverlap)
      {
        if i > 0 { assert r[i] == rest[i - 1] && r[i + 1] == rest[i]; }
      }
      if next < |t| {
        NoBlankWindow(t, chunkSize, next);
        assert rest != [];
      }
      if rest != [] {
        assert r[|r| - 1] == rest[|rest| - 1];
      }
    }
  }

  /** For a chunk size of at least two, every window yields a chunk, the first chunk starts
      at 0, each next chunk starts where `Advance` puts it (that is, `endChar - chunkOverlap`
      whenever that moves forward) and the step after the last chunk leaves the text. */
  lemma ChunkSequencing(text: string, pageNumber: int, chunkSize: nat, chunkOverlap: int)
    requires 2 <= chunkSize
    ensures var t, r := Normalize(text), Chunks(text, pageNumber, chunkSize, chunkOverlap);
      (r != [] ==> r[0].startChar == 0)
      && (forall i :: 0 <= i < |r| - 1 ==>
            r[i].startChar < r[i + 1].startChar
            && (r[i].endChar - chunkOverlap > r[i].startChar ==> r[i + 1].startChar == r[i].endChar - chunkOverlap))
      && (r != [] ==> Advance(r[|r| - 1].startChar, r[|r| - 1].endChar, chunkOverlap) >= |t|)
  {
    var t, r := Normalize(text), Chunks(text, pageNumber, chunkSize, chunkOverlap);
    NormalizeIsNormalized(text);
    ChunksFromSequence(t, pageNumber, chunkSize, chunkOverlap, 0, 0);
    ChunksFromShape(t, pageNumber, chunkSize, chunkOverlap, 0, 0);
    forall i | 0 <= i < |r| - 1 ensures r[i].startChar < r[i + 1].startChar {
      assert IsWindowOf(t, chunkSize, r[i]);
    }
  }

  /** With a non-negative overlap the windows leave no gap: each starts no later than the
      previous one ended and the last one reaches the end of the text. */
  lemma WindowsCoverText(text: string, pageNumber: int, chunkSize: nat, chunkOverlap: nat)
    requires 2 <= chunkSize
    ensures var t, r := Normalize(text), Chunks(text, pageNumber, chunkSize, chunkOverlap);
      (forall i :: 0 <= i < |r| - 1 ==> r[i + 1].startChar <= r[i].endChar)
      && (r != [] ==> r[|r| - 1].endChar >= |t|)
  {
    var t, r := Normalize(text), Chunks(text, pageNumber, chunkSize, chunkOverlap);
    NormalizeIsNormalized(text);
    ChunksFromSequence(t, pageNumber, chunkSize, chunkOverlap, 0, 0);
  }

  /** A normalised text no longer than `chunkSize - chunkOverlap` is one chunk: the whole text. */
  lemma ShortTextIsOneChunk(text: string, pageNumber: int, chunkSize: nat, chunkOverlap: nat)
    requires chunkOverlap < chunkSize
    requires 0 < |Normalize(text)| <= chunkSize - chunkOverlap
    ensures Chunks(text, pageNumber, chunkSize, chunkOverlap) == [Chunk(Normalize(text), pageNumber, 0, 0, chunkSize)]
  {
    NormalizeIsNormalized(text);
    OneChunkOf(Normalize(text), pageNumber, chunkSize, chunkOverlap);
  }

  /** The one-chunk case, for a text with no whitespace at either end. */
  lemma OneChunkOf(t: string, pageNumber: int, chunkSize: nat, chunkOverlap: nat)
    requires 0 < |t| <= chunkSize - chunkOverlap && !IsSpace(t[0]) && !IsSpace(t[|t| - 1]) && chunkOverlap < chunkSize
    ensures ChunksFrom(t, pageNumber, chunkSize, chunkOverlap, 0, 0) == [Chunk(t, pageNumber, 0, 0, chunkSize)]
  {
    WholeFirstWindow(t, chunkSize, chunkOverlap);
    LastChunk(t, pageNumber, chunkSize, chunkOverlap, 0, 0);
  }

  /** A normalised text whose length lies in `(chunkSize - chunkOverlap, chunkSize]` gives a
      second chunk holding only the tail that starts at `chunkSize - chunkOverlap`; there are
      exactly two chunks when the overlap is at most half the chunk size (as with 1500/300). */
  lemma TailGetsSecondChunk(text: string, pageNumber: int, chunkSize: nat, chunkOverlap: nat)
    requires 0 < chunkOverlap && 2 * chunkOverlap <= chunkSize
    requires chunkSize - chunkOverlap < |Normalize(text)| <= chunkSize
    ensures var t := Normalize(text);
      Chunks(text, pageNumber, chunkSize, chunkOverlap)
      == [Chunk(t, pageNumber, 0, 0, chunkSize),
          Chunk(Strip(t[chunkSize - chunkOverlap..]), pageNumber, 1, chunkSize - chunkOverlap, 2 * chunkSize - chunkOverlap)]
  {
    NormalizeIsNormalized(text);
    TwoChunksOf(Normalize(text), pageNumber, chunkSize, chunkOverlap);
  }

  /** The two-chunk case, for a text with no whitespace at either end. */
  lemma TwoChunksOf(t: string, pageNumber: int, chunkSize: nat, chunkOverlap: nat)
    requires 0 < chunkOverlap && 2 * chunkOverlap <= chunkSize
    requires chunkSize - chunkOverlap < |t| <= chunkSize && !IsSpace(t[0]) && !IsSpace(t[|t| - 1])
    ensures ChunksFrom(t, pageNumber, chunkSize, chunkOverlap, 0, 0)
      == [Chunk(t, pageNumber, 0, 0, chunkSize),
          Chunk(Strip(t[chunkSize - chunkOverlap..]), pageNumber, 1, chunkSize - chunkOverlap, 2 * chunkSize - chunkOverlap)]
  {
    var s2: nat, e2: nat := chunkSize - chunkOverlap, 2 * chunkSize - chunkOverlap;
    WholeFirstWindow(t, chunkSize, chunkOverlap);
    TailWindow(t, chunkSize, chunkOverlap, s2, e2);
    ChunksFromTwo(t, pageNumber, chunkSize, chunkOverlap, 0, chunkSize, t, s2, e2, Strip(t[s2..]));
  }

  /** Two non-blank windows in a row, the second reaching past the text, are all the chunks. */
  lemma ChunksFromTwo(t: string, pageNumber: int, chunkSize: nat, chunkOverlap: int,
                      a: nat, ea: nat, pa: string, b: nat, eb: nat, pb: string)
    requires 0 < chunkSize && a < |t| && b < |t|
    requires WindowEnd(t, a, chunkSize) == ea && Piece(t, a, ea) == pa && pa != []
    requires Advance(a, ea, chunkOverlap) == b
    requires WindowEnd(t, b, chunkSize) == eb && Piece(t, b, eb) == pb && pb != []
    requires Advance(b, eb, chunkOverlap) >= |t|
    ensures ChunksFrom(t, pageNumber, chunkSize, chunkOverlap, a, 0)
      == [Chunk(pa, pageNumber, 0, a, ea), Chunk(pb, pageNumber, 1, b, eb)]
  {
    ChunkThen(t, pageNumber, chunkSize, chunkOverlap, a, 0);
    LastChunk(t, pageNumber, chunkSize, chunkOverlap, b, 1);
  }

  /** A non-blank window is a chunk, followed by the chunks from where the next one starts. */
  lemma ChunkThen(t: string, pageNumber: int, chunkSize: nat, chunkOverlap: int, start: nat, index: nat)
    requires 0 < chunkSize && start < |t|
    requires Piece(t, start, WindowEnd(t, start, chunkSize)) != []
    ensures var e := WindowEnd(t, start, chunkSize);
      ChunksFrom(t, pageNumber, chunkSize, chunkOverlap, start, index)
      == [Chunk(Piece(t, start, e), pageNumber, index, start, e)]
         + ChunksFrom(t, pageNumber, chunkSize, chunkOverlap, Advance(start, e, chunkOverlap), index + 1)
  {
  }

  /** A non-blank window after which the next step leaves the text is the last chunk. */
  lemma LastChunk(t: string, pageNumber: int, chunkSize: nat, chunkOverlap: int, start: nat, index: nat)
    requires 0 < chunkSize && start < |t|
    requires Piece(t, start, WindowEnd(t, start, chunkSize)) != []
    requires Advance(start, WindowEnd(t, start, chunkSize), chunkOverlap) >= |t|
    ensures var e := WindowEnd(t, start, chunkSize);
      ChunksFrom(t, pageNumber, chunkSize, chunkOverlap, start, index) == [Chunk(Piece(t, start, e), pageNumber, index, start, e)]
  {
    var e := WindowEnd(t, start, chunkSize);
    var next := Advance(start, e, chunkOverlap);
    assert ChunksFrom(t, pageNumber, chunkSize, chunkOverlap, next, index + 1) == [];
  }

  /** A normalised text that fits in one window is that window's whole piece. */
  lemma WholeFirstWindow(t: string, chunkSize: nat, chunkOverlap: nat)
    requires 0 < |t| <= chunkSize && !IsSpace(t[0]) && !IsSpace(t[|t| - 1]) && chunkOverlap < chunkSize
    ensures WindowEnd(t, 0, chunkSize) == chunkSize && Piece(t, 0, chunkSize) == t
    ensures Advance(0, chunkSize, chunkOverlap) == chunkSize - chunkOverlap
  {
    StripOfStripped(t);
    assert t[0..Min(chunkSize, |t|)] == t;
  }

  /** The window starting at `chunkSize - chunkOverlap` holds the rest of the text, is not
      blank, and the step after it leaves the text. */
  lemma TailWindow(t: string, chunkSize: nat, chunkOverlap: nat, s2: nat, e2: nat)
    requires 0 < chunkOverlap && 2 * chunkOverlap <= chunkSize
    requires s2 == chunkSize - chunkOverlap && e2 == 2 * chunkSize - chunkOverlap
    requires s2 < |t| <= chunkSize && !IsSpace(t[|t| - 1])
    ensures WindowEnd(t, s2, chunkSize) == e2
    ensures Piece(t, s2, e2) == Strip(t[s2..]) && Strip(t[s2..]) != []
    ensures Advance(s2, e2, chunkOverlap) >= |t|
  {
    var tail := t[s2..];
    assert t[s2..Min(e2, |t|)] == tail;
    assert tail[|tail| - 1] == t[|t| - 1];
    StripKeepsLast(tail);
  }

  /** `process_pdf_bytes` after text extraction: the pages' chunk lists concatenated. */
  function PdfChunks(pages: seq<PageText>, chunkSize: nat, chunkOverlap: int): seq<Chunk>
    requires 0 < chunkSize
  {
    if pages == [] then []
    else PdfChunks(pages[..|pages| - 1], chunkSize, chunkOverlap)
         + Chunks(pages[|pages| - 1].text, pages[|pages| - 1].pageNumber, chunkSize, chunkOverlap)
  }

  /** `PDFProcessor.process_pdf_bytes` (rag.py:171-183), given the pages that
      `extract_text_from_pdf` returned. */
  method ProcessPdfPages(pages: seq<PageText>, chunkSize: nat, chunkOverlap: int) returns (allChunks: seq<Chunk>)
    requires 0 < chunkSize
    ensures allChunks == PdfChunks(pages, chunkSize, chunkOverlap)
  {
    allChunks := [];
    for k := 0 to |pages|
      invariant allChunks == PdfChunks(pages[..k], chunkSize, chunkOverlap)
    {
      var chunks := ChunkText(pages[k].text, pages[k].pageNumber, chunkSize, chunkOverlap);
      allChunks := allChunks + chunks;
      assert pages[..k + 1][..k] == pages[..k];
    }
    assert pages[..|pages|] == pages;
  }

  /** Chunk numbering restarts on every page: two pages that both hold visible text
      both contribute a chunk numbered 0. */
  lemma PdfIndicesRestartPerPage(p1: PageText, p2: PageText, chunkSize: nat, chunkOverlap: int)
    requires 0 < chunkSize && !AllSpace(p1.text) && !AllSpace(p2.text)
    ensures var r := PdfChunks([p1, p2], chunkSize, chunkOverlap);
      var n := |Chunks(p1.text, p1.pageNumber, chunkSize, chunkOverlap)|;
      0 < n < |r| && r[0].chunkIndex == 0 && r[n].chunkIndex == 0
  {
    var c1 := Chunks(p1.text, p1.pageNumber, chunkSize, chunkOverlap);
    var c2 := Chunks(p2.text, p2.pageNumber, chunkSize, chunkOverlap);
    FirstChunkIsZero(p1, chunkSize, chunkOverlap);
    FirstChunkIsZero(p2, chunkSize, chunkOverlap);
    PdfChunksOfTwo(p1, p2, chunkSize, chunkOverlap);
    var r := c1 + c2;
    assert r[0] == c1[0] && r[|c1|] == c2[0];
  }

  /** Two pages give the first page's chunks followed by the second's. */
  lemma PdfChunksOfTwo(p1: PageText, p2: PageText, chunkSize: nat, chunkOverlap: int)
    requires 0 < chunkSize
    ensures PdfChunks([p1, p2], chunkSize, chunkOverlap)
      == Chunks(p1.text, p1.pageNumber, chunkSize, chunkOverlap) + Chunks(p2.text, p2.pageNumber, chunkSize, chunkOverlap)
  {
    assert [p1, p2][..1] == [p1];
    assert [p1][..0] == [];
    assert PdfChunks([p1], chunkSize, chunkOverlap) == Chunks(p1.text, p1.pageNumber, chunkSize, chunkOverlap);
  }

  /** A page with visible text yields at least one chunk, and the first is numbered 0. */
  lemma FirstChunkIsZero(p: PageText, chunkSize: nat, chunkOverlap: int)
    requires 0 < chunkSize && !AllSpace(p.text)
    ensures var c := Chunks(p.text, p.pageNumber, chunkSize, chunkOverlap);
      c != [] && c[0].chunkIndex == 0
  {
    BlankTextHasNoChunks(p.text, p.pageNumber, chunkSize, chunkOverlap);
    ChunksFromNumbered(Normalize(p.text), p.pageNumber, chunkSize, chunkOverlap, 0, 0);
  }

  // ----- The loop as written -----

  /** Python's treatment of a slice or search bound `i` against a string of length `n`. */
  function PyBound(i: int, n: nat): (b: nat)
    ensures b <= n
  {
    if i < 0 then (if i + n < 0 then 0 else i + n) else if i > n then n else i
  }

  /** `text[a:b]` with Python's slice semantics. */
  function PySlice(t: string, a: int, b: int): (r: string)
    ensures |r| <= |t|
  {
    var lo, hi := PyBound(a, |t|), PyBound(b, |t|);
    if lo < hi then t[lo..hi] else []
  }

  /** The `end` of one pass of the loop body of rag.py:143-153 as written, with Python's
      negative-index semantics for `rfind`. */
  function AsWrittenEnd(t: string, start: int, chunkSize: int): int {
    var end := start + chunkSize;
    var lo, hi := PyBound(start, |t|), PyBound(end, |t|);
    var cut := if end < |t| then LastTerminator(t, lo, hi) else -1;
    if end < |t| && cut > start then cut + 1 else end
  }

  /** The value of `start` after one pass of the loop body of rag.py:142-167 as written. */
  function AsWrittenStep(t: string, start: int, chunkSize: int, chunkOverlap: int): int {
    AsWrittenEnd(t, start, chunkSize) - chunkOverlap
  }

  /** `start` after `n` passes of the loop as written, beginning at 0. */
  function AsWrittenStart(t: string, chunkSize: int, chunkOverlap: int, n: nat): int {
    if n == 0 then 0 else AsWrittenStep(t, AsWrittenStart(t, chunkSize, chunkOverlap, n - 1), chunkSize, chunkOverlap)
  }

  /** Once `start` reaches `-chunkOverlap` it stays there on any text at least `chunkSize` long. */
  lemma AsWrittenStuckBelowZero(t: string, chunkSize: int, chunkOverlap: int)
    requires 2 <= chunkOverlap <= chunkSize <= |t|
    ensures AsWrittenStep(t, -chunkOverlap, chunkSize, chunkOverlap) == -chunkOverlap
  {
  }

  /** With the default configuration (1500, 300), the text "A. " followed by 1498 or more
      characters none of which is a terminator or whitespace makes the loop as written run
      forever: the text is already normalised, and `start` goes 0, -298, -300, -300, ...
      and stays below the text length. */
  lemma {:induction false} AsWrittenLoopNeverEnds(x: string, n: nat)
    requires |x| >= 1498 && forall k :: 0 <= k < |x| ==> !IsTerminator(x[k]) && !IsSpace(x[k])
    ensures Normalize("A. " + x) == "A. " + x
    ensures var t := "A. " + x;
      AsWrittenStart(t, 1500, 300, 1) == -298
      && (n >= 2 ==> AsWrittenStart(t, 1500, 300, n) == -300)
      && AsWrittenStart(t, 1500, 300, n) < |t|
  {
    var t := "A. " + x;
    SentenceThenWord(x);
    assert AsWrittenStart(t, 1500, 300, 1) == -298;
    assert AsWrittenStart(t, 1500, 300, 2) == -300;
    AsWrittenStuckBelowZero(t, 1500, 300);
    if n >= 2 {
      AsWrittenStaysAt(t, 1500, 300, -300, 2, n);
    }
  }

  /** "A. " followed by a word without terminators is normalised text whose only
      terminator is at 1. */
  lemma SentenceThenWord(x: string)
    requires x != [] && forall k :: 0 <= k < |x| ==> !IsTerminator(x[k]) && !IsSpace(x[k])
    ensures Normalize("A. " + x) == "A. " + x
    ensures var t := "A. " + x; IsTerminator(t[1]) && forall k :: 2 <= k < |t| ==> !IsTerminator(t[k])
  {
    var t := "A. " + x;
    assert forall k :: 3 <= k < |t| ==> t[k] == x[k - 3];
    assert IsNormalized(t) by {
      assert forall k :: 0 <= k < |t| && k != 2 ==> !IsSpace(t[k]);
    }
    NormalizeOfNormalized(t);
  }

  /** Once a pass leaves `start` where it was, every later pass does too. */
  lemma {:induction false} AsWrittenStaysAt(t: string, chunkSize: int, chunkOverlap: int, start: int, m: nat, n: nat)
    requires m <= n
    requires AsWrittenStart(t, chunkSize, chunkOverlap, m) == start
    requires AsWrittenStep(t, start, chunkSize, chunkOverlap) == start
    ensures AsWrittenStart(t, chunkSize, chunkOverlap, n) == start
    decreases n - m
  {
    if m < n {
      AsWrittenStaysAt(t, chunkSize, chunkOverlap, start, m, n - 1);
    }
  }

  /** A pass over a window short of the end of the text whose last terminator lies
      `chunkOverlap - 1` characters after its start leaves `start` where it was: the loop as
      written then never ends. */
  lemma AsWrittenFixedPoint(t: string, start: nat, chunkSize: nat, chunkOverlap: nat)
    requires 2 <= chunkOverlap <= chunkSize && start + chunkSize < |t|
    requires LastTerminator(t, start, start + chunkSize) == start + chunkOverlap - 1
    ensures AsWrittenStep(t, start, chunkSize, chunkOverlap) == start
  {
  }

  /** A pass over a window short of the end of the text whose last terminator lies less
      than `chunkOverlap - 1` characters after its start moves `start` backwards. */
  lemma AsWrittenStepsBack(t: string, start: nat, chunkSize: nat, chunkOverlap: nat, d: nat)
    requires start + chunkSize < |t| && 0 < d < chunkOverlap - 1
    requires LastTerminator(t, start, start + chunkSize) == start + d
    ensures AsWrittenStep(t, start, chunkSize, chunkOverlap) < start
  {
  }

  /** With 1500/300 on a normalised 3000-character text whose terminators are at 1000 and
      1400 only, `start` goes 0, 1101, 1101, ...: the loop as written is stuck at a positive
      start. */
  lemma AsWrittenStuckAtPositiveStart(t: string, n: nat)
    requires |t| == 3000 && IsTerminator(t[1000]) && IsTerminator(t[1400])
    requires forall k :: 0 <= k < |t| && k != 1000 && k != 1400 ==> !IsTerminator(t[k])
    ensures AsWrittenStart(t, 1500, 300, n) == if n == 0 then 0 else 1101
    ensures AsWrittenStart(t, 1500, 300, n) < |t|
  {
    AsWrittenStepToTerminator(t, 0, 1500, 300, 1400);
    AsWrittenStepToTerminator(t, 1101, 1500, 300, 1400);
    if n > 0 {
      assert AsWrittenStart(t, 1500, 300, 1) == 1101;
      AsWrittenStaysAt(t, 1500, 300, 1101, 1, n);
    }
  }

  /** A pass over a window short of the end of the text whose last terminator after
      `start` is at `k` moves `start` to `k + 1 - chunkOverlap`. */
  lemma AsWrittenStepToTerminator(t: string, start: nat, chunkSize: nat, chunkOverlap: int, k: nat)
    requires start < k < start + chunkSize < |t| && IsTerminator(t[k])
    requires forall j :: k < j < start + chunkSize ==> !IsTerminator(t[j])
    ensures AsWrittenStep(t, start, chunkSize, chunkOverlap) == k + 1 - chunkOverlap
  {
  }

  /** With 1500/300 on a normalised 3000-character text whose only terminator is at 298,
      the loop as written ends, but leaves characters 299..1198 out of every chunk: the
      second pass starts at -1, where `rfind` searches an empty range and `text[-1:1499]`
      is empty, and the third starts at 1199. The corrected loop starts its second window
      at 299. */
  lemma AsWrittenSkipsText(t: string)
    requires |t| == 3000 && IsTerminator(t[298])
    requires forall k :: 0 <= k < |t| && k != 298 ==> !IsTerminator(t[k])
    ensures AsWrittenEnd(t, 0, 1500) == 299 && AsWrittenStart(t, 1500, 300, 1) == -1
    ensures AsWrittenEnd(t, -1, 1500) == 1499 && PySlice(t, -1, 1499) == []
    ensures AsWrittenStart(t, 1500, 300, 2) == 1199 && AsWrittenEnd(t, 1199, 1500) == 2699
    ensures AsWrittenStart(t, 1500, 300, 3) == 2399 && AsWrittenEnd(t, 2399, 1500) == 3899
    ensures AsWrittenStart(t, 1500, 300, 4) == 3599 >= |t|
    ensures Advance(0, WindowEnd(t, 0, 1500), 300) == 299
  {
    assert LastTerminator(t, 0, 1500) == 298;
    assert LastTerminator(t, 1199, 2699) == -1;
  }

  /** The corrected loop always moves forward: chunk starts strictly increase, so the
      loop ends after at most `|t|` passes. */
  lemma ChunkStartsIncrease(text: string, pageNumber: int, chunkSize: nat, chunkOverlap: int)
    requires 0 < chunkSize
    ensures var r := Chunks(text, pageNumber, chunkSize, chunkOverlap);
      forall i, j :: 0 <= i < j < |r| ==> r[i].startChar < r[j].startChar
  {
    StartsIncreaseFrom(Normalize(text), pageNumber, chunkSize, chunkOverlap, 0, 0);
    assert Chunks(text, pageNumber, chunkSize, chunkOverlap) == ChunksFrom(Normalize(text), pageNumber, chunkSize, chunkOverlap, 0, 0);
  }

  lemma {:induction false} StartsIncreaseFrom(t: string, pageNumber: int, chunkSize: nat, chunkOverlap: int, start: nat, index: nat)
    requires 0 < chunkSize
    ensures var r := ChunksFrom(t, pageNumber, chunkSize, chunkOverlap, start, index);
      (forall i :: 0 <= i < |r| ==> start <= r[i].startChar)
      && forall i, j :: 0 <= i < j < |r| ==> r[i].startChar < r[j].startChar
    decreases |t| - start
  {
    if start < |t| {
      var e := WindowEnd(t, start, chunkSize);
      var piece := Piece(t, start, e);
      var next := Advance(start, e, chunkOverlap);
      ChunksFromStep(t, pageNumber, chunkSize, chunkOverlap, start, index);
      if piece != [] {
        var rest := ChunksFrom(t, pageNumber, chunkSize, chunkOverlap, next, index + 1);
        StartsIncreaseFrom(t, pageNumber, chunkSize, chunkOverlap, next, index + 1);
        ConsStartsIncrease(Chunk(piece, pageNumber, index, start, e), rest, next);
      } else {
        StartsIncreaseFrom(t, pageNumber, chunkSize, chunkOverlap, next, index);
      }
    }
  }

  /** Putting a chunk that starts at `start` in front of chunks that all start at or after
      `next > start`, in increasing order, keeps the starts increasing. */
  lemma ConsStartsIncrease(c: Chunk, rest: seq<Chunk>, next: int)
    requires c.startChar < next
    requires forall i :: 0 <= i < |rest| ==> next <= rest[i].startChar
    requires forall i, j :: 0 <= i < j < |rest| ==> rest[i].startChar < rest[j].startChar
    ensures var r := [c] + rest;
      (forall i :: 0 <= i < |r| ==> c.startChar <= r[i].startChar)
      && forall i, j :: 0 <= i < j < |r| ==> r[i].startChar < r[j].startChar
  {
    var r := [c] + rest;
    forall i | 0 <= i < |r| ensures c.startChar <= r[i].startChar {
      if i > 0 { assert r[i] == rest[i - 1]; }
    }
    forall i, j | 0 <= i < j < |r| ensures r[i].startChar < r[j].startChar {
      assert r[j] == rest[j - 1];
      if i > 0 { assert r[i] == rest[i - 1]; }
    }
  }
}
