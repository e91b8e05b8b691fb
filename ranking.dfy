/** The ranking step of `search_similar_chunks` (rag.py:460-464): the list of scored rows is
    sorted by score, highest first, with Python's stable `list.sort(..., reverse=True)`, and
    the first `top_k` entries are kept with slice semantics. */
module Ranking {
  /** One dictionary of the list `search_similar_chunks` returns (rag.py:449-458); the
      chunk metadata dictionary is flattened into `startChar` and `endChar`. */
  datatype SearchHit = SearchHit(
    chunkId: nat,
    documentId: nat,
    documentName: string,
    chunkIndex: nat,
    text: string,
    pageNumber: int,
    startChar: nat,
    endChar: nat,
    score: real)

  /** Inserts `h` after every entry whose score is at least its own. */
  function Insert(sorted: seq<SearchHit>, h: SearchHit): (r: seq<SearchHit>)
    ensures multiset(r) == multiset(sorted) + multiset{h} && |r| == |sorted| + 1
  {
    if sorted == [] then [h]
    else if sorted[0].score >= h.score then
      assert sorted == [sorted[0]] + sorted[1..];
      [sorted[0]] + Insert(sorted[1..], h)
    else [h] + sorted
  }

  /** The stable descending sort of `similarities` by `similarity_score`. */
  function SortDesc(s: seq<SearchHit>): (r: seq<SearchHit>)
    ensures multiset(r) == multiset(s) && |r| == |s|
  {
    if s == [] then []
    else
      assert s == s[..|s| - 1] + [s[|s| - 1]];
      Insert(SortDesc(s[..|s| - 1]), s[|s| - 1])
  }

  predicate NonIncreasing(r: seq<SearchHit>) {
    forall i, j :: 0 <= i < j < |r| ==> r[i].score >= r[j].score
  }

  /** `a` comes before `b` in a stable descending sort of rows listed in chunk id order. */
  predicate Before(a: SearchHit, b: SearchHit) {
    a.score > b.score || (a.score == b.score && a.chunkId < b.chunkId)
  }

  predicate Ranked(r: seq<SearchHit>) {
    forall i, j :: 0 <= i < j < |r| ==> Before(r[i], r[j])
  }

  predicate IdsIncreasing(s: seq<SearchHit>) {
    forall i, j :: 0 <= i < j < |s| ==> s[i].chunkId < s[j].chunkId
  }

  lemma {:induction false} InsertRanked(sorted: seq<SearchHit>, h: SearchHit)
    requires Ranked(sorted) && forall x :: x in sorted ==> x.chunkId < h.chunkId
    ensures Ranked(Insert(sorted, h))
    decreases |sorted|
  {
    if sorted != [] && sorted[0].score >= h.score {
      var rest := sorted[1..];
      InsertRanked(rest, h);
      var ins := Insert(rest, h);
      forall x | x in ins ensures Before(sorted[0], x) {
        assert x in multiset(ins);
        if x != h {
          assert x in rest;
          var k :| 0 <= k < |rest| && rest[k] == x;
          assert sorted[k + 1] == x;
        }
      }
      ConsRanked(sorted[0], ins);
    } else if sorted != [] {
      forall x | x in sorted ensures Before(h, x) {
        var k :| 0 <= k < |sorted| && sorted[k] == x;
        if k > 0 { assert Before(sorted[0], sorted[k]); }
      }
      ConsRanked(h, sorted);
    }
  }

  /** An entry that comes before every entry of a ranked list can head it. */
  lemma ConsRanked(x: SearchHit, r: seq<SearchHit>)
    requires Ranked(r) && forall y :: y in r ==> Before(x, y)
    ensures Ranked([x] + r)
  {
    var l := [x] + r;
    forall i, j | 0 <= i < j < |l| ensures Before(l[i], l[j]) {
      assert l[j] == r[j - 1];
      if i > 0 { assert l[i] == r[i - 1]; }
    }
  }

  /** Sorting rows listed in increasing chunk id order ranks them by score, highest first,
      and among equal scores by increasing chunk id: the stable sort keeps row order. */
  lemma {:induction false} SortDescRanked(s: seq<SearchHit>)
    requires IdsIncreasing(s)
    ensures Ranked(SortDesc(s))
  {
    if s != [] {
      var init, last := s[..|s| - 1], s[|s| - 1];
      assert IdsIncreasing(init);
      SortDescRanked(init);
      forall x | x in SortDesc(init) ensures x.chunkId < last.chunkId {
        assert x in multiset(SortDesc(init));
        assert x in init;
      }
      InsertRanked(SortDesc(init), last);
    }
  }

  lemma RankedIsNonIncreasing(r: seq<SearchHit>)
    requires Ranked(r)
    ensures NonIncreasing(r)
  {
    forall i, j | 0 <= i < j < |r| ensures r[i].score >= r[j].score {
      assert Before(r[i], r[j]);
    }
  }

  lemma PrefixOfRanked(r: seq<SearchHit>, k: int)
    requires Ranked(r)
    ensures Ranked(PyPrefix(r, k))
  {
    var p := PyPrefix(r, k);
    forall i, j | 0 <= i < j < |p| ensures Before(p[i], p[j]) {
      assert p[i] == r[i] && p[j] == r[j];
    }
  }

  /** Every entry of a prefix of a ranked list comes before every entry left out of it. */
  lemma PrefixOutranksRest(sorted: seq<SearchHit>, n: nat)
    requires Ranked(sorted) && n <= |sorted|
    ensures forall h, x :: h in sorted[..n] && x in sorted && x !in sorted[..n] ==> Before(h, x)
  {
    forall h, x | h in sorted[..n] && x in sorted && x !in sorted[..n] ensures Before(h, x) {
      var i :| 0 <= i < n && sorted[..n][i] == h;
      var k :| 0 <= k < |sorted| && sorted[k] == x;
      assert sorted[i] == h;
    }
  }

  /** A ranked list drawn from entries with increasing chunk ids repeats no chunk id. */
  lemma RankedIdsDistinct(s: seq<SearchHit>, r: seq<SearchHit>)
    requires IdsIncreasing(s) && Ranked(r)
    requires forall x :: x in r ==> x in s
    ensures forall i, j :: 0 <= i < j < |r| ==> r[i].chunkId != r[j].chunkId
  {
    forall i, j | 0 <= i < j < |r| ensures r[i].chunkId != r[j].chunkId {
      assert r[i] in r && r[j] in r;
      var a :| 0 <= a < |s| && s[a] == r[i];
      var b :| 0 <= b < |s| && s[b] == r[j];
      assert Before(r[i], r[j]);
      if a < b {
        assert s[a].chunkId < s[b].chunkId;
      } else if b < a {
        assert s[b].chunkId < s[a].chunkId;
      }
    }
  }

  /** `sorted(hits, reverse=True)[:k]` of rows listed in chunk id order keeps the best rows:
      no chunk id twice, and every row left out ranks after every row kept. */
  lemma TopOfSorted(hits: seq<SearchHit>, k: int)
    requires IdsIncreasing(hits)
    ensures var r := PyPrefix(SortDesc(hits), k);
      forall i, j :: 0 <= i < j < |r| ==> r[i].chunkId != r[j].chunkId
    ensures var r := PyPrefix(SortDesc(hits), k);
      forall h, x :: h in r && x in hits && x !in r ==> Before(h, x)
  {
    var sorted := SortDesc(hits);
    var r := PyPrefix(sorted, k);
    SortDescRanked(hits);
    PrefixOfRanked(sorted, k);
    PrefixOutranksRest(sorted, |r|);
    forall x | x in r ensures x in hits {
      assert x in multiset(sorted);
    }
    RankedIdsDistinct(hits, r);
    forall x | x in hits ensures x in sorted {
      assert x in multiset(hits);
    }
  }

  /** `s[:k]` for any integer `k`: a negative `k` drops `-k` entries from the end. */
  function PyPrefix<T>(s: seq<T>, k: int): (r: seq<T>)
    ensures k >= 0 ==> |r| == if k < |s| then k else |s|
    ensures k < 0 ==> |r| == if |s| + k > 0 then |s| + k else 0
    ensures r == s[..|r|]
  {
    if k >= 0 then (if k < |s| then s[..k] else s)
    else (if |s| + k > 0 then s[..|s| + k] else [])
  }
}
