/** `EmbeddingGenerator` (rag.py:37-97). The sentence-transformer model is an abstract
    `Encoder`: it maps one text to a vector, and a call on a batch or a single text may
    raise, which the encoder records as a predicate on the call's input. Encoding a batch
    gives the encodings of its texts in order. */
module Embedding {
  /** An embedding; the float32 components are kept as reals. */
  type Vector = seq<real>

  /** `self.embedding_dim` (rag.py:43), the width of the all-MiniLM-L6-v2 model. */
  const EmbeddingDim: nat := 384

  /** The default `batch_size` of `generate_embeddings_batch` (rag.py:81). */
  const DefaultBatchSize: int := 32

  datatype Encoder = Encoder(
    encode: string -> Vector,
    batchFails: seq<string> -> bool,
    fails: string -> bool)

  /** `np.zeros(self.embedding_dim, dtype=np.float32)`. */
  function Zero(): (v: Vector)
    ensures |v| == EmbeddingDim && forall k :: 0 <= k < |v| ==> v[k] == 0.0
  {
    seq(EmbeddingDim, _ => 0.0)
  }

  /** One zero vector per text, the fallback of rag.py:95-97. */
  function Zeros(n: nat): (r: seq<Vector>)
    ensures |r| == n && forall k :: 0 <= k < n ==> r[k] == Zero()
  {
    seq(n, _ => Zero())
  }

  /** The encodings of `texts`, in order. */
  function EncodeAll(enc: Encoder, texts: seq<string>): (r: seq<Vector>)
    ensures |r| == |texts| && forall k :: 0 <= k < |texts| ==> r[k] == enc.encode(texts[k])
  {
    seq(|texts|, k requires 0 <= k < |texts| => enc.encode(texts[k]))
  }

  /** `generate_embedding` (rag.py:70-79): the encoding, or the zero vector when the
      encoder raises. */
  function GenerateEmbedding(enc: Encoder, text: string): (v: Vector)
    ensures enc.fails(text) ==> v == Zero()
    ensures !enc.fails(text) ==> v == enc.encode(text)
  {
    if enc.fails(text) then Zero() else enc.encode(text)
  }

  /** The batch `texts[i:i + batch_size]`. */
  function Batch(texts: seq<string>, i: nat, batchSize: nat): seq<string>
    requires i <= |texts|
  {
    texts[i..if i + batchSize < |texts| then i + batchSize else |texts|]
  }

  /** Whether some batch from offset `i` on makes the encoder raise. */
  function SomeBatchFails(enc: Encoder, texts: seq<string>, i: nat, batchSize: nat): bool
    requires 0 < batchSize
    decreases |texts| - i
  {
    if i >= |texts| then false
    else enc.batchFails(Batch(texts, i, batchSize)) || SomeBatchFails(enc, texts, i + batchSize, batchSize)
  }

  /** What `generate_embeddings_batch(texts, batch_size)` returns. `range(0, n, 0)` raises,
      so a zero batch size gives the zero fallback; a negative one gives an empty range and
      so an empty list. */
  function BatchEmbeddings(enc: Encoder, texts: seq<string>, batchSize: int): (r: seq<Vector>)
    ensures batchSize >= 0 ==> |r| == |texts|
  {
    if batchSize == 0 then Zeros(|texts|)
    else if batchSize < 0 then []
    else if SomeBatchFails(enc, texts, 0, batchSize) then Zeros(|texts|)
    else EncodeAll(enc, texts)
  }

  /** `EmbeddingGenerator.generate_embeddings_batch` (rag.py:81-97). */
  method GenerateEmbeddingsBatch(enc: Encoder, texts: seq<string>, batchSize: int) returns (embeddings: seq<Vector>)
    ensures embeddings == BatchEmbeddings(enc, texts, batchSize)
  {
    if batchSize == 0 {
      return Zeros(|texts|);
    }
    embeddings := [];
    if batchSize < 0 {
      return;
    }
    var i: nat := 0;
    while i < |texts|
      invariant embeddings == EncodeAll(enc, texts[..if i < |texts| then i else |texts|])
      invariant SomeBatchFails(enc, texts, 0, batchSize) == SomeBatchFails(enc, texts, i, batchSize)
      decreases |texts| - i
    {
      var batch := Batch(texts, i, batchSize);
      if enc.batchFails(batch) {
        return Zeros(|texts|);
      }
      ghost var j := if i + batchSize < |texts| then i + batchSize else |texts|;
      assert texts[..j] == texts[..i] + batch;
      EncodeAllAppend(enc, texts[..i], batch);
      embeddings := embeddings + EncodeAll(enc, batch);
      i := i + batchSize;
    }
    assert texts[..|texts|] == texts;
  }

  lemma EncodeAllAppend(enc: Encoder, a: seq<string>, b: seq<string>)
    ensures EncodeAll(enc, a + b) == EncodeAll(enc, a) + EncodeAll(enc, b)
  {
    var l, r := EncodeAll(enc, a + b), EncodeAll(enc, a) + EncodeAll(enc, b);
    forall k | 0 <= k < |l| ensures l[k] == r[k] {
      if k < |a| { assert (a + b)[k] == a[k]; } else { assert (a + b)[k] == b[k - |a|]; }
    }
  }

  /** Batch number `q` (covering `texts[q * batch_size:(q + 1) * batch_size]`) exists and
      makes the encoder raise. */
  predicate BatchFailsAt(enc: Encoder, texts: seq<string>, batchSize: nat, q: nat) {
    q * batchSize < |texts| && enc.batchFails(Batch(texts, q * batchSize, batchSize))
  }

  lemma MulMonotone(q: nat, q0: nat, b: nat)
    requires q0 <= q
    ensures q0 * b <= q * b
  {
  }

  lemma {:induction false} SomeBatchFailsFrom(enc: Encoder, texts: seq<string>, batchSize: nat, q0: nat)
    requires 0 < batchSize
    ensures SomeBatchFails(enc, texts, q0 * batchSize, batchSize)
            <==> exists q: nat :: q0 <= q && BatchFailsAt(enc, texts, batchSize, q)
    decreases |texts| - q0 * batchSize
  {
    var i := q0 * batchSize;
    if i >= |texts| {
      forall q: nat | q0 <= q ensures !BatchFailsAt(enc, texts, batchSize, q) {
        MulMonotone(q, q0, batchSize);
      }
    } else {
      assert (q0 + 1) * batchSize == i + batchSize;
      SomeBatchFailsFrom(enc, texts, batchSize, q0 + 1);
      if SomeBatchFails(enc, texts, i, batchSize) {
        if enc.batchFails(Batch(texts, i, batchSize)) {
          assert BatchFailsAt(enc, texts, batchSize, q0);
        }
      } else {
        forall q: nat | q0 <= q ensures !BatchFailsAt(enc, texts, batchSize, q) {
          if q == q0 {
          } else {
            assert q0 + 1 <= q;
          }
        }
      }
    }
  }

  /** `generate_embeddings_batch` returns one vector per input text (none at all for a
      negative batch size): the text's own encoding, in input order, when no batch raises,
      and otherwise -- a batch size of 0 raises too -- only zero vectors of dimension 384,
      discarding the batches already encoded. */
  lemma BatchEmbeddingsMeaning(enc: Encoder, texts: seq<string>, batchSize: int)
    ensures var r := BatchEmbeddings(enc, texts, batchSize);
      (batchSize < 0 ==> r == [])
      && (batchSize >= 0 ==> |r| == |texts|)
      && (batchSize > 0 && (forall q: nat :: !BatchFailsAt(enc, texts, batchSize, q)) ==>
            forall k :: 0 <= k < |texts| ==> r[k] == enc.encode(texts[k]))
      && (batchSize == 0 || (batchSize > 0 && exists q: nat :: BatchFailsAt(enc, texts, batchSize, q)) ==>
            forall k :: 0 <= k < |texts| ==> |r[k]| == EmbeddingDim && r[k] == Zero())
  {
    if batchSize > 0 {
      SomeBatchFailsFrom(enc, texts, batchSize, 0);
    }
  }
}
