/** Nearest-neighbour retrieval over the passage table
    (generation/services/search_relevant_laws.py): the one-time embedding-model
    cache, the empty-matrix short-circuit, top-k selection by
    `argsort(-scores)[:k]`, and assembly of the result records. The cosine
    computation itself is an oracle over abstract reals. */
module Ranking {
  import opened Wrappers
  import opened Text

  type Vector = seq<real>

  /** One row of the passage table: text, page reference and stored embedding. */
  datatype Row = Row(sentenceChunk: string, pageNumber: int, embedding: Vector)

  /** One retrieved passage, the dict `{"score", "sentence_chunk", "page_number"}`. */
  datatype Doc = Doc(score: real, sentenceChunk: string, pageNumber: int)

  /** An embedding-model instance; only the checkpoint it was built from is visible. */
  datatype EmbeddingModel = EmbeddingModel(name: string)

  const ModelName: string := "huyydangg/DEk21_hcmute_embedding"

  const ImportErrorText: string :=
    "sentence-transformers is required to embed queries. Install it (and torch) or use an external embedding service."

  /** The embedding backend: whether the library imports, the (expensive)
      constructor of a model from a checkpoint name, and the encoder. */
  datatype Embedder = Embedder(
    available: bool,
    construct: string -> Outcome<EmbeddingModel>,
    encode: (EmbeddingModel, string) -> Outcome<Vector>)

  // ---------------------------------------------------------------------------
  // Embedding with the process-wide model cache
  // ---------------------------------------------------------------------------

  /** The query vector (or the failure that stopped it), the cache afterwards,
      and whether this call constructed a model. */
  datatype Embedding = Embedding(vector: Outcome<Vector>, cache: Option<EmbeddingModel>, constructed: bool)

  /** Import check, load-once model cache, then `model.encode(query)`. A model
      is constructed only while the cache is empty; a cached model is reused
      unchanged, even when encoding then fails. */
  function EmbedQuery(env: Embedder, cache: Option<EmbeddingModel>, query: string): (r: Embedding)
    ensures cache.Some? ==> r.cache == cache && !r.constructed
    ensures r.constructed <==> cache.None? && env.available && env.construct(ModelName).Ok?
    ensures r.constructed ==> r.cache == Some(env.construct(ModelName).value)
    ensures !env.available ==> r.vector == Fail(ImportErrorText)
    ensures r.vector.Ok? ==> r.cache.Some? && r.vector == env.encode(r.cache.value, query)
    ensures r.cache.Some? ==> cache.Some? || r.constructed
    ensures env.available && cache.None? && env.construct(ModelName).Fail? ==>
      r.cache == None && r.vector == Fail(env.construct(ModelName).error)
    ensures env.available && r.cache.Some? ==> r.vector == env.encode(r.cache.value, query)
  {
    if !env.available then Embedding(Fail(ImportErrorText), cache, false)
    else
      var loaded := if cache.Some? then Ok(cache.value) else env.construct(ModelName);
      match loaded
      case Fail(e) => Embedding(Fail(e), cache, false)
      case Ok(m) => Embedding(env.encode(m, query), Some(m), cache.None?)
  }

  /** A sequence of embedding calls threading the cache: the final cache and
      how many models were constructed along the way. */
  function EmbedAll(env: Embedder, cache: Option<EmbeddingModel>, queries: seq<string>): (Option<EmbeddingModel>, nat)
    decreases |queries|
  {
    if |queries| == 0 then (cache, 0)
    else
      var e := EmbedQuery(env, cache, queries[0]);
      var rest := EmbedAll(env, e.cache, queries[1..]);
      (rest.0, rest.1 + (if e.constructed then 1 else 0))
  }

  /** Over any run of calls the model is constructed at most once, and never
      once the cache is set; a set cache is never replaced. */
  lemma {:induction false} ConstructedAtMostOnce(env: Embedder, cache: Option<EmbeddingModel>, queries: seq<string>)
    ensures EmbedAll(env, cache, queries).1 <= 1
    ensures cache.Some? ==> EmbedAll(env, cache, queries) == (cache, 0)
    ensures EmbedAll(env, cache, queries).1 == 1 ==> EmbedAll(env, cache, queries).0.Some?
    ensures EmbedAll(env, cache, queries).0.Some? ==> cache.Some? || EmbedAll(env, cache, queries).1 == 1
    decreases |queries|
  {
    if |queries| > 0 {
      ConstructedAtMostOnce(env, EmbedQuery(env, cache, queries[0]).cache, queries[1..]);
    }
  }

  // ---------------------------------------------------------------------------
  // Scores
  // ---------------------------------------------------------------------------

  /** The stacked embedding matrix has no entries: no rows, or rows of width 0. */
  predicate MatrixEmpty(rows: seq<Row>) {
    forall i :: 0 <= i < |rows| ==> |rows[i].embedding| == 0
  }

  /** Every row has the query's width, so `m_norm.dot(q_norm)` is defined. */
  predicate Aligned(q: Vector, rows: seq<Row>) {
    forall i :: 0 <= i < |rows| ==> |rows[i].embedding| == |q|
  }

  /** numpy's `ValueError` text for `dot` of an `(n, d)` matrix with a vector of
      width `w != d`. */
  function ShapeErrorText(n: nat, d: nat, w: nat): string {
    "shapes (" + IntToString(n) + "," + IntToString(d) + ") and (" + IntToString(w)
      + ",) not aligned: " + IntToString(d) + " (dim 1) != " + IntToString(w) + " (dim 0)"
  }

  /** `_compute_cosine_scores`: an empty matrix scores to the empty array; a
      query whose width differs from the matrix's makes the dot product raise;
      otherwise one score per row, `cosine` standing for the normalised dot
      product of the row with the query. The matrix's width is that of its
      first row (`np.vstack` refuses ragged tables when the table is loaded). */
  function CosineScores(q: Vector, rows: seq<Row>, cosine: (Vector, Vector) -> real): (r: Outcome<seq<real>>)
    ensures MatrixEmpty(rows) ==> r == Ok([])
    ensures r.Fail? <==> !MatrixEmpty(rows) && !Aligned(q, rows)
    ensures r.Fail? ==> |rows| > 0 && r.error == ShapeErrorText(|rows|, |rows[0].embedding|, |q|)
    ensures r.Ok? ==> (|r.value| == 0 <==> MatrixEmpty(rows))
    ensures r.Ok? && |r.value| > 0 ==> |r.value| == |rows|
    ensures r.Ok? && |r.value| > 0 ==> forall i :: 0 <= i < |rows| ==> r.value[i] == cosine(rows[i].embedding, q)
  {
    if MatrixEmpty(rows) then Ok([])
    else if !Aligned(q, rows) then Fail(ShapeErrorText(|rows|, |rows[0].embedding|, |q|))
    else Ok(seq(|rows|, i requires 0 <= i < |rows| => cosine(rows[i].embedding, q)))
  }

  /** A one-row table of width 2 against a query of width 3 raises numpy's
      shape error; against a query of width 2 it scores. */
  lemma WidthMismatchRaises(cosine: (Vector, Vector) -> real)
    ensures CosineScores([1.0, 2.0, 3.0], [Row("a", 1, [1.0, 0.0])], cosine)
      == Fail(ShapeErrorText(1, 2, 3))
    ensures CosineScores([1.0, 2.0], [Row("a", 1, [1.0, 0.0])], cosine)
      == Ok([cosine([1.0, 0.0], [1.0, 2.0])])
  {
    var rows := [Row("a", 1, [1.0, 0.0])];
    assert !MatrixEmpty(rows) by { assert |rows[0].embedding| != 0; }
    assert !Aligned([1.0, 2.0, 3.0], rows) by { assert |rows[0].embedding| != 3; }
    var r := CosineScores([1.0, 2.0], rows, cosine);
    assert r.Ok? && |r.value| == 1;
    assert r.value[0] == cosine([1.0, 0.0], [1.0, 2.0]);
    assert r.value == [cosine([1.0, 0.0], [1.0, 2.0])];
  }

  // ---------------------------------------------------------------------------
  // Top-k selection
  // ---------------------------------------------------------------------------

  /** Length of Python's `xs[:k]` for a list of length `n`: a negative `k`
      drops that many elements from the end. */
  function SliceCount(n: nat, k: int): (c: nat)
    ensures c <= n
    ensures k >= 0 ==> c == if k < n then k else n
    ensures k < 0 ==> c == if n + k > 0 then n + k else 0
  {
    if k >= 0 then (if k < n then k else n)
    else if n + k > 0 then n + k else 0
  }

  ghost predicate InRange(idx: seq<nat>, n: nat) {
    forall i :: 0 <= i < |idx| ==> idx[i] < n
  }

  ghost predicate Distinct(idx: seq<nat>) {
    forall i, j :: 0 <= i < j < |idx| ==> idx[i] != idx[j]
  }

  /** Scores never increase along `idx`. */
  ghost predicate Descending(scores: seq<real>, idx: seq<nat>)
    requires InRange(idx, |scores|)
  {
    forall i, j :: 0 <= i < j < |idx| ==> scores[idx[i]] >= scores[idx[j]]
  }

  /** Every index left out scores no higher than any index taken. */
  ghost predicate Dominates(scores: seq<real>, idx: seq<nat>)
    requires InRange(idx, |scores|)
  {
    forall i, j :: 0 <= i < |idx| && 0 <= j < |scores| && j !in idx ==> scores[j] <= scores[idx[i]]
  }

  /** `idx` is a valid answer of `argsort(-scores)[:k]`, whatever the order
      among equal scores. */
  ghost predicate IsTopK(scores: seq<real>, k: int, idx: seq<nat>) {
    && |idx| == SliceCount(|scores|, k)
    && InRange(idx, |scores|)
    && Distinct(idx)
    && Descending(scores, idx)
    && Dominates(scores, idx)
  }

  /** `perm` lists every index of `scores` exactly once with non-increasing
      scores: what `argsort(-scores)` returns under any tie order. */
  ghost predicate IsDescendingOrder(scores: seq<real>, perm: seq<nat>) {
    && |perm| == |scores|
    && InRange(perm, |scores|)
    && Distinct(perm)
    && (forall j :: 0 <= j < |scores| ==> j in perm)
    && Descending(scores, perm)
  }

  /** The top-k postcondition agrees with its reference definition: the first
      `k` entries of any descending ordering of all indices are a top-k. */
  lemma ArgsortPrefixIsTopK(scores: seq<real>, perm: seq<nat>, k: int)
    requires IsDescendingOrder(scores, perm)
    ensures IsTopK(scores, k, perm[..SliceCount(|scores|, k)])
  {
    var c := SliceCount(|scores|, k);
    var idx := perm[..c];
    forall i, j | 0 <= i < |idx| && 0 <= j < |scores| && j !in idx
      ensures scores[j] <= scores[idx[i]]
    {
      assert j in perm;
      var p :| 0 <= p < |perm| && perm[p] == j;
      assert forall q :: 0 <= q < c ==> perm[q] == idx[q];
      assert p >= c;
    }
  }

  /** A list holding every index below `n` has at least `n` entries. */
  lemma {:induction false} CoverHasLength(xs: seq<nat>, n: nat)
    requires forall j :: 0 <= j < n ==> j in xs
    ensures |xs| >= n
    decreases n
  {
    if n > 0 {
      assert n - 1 in xs;
      var p :| 0 <= p < |xs| && xs[p] == n - 1;
      var rest := xs[..p] + xs[p + 1..];
      forall j | 0 <= j < n - 1
        ensures j in rest
      {
        assert j in xs;
        var q :| 0 <= q < |xs| && xs[q] == j;
        if q < p {
          assert rest[q] == j;
        } else {
          assert rest[q - 1] == j;
        }
      }
      CoverHasLength(rest, n - 1);
    }
  }

  lemma CoverNeedsLength(xs: seq<nat>, n: nat)
    ensures (forall j :: 0 <= j < n ==> j in xs) ==> |xs| >= n
  {
    if forall j :: 0 <= j < n ==> j in xs {
      CoverHasLength(xs, n);
    }
  }

  /** The highest-scoring index not yet taken. */
  method PickBest(scores: seq<real>, taken: seq<nat>) returns (best: nat)
    requires InRange(taken, |scores|) && |taken| < |scores|
    ensures best < |scores| && best !in taken
    ensures forall j :: 0 <= j < |scores| && j !in taken ==> scores[j] <= scores[best]
  {
    var found := false;
    best := 0;
    for j := 0 to |scores|
      invariant !found ==> forall j' :: 0 <= j' < j ==> j' in taken
      invariant found ==> best < j && best !in taken
      invariant found ==> forall j' :: 0 <= j' < j && j' !in taken ==> scores[j'] <= scores[best]
    {
      if j !in taken && (!found || scores[j] > scores[best]) {
        best := j;
        found := true;
      }
    }
    CoverNeedsLength(taken, |scores|);
    assert found;
  }

  /** `np.argsort(-scores)[:k]` by repeated selection of the best remaining
      index. Ties are broken toward the lower index here, but the contract
      promises no tie order. */
  method SelectTopK(scores: seq<real>, k: int) returns (idx: seq<nat>)
    ensures IsTopK(scores, k, idx)
  {
    var count := SliceCount(|scores|, k);
    idx := [];
    while |idx| < count
      invariant |idx| <= count
      invariant InRange(idx, |scores|)
      invariant Distinct(idx)
      invariant Descending(scores, idx)
      invariant Dominates(scores, idx)
    {
      var best := PickBest(scores, idx);
      idx := idx + [best];
    }
  }

  /** The highest-scoring index below `n` that is not taken, when there is one. */
  lemma {:induction false} BestOutside(scores: seq<real>, taken: seq<nat>, n: nat) returns (best: nat)
    requires n <= |scores| && exists j :: 0 <= j < n && j !in taken
    ensures best < n && best !in taken
    ensures forall j :: 0 <= j < n && j !in taken ==> scores[j] <= scores[best]
    decreases n
  {
    if exists j :: 0 <= j < n - 1 && j !in taken {
      var b := BestOutside(scores, taken, n - 1);
      best := if n - 1 !in taken && scores[n - 1] > scores[b] then n - 1 else b;
    } else {
      best := n - 1;
    }
  }

  /** A valid top-k of some length that leaves an index out is shorter than
      the score array. */
  lemma MissingIndexShortens(scores: seq<real>, idx: seq<nat>, j: nat)
    requires InRange(idx, |scores|) && Distinct(idx)
    requires j < |scores| && j !in idx
    ensures |idx| < |scores|
  {
    var others := seq(|scores| - 1, i requires 0 <= i < |scores| - 1 => if i < j then i else i + 1);
    forall p | 0 <= p < |idx|
      ensures idx[p] in others
    {
      var x := idx[p];
      if x < j {
        assert others[x] == x;
      } else {
        assert others[x - 1] == x;
      }
    }
    DistinctInsideIsShorter(idx, others);
  }

  /** Appending the best remaining index keeps a top-k answer valid. */
  lemma ExtendByBest(scores: seq<real>, idx: seq<nat>, best: nat)
    requires InRange(idx, |scores|) && Distinct(idx) && Descending(scores, idx) && Dominates(scores, idx)
    requires best < |scores| && best !in idx
    requires forall j :: 0 <= j < |scores| && j !in idx ==> scores[j] <= scores[best]
    ensures var next := idx + [best];
      InRange(next, |scores|) && Distinct(next) && Descending(scores, next) && Dominates(scores, next)
  {
    var next := idx + [best];
    forall i, j | 0 <= i < |next| && 0 <= j < |scores| && j !in next
      ensures scores[j] <= scores[next[i]]
    {
      assert j !in idx;
    }
  }

  /** A valid answer that leaves no index out is a descending ordering. */
  lemma CoveringAnswerIsOrder(scores: seq<real>, idx: seq<nat>)
    requires InRange(idx, |scores|) && Distinct(idx) && Descending(scores, idx)
    requires forall j :: 0 <= j < |scores| ==> j in idx
    ensures IsDescendingOrder(scores, idx)
  {
    var all := seq(|scores|, i requires 0 <= i < |scores| => i);
    forall p | 0 <= p < |idx|
      ensures idx[p] in all
    {
      assert all[idx[p]] == idx[p];
    }
    DistinctInsideIsShorter(idx, all);
    CoverHasLength(idx, |scores|);
  }

  /** A top-k answer extends, one best remaining index at a time, to a
      descending ordering of all indices that starts with it. */
  lemma {:induction false} ExtendToOrder(scores: seq<real>, idx: seq<nat>) returns (perm: seq<nat>)
    requires InRange(idx, |scores|) && Distinct(idx) && Descending(scores, idx) && Dominates(scores, idx)
    ensures IsDescendingOrder(scores, perm)
    ensures |idx| <= |perm| && perm[..|idx|] == idx
    decreases |scores| - |idx|
  {
    if exists j :: 0 <= j < |scores| && j !in idx {
      var j :| 0 <= j < |scores| && j !in idx;
      MissingIndexShortens(scores, idx, j);
      var best := BestOutside(scores, idx, |scores|);
      ExtendByBest(scores, idx, best);
      var next := idx + [best];
      perm := ExtendToOrder(scores, next);
      assert perm[..|idx|] == perm[..|next|][..|idx|];
    } else {
      perm := idx;
      CoveringAnswerIsOrder(scores, idx);
    }
  }

  /** The converse of `ArgsortPrefixIsTopK`: every top-k answer is the first
      `k` entries of some descending ordering of all indices, so `IsTopK` holds
      exactly of the results `argsort(-scores)[:k]` can return. */
  lemma TopKIsArgsortPrefix(scores: seq<real>, k: int, idx: seq<nat>)
    requires IsTopK(scores, k, idx)
    ensures exists perm :: IsDescendingOrder(scores, perm) && idx == perm[..SliceCount(|scores|, k)]
  {
    var perm := ExtendToOrder(scores, idx);
    assert idx == perm[..SliceCount(|scores|, k)];
  }

  /** Distinct entries all drawn from `ys` are no more numerous than `ys`. */
  lemma {:induction false} DistinctInsideIsShorter(xs: seq<nat>, ys: seq<nat>)
    requires Distinct(xs)
    requires forall p :: 0 <= p < |xs| ==> xs[p] in ys
    ensures |xs| <= |ys|
    decreases |xs|
  {
    if |xs| > 0 {
      var x := xs[|xs| - 1];
      var q :| 0 <= q < |ys| && ys[q] == x;
      var rest := ys[..q] + ys[q + 1..];
      var init := xs[..|xs| - 1];
      forall p | 0 <= p < |init|
        ensures init[p] in rest
      {
        var r :| 0 <= r < |ys| && ys[r] == init[p];
        if r < q {
          assert rest[r] == init[p];
        } else {
          assert rest[r - 1] == init[p];
        }
      }
      DistinctInsideIsShorter(init, rest);
    }
  }

  lemma DistinctInsideNeedsLength(xs: seq<nat>, ys: seq<nat>)
    ensures Distinct(xs) && (forall p :: 0 <= p < |xs| ==> xs[p] in ys) ==> |xs| <= |ys|
  {
    if Distinct(xs) && (forall p :: 0 <= p < |xs| ==> xs[p] in ys) {
      DistinctInsideIsShorter(xs, ys);
    }
  }

  /** Position by position, one top-k scores no higher than another: the first
      `i + 1` entries of `a` would otherwise all sit among the first `i` of `b`. */
  lemma ScoreNotAbove(scores: seq<real>, k: int, a: seq<nat>, b: seq<nat>, i: nat)
    requires IsTopK(scores, k, a) && IsTopK(scores, k, b) && i < |a|
    ensures scores[a[i]] <= scores[b[i]]
  {
    var xs, ys := a[..i + 1], b[..i];
    forall p | 0 <= p < |xs|
      ensures scores[a[i]] > scores[b[i]] ==> xs[p] in ys
    {
      if scores[a[i]] > scores[b[i]] {
        assert scores[a[p]] >= scores[a[i]];
        assert a[p] in b;
        var q :| 0 <= q < |b| && b[q] == a[p];
        assert q < i;
        assert ys[q] == xs[p];
      }
    }
    assert Distinct(xs);
    DistinctInsideNeedsLength(xs, ys);
  }

  /** Top-k answers differ only in the order of equal scores: any two have the
      same score at every position. */
  lemma TopKScoresDetermined(scores: seq<real>, k: int, a: seq<nat>, b: seq<nat>)
    requires IsTopK(scores, k, a) && IsTopK(scores, k, b)
    ensures |a| == |b|
    ensures forall i :: 0 <= i < |a| ==> scores[a[i]] == scores[b[i]]
  {
    forall i | 0 <= i < |a|
      ensures scores[a[i]] == scores[b[i]]
    {
      ScoreNotAbove(scores, k, a, b, i);
      ScoreNotAbove(scores, k, b, a, i);
    }
  }

  // ---------------------------------------------------------------------------
  // Result records and the whole retrieval
  // ---------------------------------------------------------------------------

  /** One record per selected index, read from the score array and the row. */
  function BuildDocs(rows: seq<Row>, scores: seq<real>, idx: seq<nat>): (docs: seq<Doc>)
    requires |scores| == |rows| && InRange(idx, |rows|)
    ensures |docs| == |idx|
    ensures forall i :: 0 <= i < |idx| ==>
      docs[i] == Doc(scores[idx[i]], rows[idx[i]].sentenceChunk, rows[idx[i]].pageNumber)
  {
    seq(|idx|, i requires 0 <= i < |idx| =>
      Doc(scores[idx[i]], rows[idx[i]].sentenceChunk, rows[idx[i]].pageNumber))
  }

  /** Scoring the table against a successful embedding of the query. */
  function QueryScores(env: Embedder, cache: Option<EmbeddingModel>, rows: seq<Row>,
                       cosine: (Vector, Vector) -> real, query: string): Outcome<seq<real>>
    requires EmbedQuery(env, cache, query).vector.Ok?
  {
    CosineScores(EmbedQuery(env, cache, query).vector.value, rows, cosine)
  }

  /** `retrieve_relevant_laws(query, k)`: embed, score, and return the `k` best
      rows as records, best first, threading the model cache. */
  method RetrieveRelevantLaws(env: Embedder, cache: Option<EmbeddingModel>, rows: seq<Row>,
                              cosine: (Vector, Vector) -> real, query: string, k: int)
    returns (result: Outcome<seq<Doc>>, newCache: Option<EmbeddingModel>)
    ensures newCache == EmbedQuery(env, cache, query).cache
    ensures cache.Some? ==> newCache == cache
    ensures EmbedQuery(env, cache, query).vector.Fail? ==>
      result == Fail(EmbedQuery(env, cache, query).vector.error)
    ensures EmbedQuery(env, cache, query).vector.Ok? ==>
      (result.Fail? <==> QueryScores(env, cache, rows, cosine, query).Fail?)
    ensures EmbedQuery(env, cache, query).vector.Ok? && QueryScores(env, cache, rows, cosine, query).Fail? ==>
      result == Fail(QueryScores(env, cache, rows, cosine, query).error)
    ensures result.Ok? && MatrixEmpty(rows) ==> result.value == []
    ensures result.Ok? && !MatrixEmpty(rows) ==>
      && |result.value| == SliceCount(|rows|, k)
      && (forall i, j :: 0 <= i < j < |result.value| ==> result.value[i].score >= result.value[j].score)
      && var scores := QueryScores(env, cache, rows, cosine, query).value;
         exists idx :: IsTopK(scores, k, idx) && result.value == BuildDocs(rows, scores, idx)
  {
    var e := EmbedQuery(env, cache, query);
    newCache := e.cache;
    if e.vector.Fail? {
      return Fail(e.vector.error), newCache;
    }
    var scored := CosineScores(e.vector.value, rows, cosine);
    assert scored == QueryScores(env, cache, rows, cosine, query);
    if scored.Fail? {
      return Fail(scored.error), newCache;
    }
    var scores := scored.value;
    if |scores| == 0 {
      return Ok([]), newCache;
    }
    var idx := SelectTopK(scores, k);
    var docs := BuildDocs(rows, scores, idx);
    assert IsTopK(scores, k, idx) && docs == BuildDocs(rows, scores, idx);
    result := Ok(docs);
  }
}
