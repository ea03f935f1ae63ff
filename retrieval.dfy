/** `retrieveRelevantDocs`, the `RAGService` class that owns the corpus and its
    cached fingerprints, and the lazily built singleton `getRagService`.

    The first part states what retrieval computes as functions of the corpus,
    the vector cache and the query fingerprint; the lemmas there hold for any
    corpus whose ids are distinct and all cached. The classes at the end are
    the imperative code, proved to compute those functions. */
module Retrieval {
  import opened Primitives
  import opened StringHash
  import opened Similarity
  import opened Corpus
  import opened Ranking

  /** What a caller receives for one retrieved document. */
  datatype ScoredResult = ScoredResult(title: string, category: string, content: string, relevanceScore: real)

  /** The number of results when the caller gives no `k`. */
  const DefaultTopK: nat := 3

  /** The fixed additive bias on published scores. */
  const Bias: real := 0.3

  /** The published score `Math.max(0, Math.min(1, score + 0.3))`. */
  function Publish(raw: real): (p: real)
    ensures 0.0 <= p <= 1.0
    ensures 0.0 <= raw + Bias <= 1.0 ==> p == raw + Bias
    ensures raw + Bias > 1.0 ==> p == 1.0
    ensures raw + Bias < 0.0 ==> p == 0.0
  {
    MaxReal(0.0, MinReal(1.0, raw + Bias))
  }

  /** Clamping after a fixed shift keeps the order of scores. */
  lemma PublishMonotone(x: real, y: real)
    requires x <= y
    ensures Publish(x) <= Publish(y)
  {
  }

  /** Every cached vector has length `n`. */
  predicate VectorsOfLength(vectors: map<string, seq<real>>, n: nat) {
    forall id :: id in vectors ==> |vectors[id]| == n
  }

  /** Caching one more vector of length `n` keeps every cached vector of length `n`. */
  lemma VectorsOfLengthUpdate(vectors: map<string, seq<real>>, id: string, v: seq<real>, n: nat)
    requires VectorsOfLength(vectors, n) && |v| == n
    ensures VectorsOfLength(vectors[id := v], n)
  {
  }

  /** The `scores` list built by the scoring loop: one record, in corpus order,
      for each document that has a cached vector. */
  function ScoreAll(sqrt: real -> real, docs: seq<Doc>, vectors: map<string, seq<real>>, qv: seq<real>): seq<Scored>
    requires IsSquareRoot(sqrt)
    requires VectorsOfLength(vectors, |qv|)
  {
    if docs == [] then []
    else
      var d := docs[|docs| - 1];
      ScoreAll(sqrt, docs[..|docs| - 1], vectors, qv)
        + (if d.id in vectors then [Scored(d.id, Cosine(sqrt, qv, vectors[d.id]))] else [])
  }

  /** Every scoring record belongs to a corpus document with a cached vector and
      carries that document's similarity to the query. */
  lemma {:induction false} ScoreAllMember(sqrt: real -> real, docs: seq<Doc>, vectors: map<string, seq<real>>, qv: seq<real>, y: Scored)
    requires IsSquareRoot(sqrt)
    requires VectorsOfLength(vectors, |qv|)
    requires y in ScoreAll(sqrt, docs, vectors, qv)
    ensures exists j :: 0 <= j < |docs| && docs[j].id in vectors &&
              y == Scored(docs[j].id, Cosine(sqrt, qv, vectors[docs[j].id]))
  {
    var n := |docs| - 1;
    var d := docs[n];
    var front := ScoreAll(sqrt, docs[..n], vectors, qv);
    if y in front {
      ScoreAllMember(sqrt, docs[..n], vectors, qv, y);
      var j :| 0 <= j < n && docs[..n][j].id in vectors &&
               y == Scored(docs[..n][j].id, Cosine(sqrt, qv, vectors[docs[..n][j].id]));
      assert docs[..n][j] == docs[j];
    } else {
      assert d.id in vectors && y == Scored(d.id, Cosine(sqrt, qv, vectors[d.id]));
    }
  }

  /** When every document has a cached vector, each document is scored exactly
      once, in corpus order. */
  lemma {:induction false} ScoreAllCovers(sqrt: real -> real, docs: seq<Doc>, vectors: map<string, seq<real>>, qv: seq<real>)
    requires IsSquareRoot(sqrt)
    requires VectorsOfLength(vectors, |qv|)
    requires forall i :: 0 <= i < |docs| ==> docs[i].id in vectors
    ensures |ScoreAll(sqrt, docs, vectors, qv)| == |docs|
    ensures forall i :: 0 <= i < |docs| ==>
              ScoreAll(sqrt, docs, vectors, qv)[i] == Scored(docs[i].id, Cosine(sqrt, qv, vectors[docs[i].id]))
  {
    if docs != [] {
      var n := |docs| - 1;
      ScoreAllCovers(sqrt, docs[..n], vectors, qv);
      forall i | 0 <= i < n ensures docs[..n][i] == docs[i] { }
    }
  }

  /** With distinct ids, the scoring records have distinct ids. */
  lemma ScoreAllDistinct(sqrt: real -> real, docs: seq<Doc>, vectors: map<string, seq<real>>, qv: seq<real>)
    requires IsSquareRoot(sqrt)
    requires VectorsOfLength(vectors, |qv|)
    requires forall i :: 0 <= i < |docs| ==> docs[i].id in vectors
    requires DistinctDocIds(docs)
    ensures DistinctIds(ScoreAll(sqrt, docs, vectors, qv))
  {
    ScoreAllCovers(sqrt, docs, vectors, qv);
  }

  /** The records kept after sorting and `.slice(0, k)`. */
  function TopK(sqrt: real -> real, docs: seq<Doc>, vectors: map<string, seq<real>>, qv: seq<real>, k: nat): seq<Scored>
    requires IsSquareRoot(sqrt)
    requires VectorsOfLength(vectors, |qv|)
  {
    var ranked := SortDesc(ScoreAll(sqrt, docs, vectors, qv));
    ranked[..Min(k, |ranked|)]
  }

  /** One element of the final `.map`: the title, category and content of the
      document found by id (empty strings if none is found) with the published
      score. */
  function Project(docs: seq<Doc>, item: Scored): ScoredResult {
    match Find(docs, item.id)
    case Some(d) => ScoredResult(d.title, d.category, d.content, Publish(item.score))
    case None => ScoredResult("", "", "", Publish(item.score))
  }

  function ProjectAll(docs: seq<Doc>, items: seq<Scored>): seq<ScoredResult> {
    seq(|items|, i requires 0 <= i < |items| => Project(docs, items[i]))
  }

  /** What `retrieveRelevantDocs` returns for a query with fingerprint `qv`. */
  function Retrieve(sqrt: real -> real, docs: seq<Doc>, vectors: map<string, seq<real>>, qv: seq<real>, k: nat): seq<ScoredResult>
    requires IsSquareRoot(sqrt)
    requires VectorsOfLength(vectors, |qv|)
  {
    ProjectAll(docs, TopK(sqrt, docs, vectors, qv, k))
  }

  /** Retrieval returns `min(k, |docs|)` results, whatever the query, in
      particular for the empty query. */
  lemma RetrieveCount(sqrt: real -> real, docs: seq<Doc>, vectors: map<string, seq<real>>, qv: seq<real>, k: nat)
    requires IsSquareRoot(sqrt)
    requires VectorsOfLength(vectors, |qv|)
    requires forall i :: 0 <= i < |docs| ==> docs[i].id in vectors
    ensures |Retrieve(sqrt, docs, vectors, qv, k)| == Min(k, |docs|)
  {
    ScoreAllCovers(sqrt, docs, vectors, qv);
    SortDescLength(ScoreAll(sqrt, docs, vectors, qv));
  }

  /** The kept records are non-increasing by raw score, and so the results are
      non-increasing by published score. */
  lemma RetrieveOrdered(sqrt: real -> real, docs: seq<Doc>, vectors: map<string, seq<real>>, qv: seq<real>, k: nat)
    requires IsSquareRoot(sqrt)
    requires VectorsOfLength(vectors, |qv|)
    ensures SortedDesc(TopK(sqrt, docs, vectors, qv, k))
    ensures var r := Retrieve(sqrt, docs, vectors, qv, k);
      forall i, j :: 0 <= i < j < |r| ==> r[i].relevanceScore >= r[j].relevanceScore
  {
    var ranked := SortDesc(ScoreAll(sqrt, docs, vectors, qv));
    SortDescSorted(ScoreAll(sqrt, docs, vectors, qv));
    var top := TopK(sqrt, docs, vectors, qv, k);
    assert forall i :: 0 <= i < |top| ==> top[i] == ranked[i];
    var r := Retrieve(sqrt, docs, vectors, qv, k);
    forall i, j | 0 <= i < j < |r| ensures r[i].relevanceScore >= r[j].relevanceScore {
      PublishMonotone(top[j].score, top[i].score);
    }
  }

  /** Ties keep corpus order: for every raw score value, the kept records with
      that score are the first of the corpus records with that score, in corpus
      order. */
  lemma TopKStable(sqrt: real -> real, docs: seq<Doc>, vectors: map<string, seq<real>>, qv: seq<real>, k: nat, c: real)
    requires IsSquareRoot(sqrt)
    requires VectorsOfLength(vectors, |qv|)
    ensures WithScore(TopK(sqrt, docs, vectors, qv, k), c) <= WithScore(ScoreAll(sqrt, docs, vectors, qv), c)
  {
    var scores := ScoreAll(sqrt, docs, vectors, qv);
    var ranked := SortDesc(scores);
    var top := TopK(sqrt, docs, vectors, qv, k);
    assert ranked == top + ranked[|top|..];
    WithScoreAppend(top, ranked[|top|..], c);
    SortDescStable(scores, c);
  }

  /** The kept records name pairwise different documents. */
  lemma TopKDistinct(sqrt: real -> real, docs: seq<Doc>, vectors: map<string, seq<real>>, qv: seq<real>, k: nat)
    requires IsSquareRoot(sqrt)
    requires VectorsOfLength(vectors, |qv|)
    requires forall i :: 0 <= i < |docs| ==> docs[i].id in vectors
    requires DistinctDocIds(docs)
    ensures DistinctIds(TopK(sqrt, docs, vectors, qv, k))
  {
    ScoreAllDistinct(sqrt, docs, vectors, qv);
    SortDescDistinct(ScoreAll(sqrt, docs, vectors, qv));
  }

  /** Result `r` is the projection of the kept record `y` of a corpus document
      found by id, with a cached vector: its title, category and content with
      the published similarity of that vector to the query. */
  ghost predicate ProjectsDoc(sqrt: real -> real, docs: seq<Doc>, vectors: map<string, seq<real>>, qv: seq<real>,
                              y: Scored, r: ScoredResult)
    requires IsSquareRoot(sqrt)
    requires VectorsOfLength(vectors, |qv|)
  {
    Find(docs, y.id).Some? &&
    var d := Find(docs, y.id).value;
    d.id in vectors &&
    r == ScoredResult(d.title, d.category, d.content, Publish(Cosine(sqrt, qv, vectors[d.id])))
  }

  /** A kept record belongs to a corpus document with a cached vector; its
      projection is that document's title, category and content with the
      published similarity of its vector to the query. */
  lemma KeptFromCorpus(sqrt: real -> real, docs: seq<Doc>, vectors: map<string, seq<real>>, qv: seq<real>, y: Scored)
    requires IsSquareRoot(sqrt)
    requires VectorsOfLength(vectors, |qv|)
    requires DistinctDocIds(docs)
    requires y in SortDesc(ScoreAll(sqrt, docs, vectors, qv))
    ensures ProjectsDoc(sqrt, docs, vectors, qv, y, Project(docs, y))
  {
    var scores := ScoreAll(sqrt, docs, vectors, qv);
    SortDescPermutation(scores);
    assert y in multiset(SortDesc(scores));
    ScoreAllMember(sqrt, docs, vectors, qv, y);
    var j :| 0 <= j < |docs| && docs[j].id in vectors &&
             y == Scored(docs[j].id, Cosine(sqrt, qv, vectors[docs[j].id]));
    FindDistinct(docs, j);
  }

  /** Every result is the projection of the kept record at the same position,
      taken from the corpus document with that id; the empty-string fallback
      is never taken. */
  lemma RetrieveFromCorpus(sqrt: real -> real, docs: seq<Doc>, vectors: map<string, seq<real>>, qv: seq<real>, k: nat)
    requires IsSquareRoot(sqrt)
    requires VectorsOfLength(vectors, |qv|)
    requires DistinctDocIds(docs)
    ensures var top, r := TopK(sqrt, docs, vectors, qv, k), Retrieve(sqrt, docs, vectors, qv, k);
      |r| == |top| &&
      forall i :: 0 <= i < |r| ==> ProjectsDoc(sqrt, docs, vectors, qv, top[i], r[i])
  {
    var ranked := SortDesc(ScoreAll(sqrt, docs, vectors, qv));
    var top := TopK(sqrt, docs, vectors, qv, k);
    var r := Retrieve(sqrt, docs, vectors, qv, k);
    forall i | 0 <= i < |r| ensures ProjectsDoc(sqrt, docs, vectors, qv, top[i], r[i]) {
      assert top[i] == ranked[i] && r[i] == Project(docs, top[i]);
      KeptFromCorpus(sqrt, docs, vectors, qv, top[i]);
    }
  }

  /** When the query and every cached vector have no negative entries (as
      fingerprints of hex digests do), every published score is at least the
      bias. */
  lemma RetrieveAtLeastBias(sqrt: real -> real, docs: seq<Doc>, vectors: map<string, seq<real>>, qv: seq<real>, k: nat)
    requires IsSquareRoot(sqrt)
    requires VectorsOfLength(vectors, |qv|)
    requires NonNegative(qv)
    requires forall id :: id in vectors ==> NonNegative(vectors[id])
    ensures var r := Retrieve(sqrt, docs, vectors, qv, k);
      forall i :: 0 <= i < |r| ==> Bias <= r[i].relevanceScore
  {
    var scores := ScoreAll(sqrt, docs, vectors, qv);
    var ranked := SortDesc(scores);
    var top := TopK(sqrt, docs, vectors, qv, k);
    var r := Retrieve(sqrt, docs, vectors, qv, k);
    SortDescPermutation(scores);
    forall i | 0 <= i < |r| ensures Bias <= r[i].relevanceScore {
      assert top[i] == ranked[i];
      assert top[i] in multiset(ranked);
      ScoreAllMember(sqrt, docs, vectors, qv, top[i]);
      var j :| 0 <= j < |docs| && docs[j].id in vectors &&
               top[i] == Scored(docs[j].id, Cosine(sqrt, qv, vectors[docs[j].id]));
      CosineNonNegative(sqrt, qv, vectors[docs[j].id]);
    }
  }

  /** `vectors` maps exactly the ids of the first `n` documents, each to the
      fingerprint of that document's content. */
  ghost predicate CachedUpTo(sha256: string -> string, docs: seq<Doc>, vectors: map<string, seq<real>>, n: nat)
    requires n <= |docs|
  {
    vectors.Keys == Ids(docs[..n]) &&
    (forall j :: 0 <= j < n ==> docs[j].id in vectors && vectors[docs[j].id] == Fingerprint(sha256(docs[j].content))) &&
    VectorsOfLength(vectors, Dim)
  }

  /** Caching the fingerprint of document `n` extends the cache by one document. */
  lemma CacheStep(sha256: string -> string, docs: seq<Doc>, vectors: map<string, seq<real>>, n: nat, v: seq<real>)
    requires n < |docs|
    requires forall j :: 0 <= j < n ==> docs[j].id != docs[n].id
    requires CachedUpTo(sha256, docs, vectors, n)
    requires v == Fingerprint(sha256(docs[n].content)) && |v| == Dim
    ensures CachedUpTo(sha256, docs, vectors[docs[n].id := v], n + 1)
  {
    var w := vectors[docs[n].id := v];
    VectorsOfLengthUpdate(vectors, docs[n].id, v, Dim);
    assert docs[..n + 1][..n] == docs[..n];
    assert w.Keys == vectors.Keys + {docs[n].id};
    forall j | 0 <= j < n + 1
      ensures docs[j].id in w && w[docs[j].id] == Fingerprint(sha256(docs[j].content))
    {
    }
  }

  /** A complete cache of hex-digest fingerprints has vectors of length `Dim`
      with no negative entries, one for every document. */
  lemma CachedVectors(rt: Runtime, docs: seq<Doc>, vectors: map<string, seq<real>>)
    requires rt.Valid()
    requires CachedUpTo(rt.sha256, docs, vectors, |docs|)
    ensures VectorsOfLength(vectors, Dim)
    ensures forall i :: 0 <= i < |docs| ==> docs[i].id in vectors
    ensures forall id :: id in vectors ==> NonNegative(vectors[id])
  {
    assert docs[..|docs|] == docs;
    forall id | id in vectors ensures NonNegative(vectors[id]) {
      IdsMember(docs, id);
      var j :| 0 <= j < |docs| && docs[j].id == id;
      HexFingerprint(rt.sha256(docs[j].content));
    }
  }

  /** Over a complete cache of hex-digest fingerprints, retrieval for `query`
      returns `min(k, |docs|)` results, each scored in [Bias, 1], in
      non-increasing order of score. */
  lemma CachedRetrieval(rt: Runtime, docs: seq<Doc>, vectors: map<string, seq<real>>, query: string, k: nat)
    requires rt.Valid()
    requires CachedUpTo(rt.sha256, docs, vectors, |docs|)
    ensures var r := Retrieve(rt.sqrt, docs, vectors, Fingerprint(rt.sha256(query)), k);
      |r| == Min(k, |docs|) &&
      (forall i :: 0 <= i < |r| ==> Bias <= r[i].relevanceScore <= 1.0) &&
      (forall i, j :: 0 <= i < j < |r| ==> r[i].relevanceScore >= r[j].relevanceScore)
  {
    var qv := Fingerprint(rt.sha256(query));
    HexFingerprint(rt.sha256(query));
    CachedVectors(rt, docs, vectors);
    RetrieveCount(rt.sqrt, docs, vectors, qv, k);
    RetrieveOrdered(rt.sqrt, docs, vectors, qv, k);
    RetrieveAtLeastBias(rt.sqrt, docs, vectors, qv, k);
  }

  /** The scoring loop of `retrieveRelevantDocs`: for each document in order
      that has a cached vector, its id and the similarity of that vector to
      the query vector. */
  method ScoreDocuments(sqrt: real -> real, documents: seq<Doc>, vectors: map<string, seq<real>>, queryVector: seq<real>)
    returns (scores: seq<Scored>)
    requires IsSquareRoot(sqrt)
    requires VectorsOfLength(vectors, |queryVector|)
    ensures scores == ScoreAll(sqrt, documents, vectors, queryVector)
  {
    scores := [];
    var i := 0;
    while i < |documents|
      invariant 0 <= i <= |documents|
      invariant scores == ScoreAll(sqrt, documents[..i], vectors, queryVector)
    {
      var doc := documents[i];
      assert documents[..i + 1][..i] == documents[..i];
      if doc.id in vectors {
        var docVector := vectors[doc.id];
        var similarity := CosineSimilarity(sqrt, queryVector, docVector);
        scores := scores + [Scored(doc.id, similarity)];
      }
      i := i + 1;
    }
    assert documents[..i] == documents;
  }

  /** The retrieval service: the corpus and the fingerprint of every document,
      computed once, keyed by document id. */
  class RAGService {
    const rt: Runtime
    const documents: seq<Doc>
    var vectors: map<string, seq<real>>

    /** The corpus ids are distinct, and `vectors` maps exactly those ids, each
        to the fingerprint of that document's content. */
    ghost predicate Valid()
      reads this
    {
      DistinctDocIds(documents) && CachedUpTo(rt.sha256, documents, vectors, |documents|)
    }

    /** `new RAGService()`: takes `RENTAL_PRICING_DOCS` as the corpus and
        fills the vector cache with the fingerprint of every document's
        content, stored under its id, document by document. */
    constructor (rt: Runtime)
      ensures Valid() && this.rt == rt && documents == RentalPricingDocs()
    {
      this.rt := rt;
      documents := RentalPricingDocs();
      vectors := map[];
      new;
      var i := 0;
      while i < |documents|
        invariant 0 <= i <= |documents|
        invariant CachedUpTo(rt.sha256, documents, vectors, i)
      {
        var doc := documents[i];
        var vector := GetStringHash(rt.sha256, doc.content);
        assert forall j :: 0 <= j < i ==> documents[j].id != doc.id;
        CacheStep(rt.sha256, documents, vectors, i, vector);
        vectors := vectors[doc.id := vector];
        i := i + 1;
      }
    }

    /** `retrieveRelevantDocs(query, k)`: scores every document, sorts the
        scores, keeps the first `k` and publishes them. */
    method RetrieveRelevantDocs(query: string, k: nat := DefaultTopK) returns (results: seq<ScoredResult>)
      requires Valid() && rt.Valid()
      ensures results == Retrieve(rt.sqrt, documents, vectors, Fingerprint(rt.sha256(query)), k)
      ensures |results| == Min(k, |documents|)
      ensures forall i :: 0 <= i < |results| ==> Bias <= results[i].relevanceScore <= 1.0
      ensures forall i, j :: 0 <= i < j < |results| ==> results[i].relevanceScore >= results[j].relevanceScore
    {
      var queryVector := GetStringHash(rt.sha256, query);
      var scores := ScoreDocuments(rt.sqrt, documents, vectors, queryVector);
      var a := new Scored[|scores|](j requires 0 <= j < |scores| => scores[j]);
      assert a[..] == scores;
      SortDescending(a);
      var ranked := a[..];
      results := ProjectAll(documents, ranked[..Min(k, |ranked|)]);
      CachedRetrieval(rt, documents, vectors, query, k);
    }
  }

  /** The module-level `ragService` variable and `getRagService()`. The ghost
      counter records how many services have been built. */
  class RagServiceRegistry {
    const rt: Runtime
    var ragService: RAGService?
    ghost var constructed: nat

    ghost predicate Valid()
      reads this, ragService
    {
      constructed <= 1 &&
      (ragService == null <==> constructed == 0) &&
      (ragService != null ==>
         ragService.Valid() && ragService.rt == rt && ragService.documents == RentalPricingDocs())
    }

    /** The state at module load: no service yet. */
    constructor (rt: Runtime)
      ensures Valid() && this.rt == rt && ragService == null && constructed == 0
    {
      this.rt := rt;
      ragService := null;
      constructed := 0;
    }

    /** `getRagService()`: builds the service on the first call only and
        returns the same instance on every call. */
    method GetRagService() returns (s: RAGService)
      requires Valid()
      modifies this
      ensures Valid() && ragService == s && s.Valid() && s.rt == rt && s.documents == RentalPricingDocs()
      ensures old(ragService) != null ==> s == old(ragService) && constructed == old(constructed)
      ensures old(ragService) == null ==> fresh(s) && constructed == 1
    {
      if ragService == null {
        ragService := new RAGService(rt);
        constructed := constructed + 1;
      }
      s := ragService;
    }
  }
}
