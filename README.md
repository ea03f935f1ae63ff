# Retrieval for the Egyptian rental-pricing agent, in Dafny

This project models the retrieval service `server/services/rag.ts`. The pricing
agent uses it to find the reference documents that best match a query. The
model covers:

- the static knowledge base `RENTAL_PRICING_DOCS`: five documents with an id,
  title, category, content and a declared relevance score of 0;
- `getStringHash`, which turns a text into a 128-entry vector: character `i` of
  the text's SHA-256 hex digest becomes `charCode / 255`, and the vector is
  padded with zeros;
- `cosineSimilarity`, with its zero-norm guard;
- the `RAGService` class. Its constructor caches one vector per document id.
  `retrieveRelevantDocs(query, k)` scores every document, sorts the scores,
  keeps the first `k` and publishes each one as
  `max(0, min(1, score + 0.3))`;
- the lazily created singleton `getRagService`.

Modules, in dependency order:

- `Primitives`: `Option`, min and max, hex digests, and the `Runtime`. The
  runtime is the pair of outside functions the code calls, SHA-256 and
  `Math.sqrt`, passed in as function values. `Runtime.Valid()` says that every
  digest is 64 lower-case hex characters and that `sqrt` is an exact square
  root on the non-negative reals.
- `StringHash`: the fingerprint as a function (`Fingerprint`) and the
  two-loop method `GetStringHash` proved to compute it.
- `Similarity`: the dot product, `Cosine` as a function, and the one-loop
  method `CosineSimilarity` proved to compute it.
- `Corpus`: the documents and the lookup by id (`docs.find`).
- `Ranking`: the stable descending sort. `SortDesc` is the specification. An
  in-place insertion sort on an array, `SortDescending`, is proved equal to it.
  `StableSortIsSortDesc` shows that every sort which orders by descending score
  and keeps ties in input order gives exactly `SortDesc`. So the result does
  not depend on which stable algorithm the JavaScript engine uses.
- `Retrieval`: retrieval as functions of the corpus, the vector cache and the
  query vector (`ScoreAll`, `TopK`, `Retrieve`), the lemmas about them, and the
  two classes `RAGService` and `RagServiceRegistry`.

Scores are exact reals. `k` is a natural number. When the caller omits it,
`RetrieveRelevantDocs` uses the default `DefaultTopK`, which is 3.

## Model

| member | source | states |
|---|---|---|
| `StringHash.GetStringHash` | server/services/rag.ts:218-228 | the push loop over the digest and the zero-padding loop produce exactly `Fingerprint(sha256(text))`, a vector of 128 entries |
| `StringHash.FingerprintAt` | server/services/rag.ts:221-226 | a fingerprint has 128 entries; entry `i` is `charCode(digest[i]) / 255` when the digest has a character `i`, and 0 otherwise |
| `StringHash.FingerprintInUnitRange` | server/services/rag.ts:221-226 | when every digest character has a code of at most 255, every fingerprint entry lies in [0, 1] |
| `StringHash.HexFingerprint` | server/services/rag.ts:219-226 | the fingerprint of a SHA-256 hex digest has 128 entries, all in [0, 1] |
| `Similarity.Cosine` | server/services/rag.ts:241-242 | the similarity is 0 whenever either vector has squared norm 0 |
| `Similarity.QuotientTimesNorms` | server/services/rag.ts:242 | with both squared norms positive, the product of the square roots is positive and the quotient times it is the dot product |
| `Similarity.CosineTimesNorms` | server/services/rag.ts:241-242 | with both norms non-zero, the similarity times the (positive) product of the norms is the dot product |
| `Similarity.SelfSimilarity` | server/services/rag.ts:230-243 | a vector with non-zero norm has similarity exactly 1 with itself |
| `Similarity.CosineNonNegative` | server/services/rag.ts:230-243 | vectors with no negative entries have a non-negative similarity |
| `Similarity.CosineSimilarity` | server/services/rag.ts:230-243 | the loop that accumulates the dot product and both squared norms, followed by the zero-norm guard and the division, returns `Cosine(vec1, vec2)` |
| `Corpus.RentalPricingDocs` | server/services/rag.ts:6-212 | the corpus holds five documents with distinct ids, non-empty titles and contents, each declared with relevance score 0 |
| `Corpus.CorpusCategories` | server/services/rag.ts:10-164 | the set of categories of the corpus is exactly Market Analysis, Pricing Strategy, Launch Readiness, Risk Assessment and Technology |
| `Corpus.Find` | server/services/rag.ts:295 | a lookup by id returns the first document of the list with that id, and returns none exactly when no document has that id |
| `Corpus.FindDistinct` | server/services/rag.ts:295 | with distinct ids, looking up a document's id returns that document |
| `Corpus.IdsMember` | server/services/rag.ts:257-259 | an id is among the ids of a document list exactly when some document has it |
| `Ranking.SortDescPermutation` | server/services/rag.ts:292 | the sort is a permutation of the scores (same multiset) |
| `Ranking.SortDescLength` | server/services/rag.ts:292 | the sort keeps the number of records |
| `Ranking.SortDescSorted` | server/services/rag.ts:292 | the sort is non-increasing by score |
| `Ranking.SortDescStable` | server/services/rag.ts:292 | stability: for every score value, the records with that score keep their input order |
| `Ranking.StableSortIsSortDesc` | server/services/rag.ts:292 | any arrangement that is non-increasing and keeps ties in input order equals `SortDesc` of the input |
| `Ranking.SortDescDistinct` | server/services/rag.ts:292 | sorting records with distinct ids keeps the ids distinct |
| `Ranking.InsertDescAt` | server/services/rag.ts:292 | inserting a record places it after every record with a score at least as high and before every record with a lower score |
| `Ranking.ShiftedInsert` | server/services/rag.ts:292 | the array left by one shifting pass with the record written at its gap is the functional insertion |
| `Ranking.InsertIntoSorted` | server/services/rag.ts:292 | one pass of the in-place insertion sort inserts element `i` into the sorted prefix and leaves the rest of the array unchanged |
| `Ranking.SortDescending` | server/services/rag.ts:292 | the in-place sort of the score array leaves exactly `SortDesc` of its old contents |
| `Retrieval.Publish` | server/services/rag.ts:300 | the published score is in [0, 1]; it is the raw score plus 0.3 when that is in range, 1 above the range and 0 below it |
| `Retrieval.PublishMonotone` | server/services/rag.ts:300 | publishing keeps the order of scores |
| `Retrieval.ScoreAllMember` | server/services/rag.ts:282-288 | every scoring record belongs to a document with a cached vector and carries that document's similarity to the query |
| `Retrieval.ScoreAllCovers` | server/services/rag.ts:282-288 | when every document has a cached vector, there is one scoring record per document, in corpus order |
| `Retrieval.ScoreAllDistinct` | server/services/rag.ts:282-288 | with distinct document ids, the scoring records have distinct ids |
| `Retrieval.ScoreDocuments` | server/services/rag.ts:282-288 | the scoring loop computes `ScoreAll`: one record per document with a cached vector, in corpus order |
| `Retrieval.RetrieveCount` | server/services/rag.ts:291-302 | with every document cached, retrieval returns `min(k, number of documents)` results for every query, the empty one included |
| `Retrieval.RetrieveOrdered` | server/services/rag.ts:291-302 | the kept records are non-increasing by raw score, and the results are non-increasing by published score |
| `Retrieval.TopKStable` | server/services/rag.ts:291-293 | for every score value, the kept records with that score are a prefix of the scoring records with that score, in corpus order |
| `Retrieval.TopKDistinct` | server/services/rag.ts:291-293 | the kept records name pairwise different documents |
| `Retrieval.KeptFromCorpus` | server/services/rag.ts:294-301 | a kept record's projection is the title, category and content of the corpus document with its id, with the published similarity of that document's vector |
| `Retrieval.RetrieveFromCorpus` | server/services/rag.ts:294-301 | result `i` is taken from the corpus document named by kept record `i`, so the empty-string fallback is never used |
| `Retrieval.RetrieveAtLeastBias` | server/services/rag.ts:294-301 | when the query vector and every cached vector have no negative entries, every published score is at least 0.3 |
| `Retrieval.CacheStep` | server/services/rag.ts:257-260 | caching the fingerprint of the next document extends the cache by exactly that document |
| `Retrieval.CachedVectors` | server/services/rag.ts:257-260 | a complete cache holds a vector for every document, each of 128 entries, none negative |
| `Retrieval.CachedRetrieval` | server/services/rag.ts:266-305 | over a complete cache, retrieval returns `min(k, number of documents)` results with scores in [0.3, 1], in non-increasing order |
| `Retrieval.RAGService.constructor` | server/services/rag.ts:252-261 | the service holds `RENTAL_PRICING_DOCS`, and its cache maps exactly the document ids, each to the fingerprint of that document's content |
| `Retrieval.RAGService.RetrieveRelevantDocs` | server/services/rag.ts:266-305 | `k` defaults to 3; the results are `Retrieve` of the query's fingerprint: `min(k, number of documents)` of them, scores in [0.3, 1], non-increasing |
| `Retrieval.RagServiceRegistry.constructor` | server/services/rag.ts:309 | at module load there is no service |
| `Retrieval.RagServiceRegistry.GetRagService` | server/services/rag.ts:311-316 | the first call builds one fresh valid service holding the corpus; every later call returns that same instance and builds nothing |

## Left out

- SHA-256 itself (the `js-sha256` package) is not modelled. It is a function value in `Runtime`, assumed through `Runtime.Valid()` to return 64 lower-case hex characters.
- Floating point is not modelled. Scores, norms and quotients are exact reals, and `Math.sqrt` is an exact square root supplied by the runtime. The model therefore says nothing about rounding, and no NaN can arise.
- Each document's content is cut down to its first non-empty line. The leading newline that every content string starts with is dropped too. The full text is not needed, because retrieval only digests the content and copies it into the results.
- Retrieval.RAGService.RetrieveRelevantDocs: `k` is a natural number. JavaScript's `slice(0, k)` for a negative or fractional `k` is not modelled.
- Similarity.Cosine: the bound of the similarity to [-1, 1] (Cauchy-Schwarz) is not proved as a contract. Only the zero case, self-similarity, non-negativity and the product identity are.
- Ranking.SortDescending: the engine's own sort algorithm is not modelled. An insertion sort stands in for it, and this is sound because `StableSortIsSortDesc` shows that every stable descending sort gives the same result.
- Retrieval.TopKStable: ties are stated on the raw similarity, which is the key the code sorts on. The model does not work out how real digests score. If every raw score of one query is at least 0.7, every published score clamps to 1. The results then tie on the published score but stay ordered by raw score, not by corpus order. No lemma states this.
- Retrieval.RetrieveAtLeastBias: the lower bound is 0.3, not a strictly positive raw score. The model does not prove that a hex-digest fingerprint has a non-zero norm.
- Retrieval.ScoreDocuments: the scoring loop of `retrieveRelevantDocs` is a method of its own, which the class method calls. Its lines are those of the loop.
- The callback form of `forEach` and `map` is modelled as a plain loop and a sequence comprehension respectively.
- Concurrency is not modelled: the module runs single-threaded, so the singleton check and its assignment cannot interleave.
- The agent router, the database, and the client pages are not part of this model; they only call the retrieval service.
