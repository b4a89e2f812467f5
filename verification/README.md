# Product search: a Dafny model

This project models the search core of a product-search service. The service is written in
Java and uses Spring, Neo4j and a remote sentence-transformer. The model covers five parts:

- **Ingesting a catalogue record** (`ProductCsvImporter`). The categories cell is parsed. The
  combined text is built from the non-blank fields. That text is embedded through the caching
  client, and the node's properties are assembled.
- **The embedding client** (`SentenceTransformerEmbeddingService`). It has a per-text cache
  (`computeIfAbsent`) in front of a remote call. The call is tried at most five times, with an
  interruptible back-off sleep between attempts.
- **Reading a stored node back** (`ProductDto`). This covers `fromNode` with its unchecked casts,
  and equality and hashing by `sourceId` alone. The hash uses Java's 32-bit `int` arithmetic.
- **The scoring helpers**: the dot product, the norm and cosine similarity (`VectorUtils`), and
  the 0.4 / 0.6 blend (`HybridScorer`).
- **The three searches** (`ProductSearchService`):
  - text search: `ORDER BY score DESC LIMIT n` over the full-text index;
  - embedding search: a full scan, a stable sort by cosine, then `limit`;
  - hybrid search: the full-text rows in their order, each with the blended score.

Modules and files:

| file | module | models |
|---|---|---|
| `outcomes.dfy` | `Outcomes` | exceptions as `Result` values, and a stream `map` that stops at the first throw |
| `basics.dfy` | `Basics` | the smaller of two integers, associativity of concatenation |
| `squares.dfy` | `Squares` | facts about real squares that the norm proofs need |
| `text.dfy` | `Text` | `String.trim`, `isBlank`, `replace`, `split` and `join` |
| `vector_utils.dfy` | `VectorUtils` | `dotProduct`, `norm`, `cosineSimilarity` |
| `hybrid_scorer.dfy` | `HybridScorer` | `compute` |
| `ranking.dfy` | `Ranking` | a stable descending sort and the `limit` after it; also `ORDER BY … DESC LIMIT` |
| `products.dfy` | `Products` | `ProductDto` |
| `embedding_client.dfy` | `EmbeddingClient` | the cache and the retry loop |
| `csv_import.dfy` | `CsvImport` | `parseCategories`, the combined text, `ingestRecord` up to the write |
| `product_search.dfy` | `ProductSearch` | the three searches and their result builders |

Several things outside the code become parameters:

- `Math.sqrt` is a parameter `sqrt`. It is required to be a square root of every non-negative
  real (`IsSqrt`).
- The record store is a value. It holds the product nodes in scan order, a full-text index from
  a query to its unordered hits, and whether the store can answer at all.
- The remote embedding service is a pair of functions. The first says what attempt `n` for a
  text gets back. The second says whether the sleep after a failed attempt is interrupted.
- The search functions take the query embedding as an `embed` function.

Three behaviours of the code worth stating explicitly:

- Scores are not always non-negative. A cosine below zero is kept as the vector score, and it
  lowers the blended score.
- A record without an embedding is not excluded from hybrid scoring. `nodeEmbedding` gives it
  the empty vector, so it scores 0 and its blend is 40% of its text score. This is
  `MissingEmbeddingScoresZero`. The embedding search does exclude such records, through its
  `IS NOT NULL` query.
- The categories `fromNode` reads back are whatever list the store holds. The unchecked cast to
  `List<String>` checks nothing, so `Product.categories` is a list of store values.

## Model

| member | source | states |
|---|---|---|
| `Outcomes.MapAll` | src/main/java/net/desertrosedesigns/delta/search/service/ProductSearchService.java:36 | Mapping a throwing builder over rows succeeds exactly when every row's builder succeeds. On success the results are one per row and in row order. On failure the error is the first failing row's, and every earlier row succeeded. |
| `Text.Trim` | src/main/java/net/desertrosedesigns/delta/search/ingest/ProductCsvImporter.java:97 | The trimmed string starts and ends with a non-space character. It is empty exactly when the input is blank. |
| `Text.TrimSlice` | src/main/java/net/desertrosedesigns/delta/search/ingest/ProductCsvImporter.java:97 | The trimmed string is a contiguous slice of the input. Only space characters lie before and after it. |
| `Text.TrimChars` | src/main/java/net/desertrosedesigns/delta/search/ingest/ProductCsvImporter.java:97 | Trimming introduces no character that was not in the input. |
| `Text.TrimTrimmed` | src/main/java/net/desertrosedesigns/delta/search/ingest/ProductCsvImporter.java:97 | Trimming is the identity on a string that has no space at either end. |
| `Text.Remove` | src/main/java/net/desertrosedesigns/delta/search/ingest/ProductCsvImporter.java:95 | `replace(c, "")` removes every `c` and keeps every other character as often as it occurs. A string without `c` is unchanged. |
| `Text.RemoveAppend` | src/main/java/net/desertrosedesigns/delta/search/ingest/ProductCsvImporter.java:95 | Removal works character by character, in order: removing from a concatenation removes from each part. A single character is dropped exactly when it is `c`. |
| `Text.Split` | src/main/java/net/desertrosedesigns/delta/search/ingest/ProductCsvImporter.java:96 | There is at least one piece, and no piece contains the separator. Joining the pieces with the separator gives back the input. |
| `Text.SplitJoin` | src/main/java/net/desertrosedesigns/delta/search/ingest/ProductCsvImporter.java:96 | The other direction of the round trip: splitting a join of separator-free pieces gives the pieces back. |
| `Text.Join` | src/main/java/net/desertrosedesigns/delta/search/ingest/ProductCsvImporter.java:68-70 | A join is as long as its pieces together plus one separator between each pair of neighbours; joining nothing gives the empty string. |
| `Text.JoinChars` | src/main/java/net/desertrosedesigns/delta/search/ingest/ProductCsvImporter.java:68-70 | Every character of a join is the separator or comes from one of the pieces. |
| `Text.JoinContains` | src/main/java/net/desertrosedesigns/delta/search/ingest/ProductCsvImporter.java:68-70 | Every character of every piece occurs in the join. |
| `VectorUtils.DotProduct` | src/main/java/net/desertrosedesigns/delta/search/util/VectorUtils.java:9-15 | The loop returns the dot product over the indices both vectors have. It equals the dot product of the two vectors cut to the shorter length. |
| `VectorUtils.DotTruncates` | src/main/java/net/desertrosedesigns/delta/search/util/VectorUtils.java:11 | Only the components up to the shorter vector's length contribute. |
| `VectorUtils.DotIgnoresTail` | src/main/java/net/desertrosedesigns/delta/search/util/VectorUtils.java:11 | Extra components on the longer vector, on either side, change nothing. |
| `VectorUtils.DotSymmetric` | src/main/java/net/desertrosedesigns/delta/search/util/VectorUtils.java:12 | The dot product does not depend on the order of its arguments. |
| `VectorUtils.DotTruncationExample` | src/main/java/net/desertrosedesigns/delta/search/util/VectorUtils.java:9-15 | The dot product of `[1, 2, 3]` and `[1, 1]` is 3: the third component is ignored. |
| `VectorUtils.SumSquares` | src/main/java/net/desertrosedesigns/delta/search/util/VectorUtils.java:18 | The sum of squares is non-negative. It is zero exactly for the all-zero vector. |
| `VectorUtils.DotSelf` | src/main/java/net/desertrosedesigns/delta/search/util/VectorUtils.java:18 | The sum of squares is the dot product of a vector with itself. |
| `VectorUtils.Norm` | src/main/java/net/desertrosedesigns/delta/search/util/VectorUtils.java:17-19 | The norm is a non-negative real whose square is the sum of squares. It is zero exactly for the all-zero vector. |
| `VectorUtils.Cosine` | src/main/java/net/desertrosedesigns/delta/search/util/VectorUtils.java:21-27 | The cosine is 0 when either vector is all zeros, including the empty vector. It is 0 exactly when a vector is all zeros or the dot product is 0, and it is positive exactly when both are non-zero and the dot product is positive. Otherwise the cosine times the product of the norms is the dot product. |
| `VectorUtils.CosineSelf` | src/test/java/net/desertrosedesigns/delta/search/util/VectorUtilsTest.java:11-16 | Every non-zero vector has cosine 1 with itself. |
| `VectorUtils.CosineOrthogonalExample` | src/test/java/net/desertrosedesigns/delta/search/util/VectorUtilsTest.java:18-23 | The cosine of `[1, 0]` and `[0, 1]` is 0. |
| `VectorUtils.CosineSymmetric` | src/main/java/net/desertrosedesigns/delta/search/util/VectorUtils.java:21-27 | The cosine does not depend on the order of its arguments. |
| `VectorUtils.CosineEmpty` | src/main/java/net/desertrosedesigns/delta/search/util/VectorUtils.java:22-25 | Anything scored against the empty vector gets 0. |
| `HybridScorer.Compute` | src/main/java/net/desertrosedesigns/delta/search/util/HybridScorer.java:10-12 | The blend moves 60% of the way from the text score to the vector score. It lies between the two scores and equals them when they agree. |
| `HybridScorer.WeightsSumToOne` | src/main/java/net/desertrosedesigns/delta/search/util/HybridScorer.java:4-5 | The two weights sum to 1, and the vector weight is the larger. |
| `HybridScorer.ComputeMonotone` | src/main/java/net/desertrosedesigns/delta/search/util/HybridScorer.java:10-12 | Raising either score never lowers the blend. Raising one strictly raises the blend strictly. |
| `HybridScorer.VectorDominates` | src/main/java/net/desertrosedesigns/delta/search/util/HybridScorer.java:4-12 | With two different scores, the blend is higher when the higher one is the vector score. |
| `HybridScorer.ComputeExample` | src/test/java/net/desertrosedesigns/delta/search/util/HybridScorerTest.java:9-15 | Text score 0.5 and vector score 0.8 blend to `0.5 * 0.4 + 0.8 * 0.6`, which is 0.68. |
| `Ranking.Insert` | src/main/java/net/desertrosedesigns/delta/search/service/ProductSearchService.java:51 | Inserting into a descending sequence keeps it descending, and the result is a permutation of the input plus the new element. |
| `Ranking.InsertWithKey` | src/main/java/net/desertrosedesigns/delta/search/service/ProductSearchService.java:51 | Insertion is stable: for every key, the elements with that key stay in their input order. |
| `Ranking.SortDesc` | src/main/java/net/desertrosedesigns/delta/search/service/ProductSearchService.java:51 | The sort gives a descending permutation of the input. For every key, the elements with that key keep their input order. |
| `Ranking.TopK` | src/main/java/net/desertrosedesigns/delta/search/service/ProductSearchService.java:51-52 | The result holds `n` elements, or all of them when the input is shorter. They are in descending order and all drawn from the input. |
| `Ranking.TopKIsStableTopK` | src/main/java/net/desertrosedesigns/delta/search/service/ProductSearchService.java:51-52 | The result is the stable best-`n`. It is a sub-multiset of the input, no dropped element beats a kept one, and for each key the kept elements are the earliest ones with that key. |
| `Ranking.SortSorted` | src/main/java/net/desertrosedesigns/delta/search/service/ProductSearchService.java:51 | Sorting a sequence that is already descending changes nothing. |
| `Ranking.TopKSorted` | src/main/java/net/desertrosedesigns/delta/search/service/ProductSearchService.java:51-52 | A descending input no longer than the limit comes back whole. |
| `Ranking.SortExample` | src/main/java/net/desertrosedesigns/delta/search/service/ProductSearchService.java:51 | The scores `[0.2, 0.9, 0.5]` sort to `[0.9, 0.5, 0.2]`. |
| `Products.StringField` | src/main/java/net/desertrosedesigns/delta/search/model/ProductDto.java:50-55 | An absent key reads as "" and a string property reads as itself. Any other value is a `ClassCastException` naming the key. |
| `Products.CategoriesOf` | src/main/java/net/desertrosedesigns/delta/search/model/ProductDto.java:59-65 | A list passes through unchanged. Anything else, absence included, is the empty list. |
| `Products.FromNode` | src/main/java/net/desertrosedesigns/delta/search/model/ProductDto.java:48-57 | Reading succeeds exactly when each of the five string keys is absent or holds a string. A failure names the first offending key in argument order. |
| `Products.FromNodeFields` | src/main/java/net/desertrosedesigns/delta/search/model/ProductDto.java:48-57 | A successful read copies each present string. It reads `itemDetails` from the key `item_details`, puts "" for a missing property, and takes the categories as they are stored. |
| `Products.FromEmptyNode` | src/main/java/net/desertrosedesigns/delta/search/model/ProductDto.java:48-57 | A node with no properties reads as the all-empty product. |
| `Products.FromNodeFirstFailure` | src/main/java/net/desertrosedesigns/delta/search/model/ProductDto.java:49-55 | Example: when two keys are bad, the one evaluated first is reported (the general first-failure rule is in `Products.FromNode`). |
| `Products.Equals` | src/main/java/net/desertrosedesigns/delta/search/model/ProductDto.java:67-78 | A product is equal to itself, and equal products have equal hashes: `hashCode` agrees with `equals`. |
| `Products.EqualsIsEquivalence` | src/main/java/net/desertrosedesigns/delta/search/model/ProductDto.java:67-73 | Equality is reflexive, symmetric and transitive. |
| `Products.EqualsIgnoresOtherFields` | src/main/java/net/desertrosedesigns/delta/search/model/ProductDto.java:67-73 | Only `sourceId` decides equality: products differing in every other field are equal, and any two products with different ids are unequal. |
| `Products.ToInt32` | src/main/java/net/desertrosedesigns/delta/search/model/ProductDto.java:77 | Wrapping gives a 32-bit value that is congruent to the input modulo 2^32. A value already in range is unchanged. |
| `Products.StringHashCode` | src/main/java/net/desertrosedesigns/delta/search/model/ProductDto.java:75-78 | The character loop computes the wrapped `31 * h + c` hash and stays in `int` range. |
| `Products.StringHashIsPoly` | src/main/java/net/desertrosedesigns/delta/search/model/ProductDto.java:75-78 | Wrapping after every step gives the same hash as wrapping the exact polynomial once. |
| `Products.HashCode` | src/main/java/net/desertrosedesigns/delta/search/model/ProductDto.java:75-78 | `Objects.hash(sourceId)` is an `int`: `31 +` the polynomial hash of `sourceId`, wrapped to 32 bits once. |
| `Products.HashCodeExamples` | src/main/java/net/desertrosedesigns/delta/search/model/ProductDto.java:77 | The hash of `""` is 31 and the hash of `"a"` is 128. |
| `CsvImport.JavaSplit` | src/main/java/net/desertrosedesigns/delta/search/ingest/ProductCsvImporter.java:96 | Java's split is a prefix of the full split, and every piece it drops is empty. A string without the separator is one piece. Otherwise no trailing piece is empty. |
| `CsvImport.DropTrailingEmpty` | src/main/java/net/desertrosedesigns/delta/search/ingest/ProductCsvImporter.java:96 | Only trailing empty pieces are removed: the result is a prefix, it does not end with "", and every dropped piece is "". |
| `CsvImport.TrimAll` | src/main/java/net/desertrosedesigns/delta/search/ingest/ProductCsvImporter.java:97 | Each piece is trimmed, in place. |
| `CsvImport.NonEmpty` | src/main/java/net/desertrosedesigns/delta/search/ingest/ProductCsvImporter.java:98 | The kept pieces are the input's non-empty pieces, each as often as it occurs, and no empty piece is kept. |
| `CsvImport.NonEmptyAppend` | src/main/java/net/desertrosedesigns/delta/search/ingest/ProductCsvImporter.java:98 | The filter keeps input order: filtering a concatenation filters each part. A single piece is kept exactly when it is non-empty. |
| `CsvImport.ParseCategories` | src/main/java/net/desertrosedesigns/delta/search/ingest/ProductCsvImporter.java:91-100 | An absent or blank cell gives no categories. Every category returned is non-empty and trimmed, and contains no bracket or comma. |
| `CsvImport.CategoriesClean` | src/main/java/net/desertrosedesigns/delta/search/ingest/ProductCsvImporter.java:95-99 | For any cell, every category that the bracket removal, split, trim and filter yield is a proper category. |
| `CsvImport.ParseKeepsSegmentOrder` | src/main/java/net/desertrosedesigns/delta/search/ingest/ProductCsvImporter.java:95-99 | The categories are the non-empty trimmed comma segments, in input order. Java's dropping of trailing empty pieces makes no difference. |
| `CsvImport.DropTrailingNoEffect` | src/main/java/net/desertrosedesigns/delta/search/ingest/ProductCsvImporter.java:96-98 | Dropping trailing empty pieces before trimming and filtering changes nothing. |
| `CsvImport.ParseJoinRoundTrip` | src/main/java/net/desertrosedesigns/delta/search/ingest/ProductCsvImporter.java:91-100 | Parsing is idempotent: the comma-join of any parse result parses back to the same list. |
| `CsvImport.ParseClean` | src/main/java/net/desertrosedesigns/delta/search/ingest/ProductCsvImporter.java:95-99 | A non-empty list of proper categories parses back from its comma-join. |
| `CsvImport.ParsePieces` | src/main/java/net/desertrosedesigns/delta/search/ingest/ProductCsvImporter.java:95-99 | A cell whose bracket-free text is the comma-join of non-blank pieces parses to those pieces trimmed, in order. |
| `CsvImport.ParseBracketed` | src/main/java/net/desertrosedesigns/delta/search/ingest/ProductCsvImporter.java:95-99 | The list form `[a, b, c]` parses to its elements trimmed, in order. |
| `CsvImport.StripBrackets` | src/main/java/net/desertrosedesigns/delta/search/ingest/ProductCsvImporter.java:95 | For a bracket-free `s`, removing both brackets from `"[" + s + "]"` gives back `s`. |
| `CsvImport.NonBlank` | src/main/java/net/desertrosedesigns/delta/search/ingest/ProductCsvImporter.java:69 | The kept parts are non-blank and come from the input. None is kept exactly when every part is blank. |
| `CsvImport.NonBlankCounts` | src/main/java/net/desertrosedesigns/delta/search/ingest/ProductCsvImporter.java:69 | Each non-blank part is kept as often as it occurs, and no blank part is kept. |
| `CsvImport.NonBlankAppend` | src/main/java/net/desertrosedesigns/delta/search/ingest/ProductCsvImporter.java:69 | The filter keeps input order: filtering a concatenation filters each part. A single part is kept exactly when it is non-blank. |
| `CsvImport.CombinedText` | src/main/java/net/desertrosedesigns/delta/search/ingest/ProductCsvImporter.java:68-70 | The combined text is empty exactly when the title, description, item details and joined categories are all blank. |
| `CsvImport.JoinNonBlank` | src/main/java/net/desertrosedesigns/delta/search/ingest/ProductCsvImporter.java:68-70 | The part-by-part joining loop gives the join of the non-blank parts with single spaces. |
| `CsvImport.JoinNonBlankStep` | src/main/java/net/desertrosedesigns/delta/search/ingest/ProductCsvImporter.java:69-70 | One step of the joining: a blank part leaves the text as it was, and a part with content is appended, after a space unless it is the first kept part. |
| `CsvImport.CombinedTextAllPresent` | src/main/java/net/desertrosedesigns/delta/search/ingest/ProductCsvImporter.java:68-70 | When all four parts have content, the text is the four parts in order with one space between neighbours. |
| `CsvImport.CombinedTextSkipsBlank` | src/main/java/net/desertrosedesigns/delta/search/ingest/ProductCsvImporter.java:68-70 | With a blank description and blank categories, whatever their blank content, the text is the title and the item details with one space between. |
| `CsvImport.StoredNode` | src/main/java/net/desertrosedesigns/delta/search/ingest/ProductCsvImporter.java:72-88 | A stored node has exactly the seven properties the write sets. Its embedding property is the embedding as a list of numbers. |
| `CsvImport.IngestRoundTrip` | src/main/java/net/desertrosedesigns/delta/search/ingest/ProductCsvImporter.java:72-88 | `fromNode` of a stored node gives back the record's fields, its parsed categories and its combined text. |
| `CsvImport.ReadWrittenNode` | src/main/java/net/desertrosedesigns/delta/search/model/ProductDto.java:48-57 | A node holding the seven properties the importer writes reads back as the product with exactly those string fields and that category list. |
| `CsvImport.IngestRecord` | src/main/java/net/desertrosedesigns/delta/search/ingest/ProductCsvImporter.java:63-89 | A record is stored exactly when embedding its combined text succeeds. The stored node carries that embedding, and the client keeps the cache update. A failed embedding aborts the record with the client's error. |
| `CsvImport.SameTextEmbeddedOnce` | src/main/java/net/desertrosedesigns/delta/search/ingest/ProductCsvImporter.java:71 | A second record with the same combined text is answered from the cache. The client does not change, and both nodes store the same embedding. |
| `EmbeddingClient.Answer` | src/main/java/net/desertrosedesigns/delta/search/service/SentenceTransformerEmbeddingService.java:48-51 | A null body or an empty batch answers the empty vector; otherwise the answer is the first vector of the batch. |
| `EmbeddingClient.CallFrom` | src/main/java/net/desertrosedesigns/delta/search/service/SentenceTransformerEmbeddingService.java:35-64 | From attempt `n` on, the call makes at most five attempts. Every attempt before the last threw and its sleep completed. The last attempt settles the result. |
| `EmbeddingClient.CallService` | src/main/java/net/desertrosedesigns/delta/search/service/SentenceTransformerEmbeddingService.java:35-64 | The call makes between one and five attempts. Every attempt but the last threw and slept uninterrupted. The last one returned its answer, was the fifth failure and rethrows, or had its sleep interrupted. |
| `EmbeddingClient.CallServiceLoop` | src/main/java/net/desertrosedesigns/delta/search/service/SentenceTransformerEmbeddingService.java:37-63 | The `while (true)` loop gives the same result, attempt count and sleep count as the recursive definition. |
| `EmbeddingClient.Embed` | src/main/java/net/desertrosedesigns/delta/search/service/SentenceTransformerEmbeddingService.java:31-33 | A cached text is answered from the cache with no attempt. Otherwise the result and the attempt count are those of the remote call. A success is cached, and a failure leaves the client as it was. |
| `EmbeddingClient.EmbedTwice` | src/main/java/net/desertrosedesigns/delta/search/service/SentenceTransformerEmbeddingService.java:32 | Asking again for an embedded text gives the same vector with no remote attempt, whatever the remote does now. |
| `EmbeddingClient.EmbedKeepsOtherEntries` | src/main/java/net/desertrosedesigns/delta/search/service/SentenceTransformerEmbeddingService.java:32 | Embedding one text never changes another text's cache entry. |
| `EmbeddingClient.EmptyAnswerNoRetry` | src/main/java/net/desertrosedesigns/delta/search/service/SentenceTransformerEmbeddingService.java:48-49 | An empty answer on the first attempt is returned at once as the empty vector and cached. |
| `EmbeddingClient.FourFailuresThenSuccess` | src/main/java/net/desertrosedesigns/delta/search/service/SentenceTransformerEmbeddingService.java:37-55 | Four failures and then a batch return the batch's first vector after five attempts and four sleeps. |
| `EmbeddingClient.FiveFailures` | src/main/java/net/desertrosedesigns/delta/search/service/SentenceTransformerEmbeddingService.java:52-55 | Five failures rethrow the fifth failure's cause after four sleeps. |
| `EmbeddingClient.AtMostFiveAttempts` | src/main/java/net/desertrosedesigns/delta/search/service/SentenceTransformerEmbeddingService.java:17-55 | No call makes more than five attempts. A failure that is not an interruption comes only after the fifth attempt. |
| `EmbeddingClient.InterruptedStops` | src/main/java/net/desertrosedesigns/delta/search/service/SentenceTransformerEmbeddingService.java:56-61 | An interrupted back-off fails the call at once, with no further attempt: if attempts before `k` threw without interruption and the sleep after attempt `k` is interrupted, the call ends with `Interrupted` after `k` attempts and `k` sleeps. |
| `ProductSearch.FullTextRows` | src/main/java/net/desertrosedesigns/delta/search/service/ProductSearchService.java:33-35 | The query fails exactly when the store is unavailable. Otherwise it returns at most `limit` rows, best score first. |
| `ProductSearch.FullTextRowsAreTopK` | src/main/java/net/desertrosedesigns/delta/search/service/ProductSearchService.java:33-34 | The rows are the stable best `limit` of the index hits. |
| `ProductSearch.WithEmbedding` | src/main/java/net/desertrosedesigns/delta/search/service/ProductSearchService.java:47 | The scan returns only products with an embedding, and every product with an embedding. |
| `ProductSearch.WithEmbeddingCounts` | src/main/java/net/desertrosedesigns/delta/search/service/ProductSearchService.java:47 | Each product with an embedding is returned as often as the store holds it, and no other. |
| `ProductSearch.WithEmbeddingAppend` | src/main/java/net/desertrosedesigns/delta/search/service/ProductSearchService.java:47 | The scan keeps store order: scanning a concatenation scans each part. A single product is kept exactly when it has an embedding. |
| `ProductSearch.NodeEmbedding` | src/main/java/net/desertrosedesigns/delta/search/service/ProductSearchService.java:89-95 | A missing property is the empty vector, and a list of numbers is read as that vector. Anything else fails to convert. |
| `ProductSearch.NodeEmbeddingRoundTrip` | src/main/java/net/desertrosedesigns/delta/search/service/ProductSearchService.java:89-95 | A vector stored as a list of numbers, as the importer writes it, reads back unchanged. |
| `ProductSearch.BuildTextResult` | src/main/java/net/desertrosedesigns/delta/search/service/ProductSearchService.java:71-74 | A text result carries the product, the text score as both text and combined score, and vector score 0. It fails exactly when reading the product fails. |
| `ProductSearch.BuildVectorResult` | src/main/java/net/desertrosedesigns/delta/search/service/ProductSearchService.java:76-80 | A vector result carries the cosine as both vector and combined score, and text score 0. It fails exactly when the product or the embedding cannot be read. |
| `ProductSearch.BuildHybridResult` | src/main/java/net/desertrosedesigns/delta/search/service/ProductSearchService.java:82-87 | A hybrid result carries the text score, the cosine, and their blend as the combined score. |
| `ProductSearch.InlineBlendIsCompute` | src/main/java/net/desertrosedesigns/delta/search/service/ProductSearchService.java:85 | The inline `0.4 / 0.6` blend is `HybridScorer.compute`. |
| `ProductSearch.TextSearch` | src/main/java/net/desertrosedesigns/delta/search/service/ProductSearchService.java:30-38 | An unavailable store fails. The search succeeds exactly when the store answers and every full-text row's product reads back. Then there is one result per row, in row order, with the row's product and score. |
| `ProductSearch.TextSearchSorted` | src/main/java/net/desertrosedesigns/delta/search/service/ProductSearchService.java:33-36 | Text results are ordered by text score, best first. |
| `ProductSearch.EmbeddingSearch` | src/main/java/net/desertrosedesigns/delta/search/service/ProductSearchService.java:40-55 | An empty query embedding gives no results, and a failed embedding propagates. Otherwise the search succeeds exactly when the store answers and every product with an embedding reads back, both product and vector. Then there are at most `limit` results, best vector score first, each with no text score and the vector score as combined score. |
| `ProductSearch.ScoreAll` | src/main/java/net/desertrosedesigns/delta/search/service/ProductSearchService.java:49 | Scoring every product succeeds exactly when each reads back. Then there is one vector result per product, in order. |
| `ProductSearch.EmbeddingSearchScored` | src/main/java/net/desertrosedesigns/delta/search/service/ProductSearchService.java:46-53 | Once the query embeds and every product with an embedding scores, the search returns the best `limit` of those scores. |
| `ProductSearch.EmbeddingSearchAlreadySorted` | src/main/java/net/desertrosedesigns/delta/search/service/ProductSearchService.java:51-52 | When the scores already come out best first and there are no more than `limit` of them, the search returns them all unchanged. |
| `ProductSearch.VectorResultsKeepShape` | src/main/java/net/desertrosedesigns/delta/search/service/ProductSearchService.java:76-80 | Any selection of vector results has text score 0 and the vector score as combined score. |
| `ProductSearch.EmbeddingSearchIsTopK` | src/main/java/net/desertrosedesigns/delta/search/service/ProductSearchService.java:46-53 | The embedding results are the stable best `limit` of all scored products. |
| `ProductSearch.EmptyQueryIgnoresStore` | src/main/java/net/desertrosedesigns/delta/search/service/ProductSearchService.java:41-44 | An empty query embedding gives no results whatever the store holds, even when it is down. |
| `ProductSearch.BadEmbeddingFails` | src/main/java/net/desertrosedesigns/delta/search/service/ProductSearchService.java:94 | One product whose embedding is not a list of numbers fails the whole embedding search. |
| `ProductSearch.TwoRecordExample` | src/main/java/net/desertrosedesigns/delta/search/service/ProductSearchService.java:40-55 | With A at `[1, 0]`, B at `[0, 1]` and query `[1, 0]`, a search for two gives A with score 1, then B with score 0. |
| `ProductSearch.TwoScoredSearch` | src/main/java/net/desertrosedesigns/delta/search/service/ProductSearchService.java:46-53 | A store of two embedded products whose scores come out best first: a search for two returns both results in store order. |
| `ProductSearch.HybridSearch` | src/main/java/net/desertrosedesigns/delta/search/service/ProductSearchService.java:57-69 | An empty query embedding falls back to the text search, and a failed embedding propagates. Otherwise the search succeeds exactly when the store answers and every row's product and vector read back. Then there is one result per full-text row, in row order. Each has the row's product and score, the cosine of its vector with the query as vector score, and their blend as combined score. |
| `ProductSearch.HybridKeepsTextOrder` | src/main/java/net/desertrosedesigns/delta/search/service/ProductSearchService.java:62-67 | Hybrid search does not re-sort. With a usable query embedding, a successful hybrid search implies a successful text search, and both list the same products with the same text scores in the same order. |
| `ProductSearch.MissingEmbeddingScoresZero` | src/main/java/net/desertrosedesigns/delta/search/service/ProductSearchService.java:89-95 | In a hybrid search, a product without an embedding gets vector score 0 and a blend of 40% of its text score. |

## Left out

- I/O is not modelled: reading the CSV file, the Neo4j sessions and transactions, and the
  HTTP transport. The store and the remote are parameters.
- `importProducts` is not modelled. It applies `ingestRecord` to each CSV record and counts them,
  and CSV parsing belongs to a library.
- `ensureIndexes` is not modelled. It creates the full-text index, which is a side effect in the
  store only.
- The `MERGE … SET` write is not modelled. The model stops at the property map it would write,
  `StoredNode`.
- `UUID.randomUUID()` is a parameter, `sourceId`.
- The Spring controller and configuration are not part of this model, and neither is the Python
  embedding service.
- Timing is not modelled: the two-second back-off and the thirty-second timeout. A timeout is one
  more transport failure.
- Concurrency is not modelled. `ConcurrentHashMap.computeIfAbsent` is modelled as one atomic step
  on one client.
- `VectorUtils.Norm`: `Math.sqrt` is a parameter required to be an exact square root.
  IEEE-754 rounding, NaN and infinities are not modelled, and all arithmetic is on reals.
- `VectorUtils.Cosine`: the range [-1, 1] (Cauchy–Schwarz) is not stated. The contract gives the
  zero cases, the sign and the relation to the dot product.
- `Ranking.SortDesc`: the comparator sorts by key with `Double.compare`. The model orders reals,
  so `-0.0` against `0.0` and NaN are not modelled.
- `Ranking.TopK`: the full-text query's `ORDER BY score DESC` leaves the order of equal scores
  open. The model fixes it as index order, the same stable rule the embedding search's Java sort
  follows.
- `Text.IsBlank`: `String.isBlank` uses `Character.isWhitespace`, which differs from `trim`'s
  `c <= ' '` on some characters. Both are modelled with the `trim` notion.
- `Products.Equals`: both arguments are products. A comparison with `null` or with an object of
  another class, which answers false, is not modelled.
- `Products.StringHash`: characters are Dafny `char`s. Java hashes UTF-16 code units, so a
  character outside the Basic Multilingual Plane hashes differently.
- `Products.CategoriesOf`: the list is passed through whatever it holds. The model's values
  cannot be `null`.
- `ProductSearch.FullTextRows`: `limit` is a `nat`. A negative limit is rejected by the store,
  and by `Stream.limit` in the embedding search. It is not modelled, except that an empty query
  embedding answers with no results before the limit is ever used.
- `CsvImport.NonBlank`: its contract states membership and the all-blank case only. Counts are
  stated by `NonBlankCounts` and order by `NonBlankAppend`. Putting them in the function's own
  contract makes every proof that uses it too costly.
- `ProductSearch.WithEmbedding`: its contract states membership only. Counts are stated by
  `WithEmbeddingCounts` and order by `WithEmbeddingAppend`, for the same reason.
- `EmbeddingClient.Answer`: a batch whose first vector is JSON `null` is not modelled. The reply
  cannot hold one. In the service `callService` then returns `null` and `computeIfAbsent` caches
  nothing.
- `ProductSearch.NodeEmbedding`: a stored number is a real. Neo4j's integer-to-double conversion
  and its failure on a lossy integer are not modelled.
