/** `ProductSearchService`: full-text, embedding and hybrid product search
    over a record store.

    The store is a value: the product nodes in scan order, the full-text
    index as a function from a query to its unordered hits, and whether the
    store can run queries at all. The query embedding comes from an
    `embed` function, so a caching client, a stub or a failing service can
    stand behind it. `Math.sqrt` enters as `sqrt`, as in `VectorUtils`.
 */
module ProductSearch {

  import opened Outcomes
  import opened Basics
  import opened Products
  import opened VectorUtils
  import opened Ranking
  import HybridScorer

  /** `SearchResultDto`. */
  datatype SearchResult = SearchResult(
    product: Product,
    textScore: real,
    vectorScore: real,
    combinedScore: real)

  /** One row of the full-text index: a node and its relevance score. */
  datatype Hit = Hit(node: Node, score: real)

  datatype Store = Store(products: seq<Node>, fullText: string -> seq<Hit>, available: bool)

  function HitScore(h: Hit): real {
    h.score
  }

  function VectorScoreOf(r: SearchResult): real {
    r.vectorScore
  }

  function TextScoreOf(r: SearchResult): real {
    r.textScore
  }

  /** The full-text query `... ORDER BY score DESC LIMIT $limit`: the best
      `limit` hits, best first, ties in index order. */
  function FullTextRows(store: Store, query: string, limit: nat): (r: Result<seq<Hit>>)
    ensures r.Success? <==> store.available
    ensures r.Failure? ==> r.error == StoreUnavailable
    ensures r.Success? ==> |r.value| <= limit && SortedDesc(r.value, HitScore)
  {
    if !store.available then Failure(StoreUnavailable)
    else Success(TopK(store.fullText(query), HitScore, limit))
  }

  /** The rows are the best `limit` hits, best first, ties in index order,
      and no hit left out beats a row kept. */
  lemma FullTextRowsAreTopK(store: Store, query: string, limit: nat)
    requires store.available
    ensures IsStableTopK(FullTextRows(store, query, limit).value, store.fullText(query), HitScore, limit)
  {
    TopKIsStableTopK(store.fullText(query), HitScore, limit);
  }

  /** `MATCH (p:Product) WHERE p.embedding IS NOT NULL RETURN p`: the
      products that have an embedding, in scan order. */
  function WithEmbedding(nodes: seq<Node>): (r: seq<Node>)
    ensures forall i :: 0 <= i < |r| ==> "embedding" in r[i] && r[i] in nodes
    ensures forall n :: n in nodes && "embedding" in n ==> n in r
    ensures |r| <= |nodes|
  {
    if |nodes| == 0 then []
    else (if "embedding" in nodes[0] then [nodes[0]] else []) + WithEmbedding(nodes[1..])
  }

  /** The scan returns every product with an embedding as often as the store
      holds it, and no other. */
  lemma {:induction false} WithEmbeddingCounts(nodes: seq<Node>, n: Node)
    ensures multiset(WithEmbedding(nodes))[n] == if "embedding" in n then multiset(nodes)[n] else 0
  {
    if |nodes| > 0 {
      var h := if "embedding" in nodes[0] then [nodes[0]] else [];
      assert nodes == [nodes[0]] + nodes[1..];
      assert WithEmbedding(nodes) == h + WithEmbedding(nodes[1..]);
      WithEmbeddingCounts(nodes[1..], n);
      assert multiset(WithEmbedding(nodes)) == multiset(h) + multiset(WithEmbedding(nodes[1..]));
      assert multiset(nodes) == multiset([nodes[0]]) + multiset(nodes[1..]);
    }
  }

  /** The scan keeps the store's order, which the stable sort then uses to
      break ties: it distributes over concatenation, and a single node stays
      exactly when it has an embedding. */
  lemma {:induction false} WithEmbeddingAppend(a: seq<Node>, b: seq<Node>)
    ensures WithEmbedding(a + b) == WithEmbedding(a) + WithEmbedding(b)
    ensures |a| == 1 ==> WithEmbedding(a) == (if "embedding" in a[0] then a else [])
  {
    if |a| > 0 {
      var h := if "embedding" in a[0] then [a[0]] else [];
      assert (a + b)[0] == a[0] && (a + b)[1..] == a[1..] + b;
      assert WithEmbedding(a + b) == h + WithEmbedding(a[1..] + b);
      assert WithEmbedding(a) == h + WithEmbedding(a[1..]);
      WithEmbeddingAppend(a[1..], b);
      ConcatAssoc(h, WithEmbedding(a[1..]), WithEmbedding(b));
      if |a| == 1 {
        assert a[1..] == [];
      }
    } else {
      assert a + b == b;
    }
  }

  function AsReal(v: Value): Result<real> {
    if v.Num? then Success(v.x) else Failure(Uncoercible("embedding"))
  }

  /** `nodeEmbedding`: no property is the empty vector; a list of numbers is
      that vector; anything else fails to convert. */
  function NodeEmbedding(node: Node): (r: Result<Vector>)
    ensures "embedding" !in node ==> r == Success([])
    ensures r.Success? && "embedding" in node ==>
              node["embedding"].List? && |r.value| == |node["embedding"].items|
              && forall i :: 0 <= i < |r.value| ==> node["embedding"].items[i] == Num(r.value[i])
    ensures r.Failure? ==> r.error == Uncoercible("embedding")
    ensures "embedding" in node && node["embedding"].List?
            && (forall i :: 0 <= i < |node["embedding"].items| ==> node["embedding"].items[i].Num?)
            ==> r.Success?
  {
    if "embedding" !in node then Success([])
    else
      match node["embedding"]
      case List(items) => MapAll(items, AsReal)
      case _ => Failure(Uncoercible("embedding"))
  }

  /** Both `fromNode` and `nodeEmbedding` succeed on the node. */
  predicate Readable(node: Node) {
    FromNode(node).Success? && NodeEmbedding(node).Success?
  }

  /** Every node in `nodes` is readable. */
  predicate AllReadable(nodes: seq<Node>) {
    forall i :: 0 <= i < |nodes| ==> Readable(nodes[i])
  }

  /** `buildTextResult`: the product with its text score, no vector score,
      and the text score as the combined score. */
  function BuildTextResult(h: Hit): (r: Result<SearchResult>)
    ensures r.Success? <==> FromNode(h.node).Success?
    ensures r.Success? ==> r.value == SearchResult(FromNode(h.node).value, h.score, 0.0, h.score)
    ensures r.Failure? ==> r == Failure(FromNode(h.node).error)
  {
    var product :- FromNode(h.node);
    Success(SearchResult(product, h.score, 0.0, h.score))
  }

  /** `buildVectorResult`: the cosine of the node's embedding against the
      query embedding is both the vector and the combined score. The product
      is read first, so a bad string field is reported before a bad
      embedding. */
  function BuildVectorResult(node: Node, query: Vector, sqrt: real -> real): (r: Result<SearchResult>)
    requires IsSqrt(sqrt)
    ensures r.Success? <==> FromNode(node).Success? && NodeEmbedding(node).Success?
    ensures r.Success? ==>
              var score := Cosine(NodeEmbedding(node).value, query, sqrt);
              r.value == SearchResult(FromNode(node).value, 0.0, score, score)
  {
    var product :- FromNode(node);
    var embedding :- NodeEmbedding(node);
    var score := Cosine(embedding, query, sqrt);
    Success(SearchResult(product, 0.0, score, score))
  }

  /** `buildHybridResult`, with the blend written inline as in the service. */
  function BuildHybridResult(h: Hit, query: Vector, sqrt: real -> real): (r: Result<SearchResult>)
    requires IsSqrt(sqrt)
    ensures r.Success? <==> FromNode(h.node).Success? && NodeEmbedding(h.node).Success?
    ensures r.Success? ==>
              && r.value.product == FromNode(h.node).value
              && r.value.textScore == h.score
              && r.value.vectorScore == Cosine(NodeEmbedding(h.node).value, query, sqrt)
              && r.value.combinedScore == HybridScorer.Compute(r.value.textScore, r.value.vectorScore)
  {
    var product :- FromNode(h.node);
    var embedding :- NodeEmbedding(h.node);
    var vectorScore := Cosine(embedding, query, sqrt);
    var combined := h.score * 0.4 + vectorScore * 0.6;
    InlineBlendIsCompute(h.score, vectorScore);
    Success(SearchResult(product, h.score, vectorScore, combined))
  }

  /** The service's inline blend is `HybridScorer.compute`. */
  lemma InlineBlendIsCompute(textScore: real, vectorScore: real)
    ensures textScore * 0.4 + vectorScore * 0.6 == HybridScorer.Compute(textScore, vectorScore)
  {
  }

  /** `textSearch`: one result per full-text row, in row order. */
  function TextSearch(store: Store, query: string, limit: nat): (r: Result<seq<SearchResult>>)
    ensures !store.available ==> r == Failure(StoreUnavailable)
    ensures r.Success? <==>
              store.available
              && var rows := FullTextRows(store, query, limit).value;
                 forall i :: 0 <= i < |rows| ==> FromNode(rows[i].node).Success?
    ensures r.Success? ==>
              var rows := FullTextRows(store, query, limit).value;
              && |r.value| == |rows| <= limit
              && forall i :: 0 <= i < |rows| ==>
                   && FromNode(rows[i].node) == Success(r.value[i].product)
                   && r.value[i].textScore == rows[i].score
                   && r.value[i].vectorScore == 0.0
                   && r.value[i].combinedScore == rows[i].score
  {
    var rows :- FullTextRows(store, query, limit);
    MapAll(rows, BuildTextResult)
  }

  /** `embeddingSearch`. An empty query embedding answers with no results
      before the store is consulted; otherwise every product with an
      embedding is scored, and the best `limit` by vector score are kept,
      ties in scan order. */
  function EmbeddingSearch(store: Store, embed: string -> Result<Vector>, query: string,
                           limit: nat, sqrt: real -> real): (r: Result<seq<SearchResult>>)
    requires IsSqrt(sqrt)
    ensures embed(query) == Success([]) ==> r == Success([])
    ensures embed(query).Failure? ==> r == Failure(embed(query).error)
    ensures embed(query).Success? && |embed(query).value| > 0 ==>
              (r.Success? <==> store.available && AllReadable(WithEmbedding(store.products)))
    ensures r.Success? ==> |r.value| <= limit && SortedDesc(r.value, VectorScoreOf)
    ensures r.Success? ==> forall i :: 0 <= i < |r.value| ==>
              r.value[i].textScore == 0.0 && r.value[i].combinedScore == r.value[i].vectorScore
  {
    var q :- embed(query);
    if |q| == 0 then Success([])
    else if !store.available then Failure(StoreUnavailable)
    else
      var nodes := WithEmbedding(store.products);
      var scored :- ScoreAll(nodes, q, sqrt);
      var best := TopK(scored, VectorScoreOf, limit);
      VectorResultsKeepShape(nodes, q, sqrt, scored, best);
      Success(best)
  }

  /** The stream's `map(buildVectorResult)`: scoring succeeds exactly when
      every product reads back, and then gives one result per product. */
  function ScoreAll(nodes: seq<Node>, q: Vector, sqrt: real -> real): (r: Result<seq<SearchResult>>)
    requires IsSqrt(sqrt)
    ensures r.Success? <==> AllReadable(nodes)
    ensures r.Success? ==>
              && |r.value| == |nodes|
              && forall i :: 0 <= i < |nodes| ==> BuildVectorResult(nodes[i], q, sqrt) == Success(r.value[i])
  {
    MapAll(nodes, n => BuildVectorResult(n, q, sqrt))
  }

  /** Every vector result has no text score and its vector score as the
      combined score, and so has any selection of them. */
  lemma VectorResultsKeepShape(nodes: seq<Node>, q: Vector, sqrt: real -> real,
                               scored: seq<SearchResult>, best: seq<SearchResult>)
    requires IsSqrt(sqrt)
    requires ScoreAll(nodes, q, sqrt) == Success(scored)
    requires forall i :: 0 <= i < |best| ==> best[i] in scored
    ensures forall i :: 0 <= i < |best| ==>
              best[i].textScore == 0.0 && best[i].combinedScore == best[i].vectorScore
  {
    forall i | 0 <= i < |best|
      ensures best[i].textScore == 0.0 && best[i].combinedScore == best[i].vectorScore
    {
      var j :| 0 <= j < |scored| && scored[j] == best[i];
      assert BuildVectorResult(nodes[j], q, sqrt) == Success(scored[j]);
    }
  }

  /** `hybridSearch`: an empty query embedding falls back to the text search;
      otherwise the full-text rows keep their order and each gets the blended
      score. */
  function HybridSearch(store: Store, embed: string -> Result<Vector>, query: string,
                        limit: nat, sqrt: real -> real): (r: Result<seq<SearchResult>>)
    requires IsSqrt(sqrt)
    ensures embed(query) == Success([]) ==> r == TextSearch(store, query, limit)
    ensures embed(query).Failure? ==> r == Failure(embed(query).error)
    ensures embed(query).Success? && |embed(query).value| > 0 ==>
              (r.Success? <==>
                 store.available
                 && var rows := FullTextRows(store, query, limit).value;
                    forall i :: 0 <= i < |rows| ==> Readable(rows[i].node))
    ensures r.Success? && embed(query).Success? && |embed(query).value| > 0 ==>
              && store.available
              && var rows := FullTextRows(store, query, limit).value;
              && |r.value| == |rows| <= limit
              && forall i :: 0 <= i < |rows| ==>
                   && FromNode(rows[i].node) == Success(r.value[i].product)
                   && r.value[i].textScore == rows[i].score
                   && NodeEmbedding(rows[i].node).Success?
                   && r.value[i].vectorScore
                      == Cosine(NodeEmbedding(rows[i].node).value, embed(query).value, sqrt)
                   && r.value[i].combinedScore
                      == HybridScorer.Compute(r.value[i].textScore, r.value[i].vectorScore)
  {
    var q :- embed(query);
    if |q| == 0 then TextSearch(store, query, limit)
    else
      var rows :- FullTextRows(store, query, limit);
      MapAll(rows, h => BuildHybridResult(h, q, sqrt))
  }

  /** The embedding results are exactly the best `limit` of all scored
      products by vector score, ties in scan order, and nothing is left out
      that beats a kept result. */
  lemma EmbeddingSearchIsTopK(store: Store, embed: string -> Result<Vector>, query: string,
                              limit: nat, sqrt: real -> real)
    requires IsSqrt(sqrt)
    requires embed(query).Success? && |embed(query).value| > 0
    requires EmbeddingSearch(store, embed, query, limit, sqrt).Success?
    ensures var q := embed(query).value;
            var scored := ScoreAll(WithEmbedding(store.products), q, sqrt);
            && scored.Success?
            && IsStableTopK(EmbeddingSearch(store, embed, query, limit, sqrt).value,
                            scored.value, VectorScoreOf, limit)
  {
    var q := embed(query).value;
    var scored := ScoreAll(WithEmbedding(store.products), q, sqrt);
    TopKIsStableTopK(scored.value, VectorScoreOf, limit);
  }

  /** An empty query embedding gives no results whatever the store holds,
      even when the store is down. */
  lemma EmptyQueryIgnoresStore(store: Store, other: Store, embed: string -> Result<Vector>,
                               query: string, limit: nat, sqrt: real -> real)
    requires IsSqrt(sqrt)
    requires embed(query) == Success([])
    ensures EmbeddingSearch(store, embed, query, limit, sqrt)
            == EmbeddingSearch(other, embed, query, limit, sqrt) == Success([])
  {
  }

  /** A text search is ordered by text score, best first. */
  lemma TextSearchSorted(store: Store, query: string, limit: nat)
    requires TextSearch(store, query, limit).Success?
    ensures SortedDesc(TextSearch(store, query, limit).value, TextScoreOf)
  {
    var rows := FullTextRows(store, query, limit).value;
    var r := TextSearch(store, query, limit).value;
    assert SortedDesc(rows, HitScore);
    forall i, j | 0 <= i < j < |r| ensures TextScoreOf(r[j]) <= TextScoreOf(r[i]) {
      assert HitScore(rows[j]) <= HitScore(rows[i]);
    }
  }

  /** Hybrid search does not re-sort: with a usable query embedding, a
      hybrid search that succeeds lists the same products with the same text
      scores, in the same order, as the text search, which succeeds too. */
  lemma HybridKeepsTextOrder(store: Store, embed: string -> Result<Vector>, query: string,
                             limit: nat, sqrt: real -> real)
    requires IsSqrt(sqrt)
    requires embed(query).Success? && |embed(query).value| > 0
    ensures var h := HybridSearch(store, embed, query, limit, sqrt);
            var t := TextSearch(store, query, limit);
            h.Success? ==>
              && t.Success?
              && |h.value| == |t.value|
              && forall i :: 0 <= i < |h.value| ==>
                   h.value[i].product == t.value[i].product && h.value[i].textScore == t.value[i].textScore
  {
    var h := HybridSearch(store, embed, query, limit, sqrt);
    if h.Success? {
      var q := embed(query).value;
      var rows := FullTextRows(store, query, limit).value;
      assert MapAll(rows, x => BuildHybridResult(x, q, sqrt)) == h;
      forall i | 0 <= i < |rows| ensures BuildTextResult(rows[i]).Success? {
        assert BuildHybridResult(rows[i], q, sqrt).Success?;
      }
    }
  }

  /** A product without an embedding still takes part in a hybrid search,
      with vector score 0, so its blend is 40% of its text score. */
  lemma MissingEmbeddingScoresZero(h: Hit, query: Vector, sqrt: real -> real)
    requires IsSqrt(sqrt)
    requires "embedding" !in h.node && FromNode(h.node).Success?
    ensures var r := BuildHybridResult(h, query, sqrt);
            && r.Success?
            && r.value.vectorScore == 0.0
            && r.value.combinedScore == 0.4 * h.score
  {
    CosineEmpty(query, sqrt);
  }

  /** A product whose stored embedding is not a list of numbers makes the
      whole embedding search fail. */
  lemma BadEmbeddingFails(store: Store, embed: string -> Result<Vector>, query: string,
                          limit: nat, sqrt: real -> real, i: nat)
    requires IsSqrt(sqrt)
    requires embed(query).Success? && |embed(query).value| > 0 && store.available
    requires i < |store.products| && "embedding" in store.products[i]
    requires FromNode(store.products[i]).Success? && NodeEmbedding(store.products[i]).Failure?
    ensures EmbeddingSearch(store, embed, query, limit, sqrt).Failure?
  {
    var q := embed(query).value;
    var nodes := WithEmbedding(store.products);
    assert store.products[i] in nodes;
    var j :| 0 <= j < |nodes| && nodes[j] == store.products[i];
    assert BuildVectorResult(nodes[j], q, sqrt).Failure?;
  }

  /** A product node with an id and a stored embedding and nothing else. */
  function EmbeddedNode(id: string, embedding: seq<real>): Node {
    map["sourceId" := Str(id), "embedding" := List(Nums(embedding))]
  }

  function Bare(id: string): Product {
    Product(id, "", "", "", [], "")
  }

  /** Reading a node back gives the product with its id and its vector. */
  lemma EmbeddedNodeProduct(id: string, embedding: seq<real>)
    ensures FromNode(EmbeddedNode(id, embedding)) == Success(Bare(id))
  {
    var n := EmbeddedNode(id, embedding);
    assert n.Keys == {"sourceId", "embedding"};
    assert StringKeys == ["sourceId", "title", "description", "item_details", "text"];
    assert n["sourceId"] == Str(id);
    assert forall i :: 0 <= i < |StringKeys| ==> Castable(n, StringKeys[i]);
    FromNodeFields(n);
  }

  /** A vector stored as a list of numbers reads back as the same vector:
      `nodeEmbedding` undoes the way the importer writes an embedding. */
  lemma NodeEmbeddingRoundTrip(n: Node, embedding: seq<real>)
    requires "embedding" in n && n["embedding"] == List(Nums(embedding))
    ensures NodeEmbedding(n) == Success(embedding)
  {
    var items := Nums(embedding);
    assert NodeEmbedding(n) == MapAll(items, AsReal);
    forall i | 0 <= i < |items| ensures AsReal(items[i]) == Success(embedding[i]) {
      assert items[i] == Num(embedding[i]);
    }
    var r := MapAll(items, AsReal);
    assert r.Success?;
    assert |r.value| == |embedding|;
    forall i | 0 <= i < |embedding| ensures r.value[i] == embedding[i] {
      assert AsReal(items[i]) == Success(r.value[i]);
    }
    assert r.value == embedding;
  }

  /** The query `[1, 0]` scores `[1, 0]` with 1 and `[0, 1]` with 0. */
  lemma ExampleScores(sqrt: real -> real)
    requires IsSqrt(sqrt)
    ensures BuildVectorResult(EmbeddedNode("A", [1.0, 0.0]), [1.0, 0.0], sqrt)
            == Success(SearchResult(Bare("A"), 0.0, 1.0, 1.0))
    ensures BuildVectorResult(EmbeddedNode("B", [0.0, 1.0]), [1.0, 0.0], sqrt)
            == Success(SearchResult(Bare("B"), 0.0, 0.0, 0.0))
  {
    var q := [1.0, 0.0];
    EmbeddedNodeProduct("A", q);
    NodeEmbeddingRoundTrip(EmbeddedNode("A", q), q);
    EmbeddedNodeProduct("B", [0.0, 1.0]);
    NodeEmbeddingRoundTrip(EmbeddedNode("B", [0.0, 1.0]), [0.0, 1.0]);
    assert !IsZero(q) by {
      assert q[0] != 0.0;
    }
    CosineSelf(q, sqrt);
    assert Dot([0.0, 1.0], q) == 0.0 by {
      assert [0.0, 1.0][1..] == [1.0] && q[1..] == [0.0];
    }
  }

  /** Once the query embeds and every product with an embedding scores,
      the embedding search is the best `limit` of those scores. */
  lemma EmbeddingSearchScored(store: Store, embed: string -> Result<Vector>, query: string,
                              limit: nat, sqrt: real -> real, scored: seq<SearchResult>)
    requires IsSqrt(sqrt)
    requires store.available && embed(query).Success? && |embed(query).value| > 0
    requires ScoreAll(WithEmbedding(store.products), embed(query).value, sqrt) == Success(scored)
    ensures EmbeddingSearch(store, embed, query, limit, sqrt) == Success(TopK(scored, VectorScoreOf, limit))
  {
  }

  /** Record A stores `[1, 0]`, record B stores `[0, 1]`, the query embeds as
      `[1, 0]`: the embedding search for two results lists A with score 1,
      then B with score 0. */
  lemma TwoRecordExample(store: Store, embed: string -> Result<Vector>, query: string,
                         sqrt: real -> real)
    requires IsSqrt(sqrt)
    requires store.available
    requires store.products == [EmbeddedNode("A", [1.0, 0.0]), EmbeddedNode("B", [0.0, 1.0])]
    requires embed(query) == Success([1.0, 0.0])
    ensures EmbeddingSearch(store, embed, query, 2, sqrt)
            == Success([SearchResult(Bare("A"), 0.0, 1.0, 1.0), SearchResult(Bare("B"), 0.0, 0.0, 0.0)])
  {
    ExampleScores(sqrt);
    TwoScoredSearch(store, embed, query, sqrt,
                    EmbeddedNode("A", [1.0, 0.0]), EmbeddedNode("B", [0.0, 1.0]),
                    SearchResult(Bare("A"), 0.0, 1.0, 1.0), SearchResult(Bare("B"), 0.0, 0.0, 0.0));
  }

  /** A store of two embedded products whose scores come out best first:
      a search for two returns both, in store order. */
  lemma TwoScoredSearch(store: Store, embed: string -> Result<Vector>, query: string,
                        sqrt: real -> real, a: Node, b: Node, ra: SearchResult, rb: SearchResult)
    requires IsSqrt(sqrt)
    requires store.available && store.products == [a, b]
    requires "embedding" in a && "embedding" in b
    requires embed(query).Success? && |embed(query).value| > 0
    requires BuildVectorResult(a, embed(query).value, sqrt) == Success(ra)
    requires BuildVectorResult(b, embed(query).value, sqrt) == Success(rb)
    requires rb.vectorScore <= ra.vectorScore
    ensures EmbeddingSearch(store, embed, query, 2, sqrt) == Success([ra, rb])
  {
    var q := embed(query).value;
    BothEmbedded(a, b);
    MapPair(a, b, ra, rb, n => BuildVectorResult(n, q, sqrt));
    assert ScoreAll([a, b], q, sqrt) == Success([ra, rb]);
    assert SortedDesc([ra, rb], VectorScoreOf);
    EmbeddingSearchAlreadySorted(store, embed, query, 2, sqrt, [ra, rb]);
  }

  /** When the scores come out best first and no more than `limit` of them,
      the embedding search returns them all, as scored. */
  lemma EmbeddingSearchAlreadySorted(store: Store, embed: string -> Result<Vector>, query: string,
                                     limit: nat, sqrt: real -> real, scored: seq<SearchResult>)
    requires IsSqrt(sqrt)
    requires store.available && embed(query).Success? && |embed(query).value| > 0
    requires ScoreAll(WithEmbedding(store.products), embed(query).value, sqrt) == Success(scored)
    requires SortedDesc(scored, VectorScoreOf) && |scored| <= limit
    ensures EmbeddingSearch(store, embed, query, limit, sqrt) == Success(scored)
  {
    TopKSorted(scored, VectorScoreOf, limit);
    EmbeddingSearchScored(store, embed, query, limit, sqrt, scored);
  }

  lemma BothEmbedded(a: Node, b: Node)
    requires "embedding" in a && "embedding" in b
    ensures WithEmbedding([a, b]) == [a, b]
  {
    assert [a, b][1..] == [b];
    assert [b][1..] == [];
  }

  lemma MapPair<A, B>(a: A, b: A, ra: B, rb: B, f: A -> Result<B>)
    requires f(a) == Success(ra) && f(b) == Success(rb)
    ensures MapAll([a, b], f) == Success([ra, rb])
  {
    var xs := [a, b];
    assert xs[0] == a && xs[1] == b;
    var r := MapAll(xs, f);
    assert r.Success?;
    assert f(xs[0]) == Success(r.value[0]) && f(xs[1]) == Success(r.value[1]);
    assert r.value == [ra, rb];
  }
}
