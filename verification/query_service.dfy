/** The query service: the application state that startup fills with the
    vector index and the metadata catalog, and the similarity endpoint that
    decodes an uploaded image, embeds it, ranks the index against it and
    joins the ten best entries with their metadata.

    Image decoding, the embedding model and cosine similarity are external:
    they are parameters (`decode`, `embed`, `cos`), and a `None` from
    `decode` or `embed` stands for the exception the library raises. */
module QueryService {
  import opened Catalog
  import opened OrderedDicts
  import opened Ranking

  /** One element of the response's `results`: `{"product": ..., "similarity": ...}`. */
  datatype Match = Match(product: Product, similarity: real)

  /** `HTTPException(status_code=400, detail=...)`, or any other exception,
      which the framework turns into a 500 response. */
  datatype HttpError = BadRequest(detail: string) | InternalError

  const InvalidImageDetail: string := "Invalid image file."

  /** The `(key, value)` pairs that `{item['id']: item['vector'] for item in product_data}` stores. */
  function VectorPairs(records: seq<VectorRecord>): seq<(Id, Vector)> {
    seq(|records|, i requires 0 <= i < |records| => (records[i].id, records[i].vector))
  }

  /** `{item['id']: item['vector'] for item in product_data}` */
  function BuildVectorIndex(records: seq<VectorRecord>): Dict<Id, Vector> {
    FromPairs(VectorPairs(records))
  }

  /** The `(key, value)` pairs that `{item['id']: item for item in metadata}` stores. */
  function MetadataPairs(products: seq<Product>): seq<(Id, Product)> {
    seq(|products|, i requires 0 <= i < |products| => (products[i].id, products[i]))
  }

  /** `{item['id']: item for item in metadata}` */
  function BuildMetadata(products: seq<Product>): Dict<Id, Product> {
    FromPairs(MetadataPairs(products))
  }

  /** Every metadata entry is stored under its own id. */
  ghost predicate SelfKeyed(metadata: Dict<Id, Product>) {
    forall k :: k in metadata.items ==> metadata.items[k].id == k
  }

  /** The result list that the loop of `find_similar_products` builds from
      the kept ranked entries `top`: an entry whose id has metadata becomes a
      `Match`, any other entry is dropped. */
  function Respond(top: seq<Scored>, metadata: Dict<Id, Product>): seq<Match> {
    if top == [] then []
    else
      var last := top[|top| - 1];
      Respond(top[..|top| - 1], metadata) +
        match Get(metadata, last.id)
        case Some(info) => [Match(info, last.score)]
        case None => []
  }

  /** For each element of `Respond(top, metadata)`, the position in `top` of
      the entry it came from. */
  ghost function Origin(top: seq<Scored>, metadata: Dict<Id, Product>): seq<nat> {
    if top == [] then []
    else
      var last := top[|top| - 1];
      Origin(top[..|top| - 1], metadata) + if last.id in metadata.items then [|top| - 1] else []
  }

  /** The process-wide `app_state`, holding the loaded index and catalog.
      The CLIP model, processor and device stored beside them are not part
      of this model. */
  class AppState {
    var productVectors: Dict<Id, Vector>
    var productMetadata: Dict<Id, Product>

    /** Both mappings are well-formed dicts, and every catalog entry is
        stored under its own id. */
    ghost predicate Valid()
      reads this
    {
      OrderedDicts.Valid(productVectors) && OrderedDicts.Valid(productMetadata) && SelfKeyed(productMetadata)
    }

    /** The initial state: both mappings empty. */
    constructor ()
      ensures Valid()
      ensures productVectors == Empty() && productMetadata == Empty()
    {
      productVectors := Empty();
      productMetadata := Empty();
    }

    /** `startup_event`, given the parsed contents of the vector file and of
        the metadata file. */
    method Startup(productData: seq<VectorRecord>, metadata: seq<Product>)
      modifies this
      ensures Valid()
      ensures productVectors == BuildVectorIndex(productData)
      ensures productMetadata == BuildMetadata(metadata)
    {
      productVectors := BuildVectorIndex(productData);
      productMetadata := BuildMetadata(metadata);
      MetadataSelfKeyed(metadata);
    }

    /** `find_similar_products`: rank the whole index against the embedded
        upload and return the kept entries that have metadata. */
    method FindSimilarProducts<Image>(contents: seq<bv8>, decode: seq<bv8> -> Option<Image>,
                                      embed: Image -> Option<Vector>, cos: (Vector, Vector) -> real)
      returns (response: Result<seq<Match>, HttpError>)
      requires Valid()
      ensures decode(contents).None? ==> response == Failure(BadRequest(InvalidImageDetail))
      ensures decode(contents).Some? && embed(decode(contents).value).None? ==> response == Failure(InternalError)
      ensures decode(contents).Some? && embed(decode(contents).value).Some? ==>
        response == Success(Respond(TopK(Rank(productVectors, embed(decode(contents).value).value, cos), TopN), productMetadata))
      ensures response.Success? ==> |response.value| <= TopN && forall m :: m in response.value ==>
        && m.product.id in productVectors.items && m.product.id in productMetadata.items
        && m.product == productMetadata.items[m.product.id]
        && m.similarity == cos(embed(decode(contents).value).value, productVectors.items[m.product.id])
    {
      var queryImage := decode(contents);
      if queryImage.None? {
        return Failure(BadRequest(InvalidImageDetail));
      }
      var queryVector := embed(queryImage.value);
      if queryVector.None? {
        return Failure(InternalError);
      }
      var resultsWithScores := Rank(productVectors, queryVector.value, cos);
      var top := TopK(resultsWithScores, TopN);
      var topResults: seq<Match> := [];
      var i := 0;
      while i < |top|
        invariant 0 <= i <= |top|
        invariant topResults == Respond(top[..i], productMetadata)
      {
        var productInfo := Get(productMetadata, top[i].id);
        if productInfo.Some? {
          topResults := topResults + [Match(productInfo.value, top[i].score)];
        }
        assert top[..i + 1][..i] == top[..i];
        i := i + 1;
      }
      assert top[..|top|] == top;
      ResponseBounds(productVectors, productMetadata, queryVector.value, cos);
      ResponseSound(productVectors, productMetadata, queryVector.value, cos);
      return Success(topResults);
    }
  }

  // ---------------------------------------------------------------------
  // Startup: the index and the catalog

  /** The index holds exactly the ids of the vector records, each mapped to
      the vector of the last record with that id. */
  lemma VectorIndexFromRecords(records: seq<VectorRecord>)
    ensures OrderedDicts.Valid(BuildVectorIndex(records))
    ensures forall id :: id in BuildVectorIndex(records).items <==> exists i :: 0 <= i < |records| && records[i].id == id
    ensures forall i :: 0 <= i < |records| && (forall j :: i < j < |records| ==> records[j].id != records[i].id) ==>
      records[i].id in BuildVectorIndex(records).items && BuildVectorIndex(records).items[records[i].id] == records[i].vector
  {
    var ps := VectorPairs(records);
    var ix := FromPairs(ps);
    FromPairsDomain(ps);
    forall id
      ensures id in ix.items <==> exists i :: 0 <= i < |records| && records[i].id == id
    {
      if id in ix.items {
        var i :| 0 <= i < |ps| && Firsts(ps)[i] == id;
        assert records[i].id == id;
      }
      if exists i :: 0 <= i < |records| && records[i].id == id {
        var i :| 0 <= i < |records| && records[i].id == id;
        assert Firsts(ps)[i] == id;
      }
    }
    forall i | 0 <= i < |records| && (forall j :: i < j < |records| ==> records[j].id != records[i].id)
      ensures records[i].id in ix.items && ix.items[records[i].id] == records[i].vector
    {
      assert forall j :: i < j < |ps| ==> ps[j].0 == records[j].id;
      FromPairsLastWins(ps, i);
    }
  }

  /** The catalog holds exactly the ids of the metadata records, each mapped
      to the last record with that id. */
  lemma MetadataFromProducts(products: seq<Product>)
    ensures OrderedDicts.Valid(BuildMetadata(products))
    ensures forall id :: id in BuildMetadata(products).items <==> exists i :: 0 <= i < |products| && products[i].id == id
    ensures forall i :: 0 <= i < |products| && (forall j :: i < j < |products| ==> products[j].id != products[i].id) ==>
      products[i].id in BuildMetadata(products).items && BuildMetadata(products).items[products[i].id] == products[i]
  {
    var ps := MetadataPairs(products);
    var m := FromPairs(ps);
    FromPairsDomain(ps);
    forall id
      ensures id in m.items <==> exists i :: 0 <= i < |products| && products[i].id == id
    {
      if id in m.items {
        var i :| 0 <= i < |ps| && Firsts(ps)[i] == id;
        assert products[i].id == id;
      }
      if exists i :: 0 <= i < |products| && products[i].id == id {
        var i :| 0 <= i < |products| && products[i].id == id;
        assert Firsts(ps)[i] == id;
      }
    }
    forall i | 0 <= i < |products| && (forall j :: i < j < |products| ==> products[j].id != products[i].id)
      ensures products[i].id in m.items && m.items[products[i].id] == products[i]
    {
      assert forall j :: i < j < |ps| ==> ps[j].0 == products[j].id;
      FromPairsLastWins(ps, i);
    }
  }

  /** Each catalog entry is a metadata record carrying the id it is stored
      under. */
  lemma MetadataSelfKeyed(products: seq<Product>)
    ensures SelfKeyed(BuildMetadata(products))
    ensures forall id :: id in BuildMetadata(products).items ==> BuildMetadata(products).items[id] in products
  {
    var ps := MetadataPairs(products);
    var m := BuildMetadata(products);
    FromPairsValuesFromPairs(ps);
    forall id | id in m.items
      ensures m.items[id].id == id && m.items[id] in products
    {
      var i :| 0 <= i < |ps| && ps[i] == (id, m.items[id]);
    }
  }

  // ---------------------------------------------------------------------
  // The response

  /** The response lists exactly the kept entries that have metadata, in
      ranked order, each with its own score: `Origin` gives, for each
      result, the strictly increasing position of its entry in `top`, and
      every entry with metadata is among them. */
  lemma {:induction false} RespondTracesRanking(top: seq<Scored>, metadata: Dict<Id, Product>)
    ensures |Origin(top, metadata)| == |Respond(top, metadata)|
    ensures forall j :: 0 <= j < |Origin(top, metadata)| ==>
      var i := Origin(top, metadata)[j];
      i < |top| && top[i].id in metadata.items &&
      Respond(top, metadata)[j] == Match(metadata.items[top[i].id], top[i].score)
    ensures forall j1, j2 :: 0 <= j1 < j2 < |Origin(top, metadata)| ==> Origin(top, metadata)[j1] < Origin(top, metadata)[j2]
    ensures forall i :: 0 <= i < |top| && top[i].id in metadata.items ==> i in Origin(top, metadata)
  {
    if top != [] {
      var init := top[..|top| - 1];
      RespondTracesRanking(init, metadata);
      assert forall i :: 0 <= i < |init| ==> init[i] == top[i];
    }
  }

  /** At most one result per kept entry; exactly one each when every kept
      entry has metadata. */
  lemma {:induction false} RespondLength(top: seq<Scored>, metadata: Dict<Id, Product>)
    ensures |Respond(top, metadata)| <= |top|
    ensures (forall i :: 0 <= i < |top| ==> top[i].id in metadata.items) ==> |Respond(top, metadata)| == |top|
  {
    if top != [] {
      RespondLength(top[..|top| - 1], metadata);
    }
  }

  /** The response holds at most ten results, and no more than the index
      has entries. */
  lemma ResponseBounds(index: Dict<Id, Vector>, metadata: Dict<Id, Product>, query: Vector, cos: (Vector, Vector) -> real)
    requires OrderedDicts.Valid(index)
    ensures |Respond(TopK(Rank(index, query, cos), TopN), metadata)| <= TopN
    ensures |Respond(TopK(Rank(index, query, cos), TopN), metadata)| <= |index.keys|
  {
    RespondLength(TopK(Rank(index, query, cos), TopN), metadata);
  }

  /** Every result is an indexed product with metadata, reported with the
      similarity of its own vector. */
  lemma ResponseSound(index: Dict<Id, Vector>, metadata: Dict<Id, Product>, query: Vector, cos: (Vector, Vector) -> real)
    requires OrderedDicts.Valid(index) && SelfKeyed(metadata)
    ensures forall m :: m in Respond(TopK(Rank(index, query, cos), TopN), metadata) ==>
      && m.product.id in index.items && m.product.id in metadata.items
      && m.product == metadata.items[m.product.id]
      && m.similarity == cos(query, index.items[m.product.id])
  {
    var ranked := Rank(index, query, cos);
    var top := TopK(ranked, TopN);
    var r := Respond(top, metadata);
    var o := Origin(top, metadata);
    RankCoversIndex(index, query, cos);
    RespondTracesRanking(top, metadata);
    forall m | m in r
      ensures m.product.id in index.items && m.product.id in metadata.items
      ensures m.product == metadata.items[m.product.id]
      ensures m.similarity == cos(query, index.items[m.product.id])
    {
      var j :| 0 <= j < |r| && r[j] == m;
      var e := top[o[j]];
      assert e in ranked;
    }
  }

  /** The results are in non-increasing order of similarity. */
  lemma ResponseDescending(index: Dict<Id, Vector>, metadata: Dict<Id, Product>, query: Vector, cos: (Vector, Vector) -> real)
    requires OrderedDicts.Valid(index)
    ensures var r := Respond(TopK(Rank(index, query, cos), TopN), metadata);
      forall j1, j2 :: 0 <= j1 < j2 < |r| ==> r[j1].similarity >= r[j2].similarity
  {
    var top := TopK(Rank(index, query, cos), TopN);
    var r := Respond(top, metadata);
    var o := Origin(top, metadata);
    RespondTracesRanking(top, metadata);
    forall j1, j2 | 0 <= j1 < j2 < |r|
      ensures r[j1].similarity >= r[j2].similarity
    {
      assert top[o[j1]].score >= top[o[j2]].score;
    }
  }

  /** Every entry among the ten best-ranked whose id has metadata is
      reported, with its score. */
  lemma ResponseComplete(index: Dict<Id, Vector>, metadata: Dict<Id, Product>, query: Vector, cos: (Vector, Vector) -> real)
    requires OrderedDicts.Valid(index)
    ensures var top := TopK(Rank(index, query, cos), TopN);
      forall e :: e in top && e.id in metadata.items ==>
        Match(metadata.items[e.id], e.score) in Respond(top, metadata)
  {
    var top := TopK(Rank(index, query, cos), TopN);
    var o := Origin(top, metadata);
    RespondTracesRanking(top, metadata);
    forall e | e in top && e.id in metadata.items
      ensures Match(metadata.items[e.id], e.score) in Respond(top, metadata)
    {
      var i :| 0 <= i < |top| && top[i] == e;
      var j :| 0 <= j < |o| && o[j] == i;
    }
  }
}
