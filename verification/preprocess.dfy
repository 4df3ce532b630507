/** The ingestion script `backend/preprocess.py`: embed every catalog image
    and save the `{id, vector}` records, refusing to save an empty list. */
module Preprocess {
  import opened Catalog
  import opened Ingestion

  /** The list `all_product_vectors` after the loop has seen `products`:
      one record per embedded product, in catalog order. */
  function Generated(products: seq<Product>, fileExists: string -> bool, embed: string -> Option<Vector>): seq<VectorRecord> {
    if products == [] then []
    else
      var last := products[|products| - 1];
      Generated(products[..|products| - 1], fileExists, embed) +
        match ProcessEntry(last, fileExists, embed)
        case Embedded(v) => [VectorRecord(last.id, v)]
        case _ => []
  }

  /** The positions, in `products`, of the products that were embedded. */
  ghost function EmbeddedPositions(products: seq<Product>, fileExists: string -> bool, embed: string -> Option<Vector>): seq<nat> {
    if products == [] then []
    else
      EmbeddedPositions(products[..|products| - 1], fileExists, embed) +
        if ProcessEntry(products[|products| - 1], fileExists, embed).Embedded? then [|products| - 1] else []
  }

  /** `main()`, given whether the metadata file exists, whether the model
      loads, and the parsed product list. */
  method Run(metadataExists: bool, modelLoads: bool, products: seq<Product>,
             fileExists: string -> bool, embed: string -> Option<Vector>)
    returns (result: RunResult)
    ensures !metadataExists ==> result == MetadataMissing
    ensures metadataExists && !modelLoads ==> result == ModelLoadFailed
    ensures metadataExists && modelLoads && Generated(products, fileExists, embed) == [] ==> result == NothingSaved
    ensures metadataExists && modelLoads && Generated(products, fileExists, embed) != [] ==>
      result == Saved(Generated(products, fileExists, embed))
  {
    if !metadataExists {
      return MetadataMissing;
    }
    if !modelLoads {
      return ModelLoadFailed;
    }
    var allProductVectors: seq<VectorRecord> := [];
    var i := 0;
    while i < |products|
      invariant 0 <= i <= |products|
      invariant allProductVectors == Generated(products[..i], fileExists, embed)
    {
      var product := products[i];
      assert products[..i + 1][..i] == products[..i];
      if !HasImage(product, fileExists) {
        i := i + 1;
        continue;
      }
      var embedding := embed(product.imagePath.value);
      if embedding.Some? {
        allProductVectors := allProductVectors + [VectorRecord(product.id, embedding.value)];
      }
      i := i + 1;
    }
    assert products[..|products|] == products;
    if allProductVectors == [] {
      return NothingSaved;
    }
    return Saved(allProductVectors);
  }

  /** The output holds exactly one record per embedded product, in catalog
      order: record `j` comes from the product at position
      `EmbeddedPositions(...)[j]`, these positions increase strictly, every
      product that was embedded is among them, and no skipped product is. */
  lemma {:induction false} GeneratedTracesCatalog(products: seq<Product>, fileExists: string -> bool, embed: string -> Option<Vector>)
    ensures |EmbeddedPositions(products, fileExists, embed)| == |Generated(products, fileExists, embed)|
    ensures forall j :: 0 <= j < |EmbeddedPositions(products, fileExists, embed)| ==>
      var i := EmbeddedPositions(products, fileExists, embed)[j];
      i < |products| && ProcessEntry(products[i], fileExists, embed).Embedded? &&
      Generated(products, fileExists, embed)[j] == VectorRecord(products[i].id, ProcessEntry(products[i], fileExists, embed).vector)
    ensures forall j1, j2 :: 0 <= j1 < j2 < |EmbeddedPositions(products, fileExists, embed)| ==>
      EmbeddedPositions(products, fileExists, embed)[j1] < EmbeddedPositions(products, fileExists, embed)[j2]
    ensures forall i :: 0 <= i < |products| ==>
      (i in EmbeddedPositions(products, fileExists, embed) <==> ProcessEntry(products[i], fileExists, embed).Embedded?)
  {
    if products != [] {
      var init := products[..|products| - 1];
      GeneratedTracesCatalog(init, fileExists, embed);
      assert forall i :: 0 <= i < |init| ==> init[i] == products[i];
    }
  }

  /** One bad catalog row does not affect the others: the output of a
      catalog is the output of its first part followed by that of the rest. */
  lemma {:induction false} GeneratedConcat(a: seq<Product>, b: seq<Product>, fileExists: string -> bool, embed: string -> Option<Vector>)
    ensures Generated(a + b, fileExists, embed) == Generated(a, fileExists, embed) + Generated(b, fileExists, embed)
    decreases |b|
  {
    if b == [] {
      assert a + b == a;
    } else {
      var b0 := b[..|b| - 1];
      assert (a + b)[..|a + b| - 1] == a + b0;
      GeneratedConcat(a, b0, fileExists, embed);
    }
  }

  /** Nothing is generated exactly when every product was skipped. */
  lemma {:induction false} NothingGeneratedIffAllSkipped(products: seq<Product>, fileExists: string -> bool, embed: string -> Option<Vector>)
    ensures Generated(products, fileExists, embed) == [] <==>
      forall i :: 0 <= i < |products| ==> !ProcessEntry(products[i], fileExists, embed).Embedded?
  {
    if products != [] {
      var init := products[..|products| - 1];
      NothingGeneratedIffAllSkipped(init, fileExists, embed);
      assert forall i :: 0 <= i < |init| ==> init[i] == products[i];
    }
  }

  /** A catalog of three products where only the middle one lacks its image
      file yields the records of the other two, in order (so the run saves
      two records rather than aborting). */
  lemma ThreeProductsOneMissing(p1: Product, p2: Product, p3: Product, fileExists: string -> bool, embed: string -> Option<Vector>)
    requires HasImage(p1, fileExists) && embed(p1.imagePath.value).Some?
    requires !HasImage(p2, fileExists)
    requires HasImage(p3, fileExists) && embed(p3.imagePath.value).Some?
    ensures Generated([p1, p2, p3], fileExists, embed) ==
      [VectorRecord(p1.id, embed(p1.imagePath.value).value), VectorRecord(p3.id, embed(p3.imagePath.value).value)]
  {
    var r1 := VectorRecord(p1.id, embed(p1.imagePath.value).value);
    assert [p1][..0] == [];
    assert Generated([p1], fileExists, embed) == [r1];
    assert [p1, p2][..1] == [p1];
    assert Generated([p1, p2], fileExists, embed) == [r1];
    assert [p1, p2, p3][..2] == [p1, p2];
  }
}
