/** The ingestion script `backend/data/preprocess.py`: the per-product loop
    of `backend/preprocess.py`, accumulating `{id, signature}` entries that
    are written as `{id, vector}` records; the file is written even when no
    product was embedded.

    As written, the loop reads the pixel values as an attribute of a plain
    `dict`, which always raises and is caught, so no product is ever
    embedded and the run always writes an empty list (`Run`). `RunCorrected`
    is the script with the lookup written `inputs['pixel_values']`, as in
    `backend/preprocess.py`; its records are those of that script. */
module DataPreprocess {
  import opened Catalog
  import opened Ingestion
  import Preprocess

  /** One entry of `all_product_signatures`. */
  datatype SignatureRecord = SignatureRecord(id: Id, signature: Vector)

  /** `[{"id": p["id"], "vector": p["signature"]} for p in all_product_signatures]` */
  function ToVectorRecords(signatures: seq<SignatureRecord>): (r: seq<VectorRecord>)
    ensures |r| == |signatures|
    ensures forall i :: 0 <= i < |r| ==> r[i].id == signatures[i].id && r[i].vector == signatures[i].signature
  {
    seq(|signatures|, i requires 0 <= i < |signatures| => VectorRecord(signatures[i].id, signatures[i].signature))
  }

  // ---------------------------------------------------------------------
  // The script as written

  /** The list `all_product_signatures` after the loop as written has seen
      `products`. */
  function SignaturesAsWritten(products: seq<Product>, fileExists: string -> bool): seq<SignatureRecord> {
    if products == [] then []
    else
      var last := products[|products| - 1];
      SignaturesAsWritten(products[..|products| - 1], fileExists) +
        match ProcessEntryAsWritten(last, fileExists)
        case Embedded(v) => [SignatureRecord(last.id, v)]
        case _ => []
  }

  /** The loop as written appends nothing, whatever the catalog. */
  lemma {:induction false} AsWrittenAppendsNothing(products: seq<Product>, fileExists: string -> bool)
    ensures SignaturesAsWritten(products, fileExists) == []
  {
    if products != [] {
      AsWrittenAppendsNothing(products[..|products| - 1], fileExists);
    }
  }

  /** `main()` as written, given whether the metadata file exists, whether
      the model loads, and the parsed product list. Once both checks pass
      it always overwrites the vector file with an empty list. */
  method Run(metadataExists: bool, modelLoads: bool, products: seq<Product>, fileExists: string -> bool)
    returns (result: RunResult)
    ensures !metadataExists ==> result == MetadataMissing
    ensures metadataExists && !modelLoads ==> result == ModelLoadFailed
    ensures metadataExists && modelLoads ==> result == Saved(ToVectorRecords(SignaturesAsWritten(products, fileExists)))
    ensures metadataExists && modelLoads ==> result == Saved([])
  {
    if !metadataExists {
      return MetadataMissing;
    }
    if !modelLoads {
      return ModelLoadFailed;
    }
    var allProductSignatures: seq<SignatureRecord> := [];
    var i := 0;
    while i < |products|
      invariant 0 <= i <= |products|
      invariant allProductSignatures == SignaturesAsWritten(products[..i], fileExists)
    {
      var product := products[i];
      assert products[..i + 1][..i] == products[..i];
      if !HasImage(product, fileExists) {
        i := i + 1;
        continue;
      }
      // The `try` block: the attribute lookup raises before any append.
      match ProcessEntryAsWritten(product, fileExists) {
        case Embedded(signature) =>
          allProductSignatures := allProductSignatures + [SignatureRecord(product.id, signature)];
        case _ =>
      }
      i := i + 1;
    }
    assert products[..|products|] == products;
    AsWrittenAppendsNothing(products, fileExists);
    return Saved(ToVectorRecords(allProductSignatures));
  }

  /** A single product whose image exists and embeds: `backend/preprocess.py`
      generates its record, while this script as written writes nothing. */
  lemma AsWrittenDiffersFromPreprocess(p: Product, fileExists: string -> bool, embed: string -> Option<Vector>)
    requires HasImage(p, fileExists) && embed(p.imagePath.value).Some?
    ensures Preprocess.Generated([p], fileExists, embed) == [VectorRecord(p.id, embed(p.imagePath.value).value)]
    ensures ToVectorRecords(SignaturesAsWritten([p], fileExists)) == []
  {
  }

  // ---------------------------------------------------------------------
  // The script as evidently intended

  /** The list `all_product_signatures` after the corrected loop has seen
      `products`. */
  function Signatures(products: seq<Product>, fileExists: string -> bool, embed: string -> Option<Vector>): seq<SignatureRecord> {
    if products == [] then []
    else
      var last := products[|products| - 1];
      Signatures(products[..|products| - 1], fileExists, embed) +
        match ProcessEntry(last, fileExists, embed)
        case Embedded(v) => [SignatureRecord(last.id, v)]
        case _ => []
  }

  /** `main()` with the pixel values read as `inputs['pixel_values']`. */
  method RunCorrected(metadataExists: bool, modelLoads: bool, products: seq<Product>,
                      fileExists: string -> bool, embed: string -> Option<Vector>)
    returns (result: RunResult)
    ensures !metadataExists ==> result == MetadataMissing
    ensures metadataExists && !modelLoads ==> result == ModelLoadFailed
    ensures metadataExists && modelLoads ==> result == Saved(ToVectorRecords(Signatures(products, fileExists, embed)))
  {
    if !metadataExists {
      return MetadataMissing;
    }
    if !modelLoads {
      return ModelLoadFailed;
    }
    var allProductSignatures: seq<SignatureRecord> := [];
    var i := 0;
    while i < |products|
      invariant 0 <= i <= |products|
      invariant allProductSignatures == Signatures(products[..i], fileExists, embed)
    {
      var product := products[i];
      assert products[..i + 1][..i] == products[..i];
      if !HasImage(product, fileExists) {
        i := i + 1;
        continue;
      }
      var signature := embed(product.imagePath.value);
      if signature.Some? {
        allProductSignatures := allProductSignatures + [SignatureRecord(product.id, signature.value)];
      }
      i := i + 1;
    }
    assert products[..|products|] == products;
    return Saved(ToVectorRecords(allProductSignatures));
  }

  /** After renaming, the records the corrected script writes are exactly
      those that `backend/preprocess.py` generates from the same catalog: one
      per embedded product, in catalog order, with the signature as its
      vector. The scripts then differ only when that list is empty, which
      this one writes and the other refuses to save. */
  lemma {:induction false} WrittenRecordsMatchPreprocess(products: seq<Product>, fileExists: string -> bool, embed: string -> Option<Vector>)
    ensures ToVectorRecords(Signatures(products, fileExists, embed)) == Preprocess.Generated(products, fileExists, embed)
  {
    if products != [] {
      var init := products[..|products| - 1];
      WrittenRecordsMatchPreprocess(init, fileExists, embed);
      var last := products[|products| - 1];
      var tail := match ProcessEntry(last, fileExists, embed)
        case Embedded(v) => [SignatureRecord(last.id, v)]
        case _ => [];
      ToVectorRecordsConcat(Signatures(init, fileExists, embed), tail);
    }
  }

  /** Renaming distributes over concatenation. */
  lemma ToVectorRecordsConcat(a: seq<SignatureRecord>, b: seq<SignatureRecord>)
    ensures ToVectorRecords(a + b) == ToVectorRecords(a) + ToVectorRecords(b)
  {
  }

  /** When every product is skipped, the corrected run still saves, and
      saves an empty list. */
  lemma {:induction false} AllSkippedWritesEmptyList(products: seq<Product>, fileExists: string -> bool, embed: string -> Option<Vector>)
    requires forall i :: 0 <= i < |products| ==> !ProcessEntry(products[i], fileExists, embed).Embedded?
    ensures ToVectorRecords(Signatures(products, fileExists, embed)) == []
  {
    WrittenRecordsMatchPreprocess(products, fileExists, embed);
    Preprocess.NothingGeneratedIffAllSkipped(products, fileExists, embed);
  }
}
