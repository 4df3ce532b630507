/** The per-entry step of the two offline ingestion scripts: a catalog entry
    is skipped when its image is missing, skipped when embedding it raises,
    and otherwise yields an embedding. `backend/data/preprocess.py` reaches
    its embedding through an attribute lookup that always raises, so there
    every entry is skipped (`ProcessEntryAsWritten`).

    The file system and the embedding model are parameters: `fileExists`
    stands for `os.path.exists`, and `embed` for opening the image and
    running the CLIP image encoder on it, `None` meaning that either raised. */
module Ingestion {
  import opened Catalog

  /** The state an entry ends in: `skipped` (with its reason) or `embedded`. */
  datatype EntryOutcome = SkippedNoImage | SkippedEmbedFailed | Embedded(vector: Vector)

  /** How a whole run ends. `MetadataMissing`, `ModelLoadFailed` and
      `NothingSaved` write nothing, so a previous vector file stays as it
      was; `Saved` overwrites the vector file with `records`. */
  datatype RunResult = MetadataMissing | ModelLoadFailed | NothingSaved | Saved(records: seq<VectorRecord>)

  /** The negation of `not image_path or not os.path.exists(image_path)`:
      the path is present, non-empty, and names an existing file. */
  predicate HasImage(p: Product, fileExists: string -> bool) {
    p.imagePath.Some? && p.imagePath.value != "" && fileExists(p.imagePath.value)
  }

  /** One iteration of the per-product loop. */
  function ProcessEntry(p: Product, fileExists: string -> bool, embed: string -> Option<Vector>): (o: EntryOutcome)
    ensures o.SkippedNoImage? <==> !HasImage(p, fileExists)
    ensures o.SkippedEmbedFailed? <==> HasImage(p, fileExists) && embed(p.imagePath.value).None?
    ensures o.Embedded? ==> HasImage(p, fileExists) && embed(p.imagePath.value) == Some(o.vector)
  {
    if !HasImage(p, fileExists) then SkippedNoImage
    else
      match embed(p.imagePath.value)
      case None => SkippedEmbedFailed
      case Some(v) => Embedded(v)
  }

  /** One iteration of the loop of `backend/data/preprocess.py` as written.
      There the processor output is first rebuilt as a plain `dict`, and the
      pixel values are then read as the attribute `inputs.pixel_values`,
      which a `dict` does not have: the `AttributeError` is caught by the
      loop's handler, so an entry with an image is skipped like one whose
      embedding failed, whatever the image and the model are. */
  function ProcessEntryAsWritten(p: Product, fileExists: string -> bool): (o: EntryOutcome)
    ensures o.SkippedNoImage? <==> !HasImage(p, fileExists)
    ensures o.SkippedEmbedFailed? <==> HasImage(p, fileExists)
    ensures !o.Embedded?
  {
    if !HasImage(p, fileExists) then SkippedNoImage else SkippedEmbedFailed
  }
}
