/** Values shared by the query service and the two ingestion scripts: the
    catalog record read from the metadata file, the persisted vector record,
    and the Option/Result wrappers used for absent values and failures. */
module Catalog {

  datatype Option<+T> = None | Some(value: T)

  datatype Result<+R, +E> = Success(value: R) | Failure(error: E)

  /** Product identifiers are the JSON strings of the catalog's `id` field. */
  type Id = string

  /** An embedding as the JSON file stores it: a list of numbers. */
  type Vector = seq<real>

  /** One catalog entry of the metadata file. `imagePath` is `None` when the
      record has no `image_path` key (`product.get("image_path")` is `None`);
      the remaining display attributes are carried along opaquely. */
  datatype Product = Product(id: Id, imagePath: Option<string>, attributes: map<string, string>)

  /** One record of the persisted vector file: `{"id": ..., "vector": [...]}`. */
  datatype VectorRecord = VectorRecord(id: Id, vector: Vector)
}
