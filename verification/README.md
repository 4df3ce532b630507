# Visual product matcher: ranking and ingestion model

A Dafny model of the core of a visual product search service. Offline, two
ingestion scripts embed every catalog image and save `{id, vector}` records.
Online, the service loads those records into a vector index and the catalog
metadata into an id-keyed catalog. For each uploaded image it then:

1. embeds the image;
2. scores every indexed product by cosine similarity;
3. stable-sorts the products by score, highest first;
4. keeps the first ten;
5. joins them with their metadata, silently dropping ids that have none.

Modules:

- `Catalog` (`catalog.dfy`): the shared records: the catalog `Product`, the
  persisted `VectorRecord`, and `Option`/`Result`.
- `OrderedDicts` (`ordered_dict.dfy`): Python's insertion-ordered `dict` and
  the dict comprehension used to build the index and the catalog. A
  duplicate id keeps the position of its first occurrence and the value of
  its last.
- `Ranking` (`ranking.dfy`): the pairing of ids with scores (`zip`), the
  stable descending sort (`sorted(..., reverse=True)`) and the `[:10]` cut.
- `QueryService` (`query_service.dfy`): the application state as a class.
  `Startup` fills the index and the catalog. `FindSimilarProducts` is the
  endpoint, with its result-assembly loop.
- `Ingestion` (`ingestion.dfy`): the per-product step of the scripts.
  - In `backend/preprocess.py` (`ProcessEntry`), a product is skipped when
    its image is missing and skipped when embedding fails; otherwise it
    yields an embedding.
  - In `backend/data/preprocess.py` as written (`ProcessEntryAsWritten`),
    every product with an image is skipped too. The pixel values are read
    as an attribute of a plain `dict`, which always raises, and the loop's
    handler catches the error.
- `Preprocess` (`preprocess.dfy`): `backend/preprocess.py`. It loops over
  the catalog and refuses to save an empty list.
- `DataPreprocess` (`data_preprocess.dfy`): `backend/data/preprocess.py`. It
  loops over `{id, signature}` entries, renames them to `{id, vector}` and
  always writes the file.
  - As written (`Run`), it always writes an empty list.
  - `RunCorrected` reads `inputs['pixel_values']` as `backend/preprocess.py`
    does. It writes the records `backend/preprocess.py` generates.

External collaborators are parameters:

- `decode` stands for image decoding. `None` is the exception that
  `Image.open` raises.
- `embed` stands for the CLIP image encoder. `None` is an exception.
- `cos` stands for cosine similarity, as a function into `real`.
- `fileExists` stands for `os.path.exists`.
- `metadataExists` and `modelLoads` are the two early-exit checks of the
  scripts.
- The parsed JSON contents of the files are inputs.
- What a script writes is its `RunResult`. `Saved(records)` overwrites the
  vector file. Every other result leaves the file as it was.

Points where the code does less than a reader might expect:

- The code checks no vector dimensions. Loading the index never fails with a
  dimension error.
- Only `backend/preprocess.py` aborts when no product was embedded.
  `backend/data/preprocess.py` writes an empty list, and as written it
  embeds no product at all (see "## Findings").
- `k` is fixed at 10 (`TopN`). `TopK` takes `k` as a parameter.
- The vector file is written directly, not atomically.

## Model

| member | source | states |
|---|---|---|
| `OrderedDicts.Put` | backend/main.py:42 | Storing a key keeps it valid: an existing key keeps its position and takes the new value, a new key goes last |
| `OrderedDicts.FromPairs` | backend/main.py:42 | The comprehension yields a well-formed dict: every key listed once, exactly the mapped keys listed |
| `OrderedDicts.FromPairsDomain` | backend/main.py:42 | The dict holds exactly the keys occurring in the input pairs |
| `OrderedDicts.FromPairsLastWins` | backend/main.py:42 | A key maps to the value of the last pair carrying it |
| `OrderedDicts.FromPairsFirstOccurrenceOrder` | backend/main.py:42 | Keys iterate in order of their first occurrence; a later duplicate does not move its key |
| `OrderedDicts.FromPairsValuesFromPairs` | backend/main.py:48 | Every stored value is the value of some input pair with that key |
| `QueryService.VectorIndexFromRecords` | backend/main.py:42 | The index contains exactly the ids of the vector records, each mapped to the vector of the last record with that id |
| `QueryService.MetadataFromProducts` | backend/main.py:48 | The catalog contains exactly the metadata ids, each mapped to the last record with that id |
| `QueryService.MetadataSelfKeyed` | backend/main.py:48 | Every catalog entry is one of the metadata records and carries the id it is stored under |
| `QueryService.AppState.constructor` | backend/main.py:18-24 | The initial application state has an empty index and an empty catalog |
| `QueryService.AppState.Startup` | backend/main.py:39-49 | Startup replaces the index and the catalog by the comprehensions over the loaded records. The state stays valid: both are well-formed dicts and every catalog entry is stored under its own id |
| `QueryService.AppState.FindSimilarProducts` | backend/main.py:87-112 | An undecodable upload gives the 400 error with its fixed detail and no ranking; an embedding failure gives a 500; otherwise the response is the metadata join of the first ten ranked entries, at most ten matches, each an indexed product with its catalog record and the similarity of its own vector |
| `Ranking.ScoreIndex` | backend/main.py:96-99 | One scored pair per indexed id, in the index's iteration order |
| `Ranking.Insert` | backend/main.py:101 | Insertion adds exactly the one entry to the list's multiset |
| `Ranking.InsertSorted` | backend/main.py:101 | Inserting into a score-sorted list keeps it sorted |
| `Ranking.SortDesc` | backend/main.py:101 | The sorted list is non-increasing by score and a permutation of the input |
| `Ranking.SortDescStable` | backend/main.py:101 | Stability: for every score, the entries with that score appear in the same order as in the input |
| `Ranking.StableSortUnique` | backend/main.py:101 | Any non-increasing list with the same equal-score groups as the input equals `SortDesc` of it, so the result is what any stable descending sort gives |
| `Ranking.SortDescKeepsIdsDistinct` | backend/main.py:101 | Sorting a list with distinct ids keeps the ids distinct |
| `Ranking.SortDescSameMembers` | backend/main.py:101 | Sorting neither adds nor loses entries |
| `Ranking.SortDescExample` | backend/main.py:101 | Scores 1.0, 0.0, 0.7 rank first, third, second |
| `Ranking.SortDescTieExample` | backend/main.py:101 | Two equal scores keep their input order |
| `Ranking.Rank` | backend/main.py:96-101 | The ranking is non-increasing by score and has one entry per indexed id |
| `Ranking.RankCoversIndex` | backend/main.py:96-101 | Every indexed id appears exactly once in the ranking with the similarity of its own vector, and no other id appears |
| `Ranking.RankStable` | backend/main.py:101 | Entries with equal scores are ranked in the index's iteration order |
| `Ranking.TopKHighest` | backend/main.py:104 | The cut keeps `min(k, n)` entries, a prefix, and no dropped entry scores higher than a kept one |
| `QueryService.RespondTracesRanking` | backend/main.py:103-110 | The results are exactly the kept entries that have metadata, in ranked order, each paired with its own metadata and score |
| `QueryService.RespondLength` | backend/main.py:103-110 | At most one result per kept entry; exactly one each when all kept entries have metadata |
| `QueryService.ResponseBounds` | backend/main.py:104-110 | The response has at most 10 results and no more than the index has entries |
| `QueryService.ResponseSound` | backend/main.py:96-110 | Every result is an indexed product with metadata, its record is the catalog's record for its id, and its similarity is that of its own vector |
| `QueryService.ResponseDescending` | backend/main.py:101-110 | Response similarities are non-increasing |
| `QueryService.ResponseComplete` | backend/main.py:104-110 | Every one of the ten best-ranked entries whose id has metadata is in the response with its score |
| `Ingestion.ProcessEntry` | backend/preprocess.py:37-61 | A product is skipped iff its image path is missing, empty or nonexistent; otherwise it is skipped iff embedding fails, and otherwise it yields the embedding |
| `Ingestion.ProcessEntryAsWritten` | backend/data/preprocess.py:43-69 | A product is never embedded: it is skipped for a missing image iff its path is missing, empty or nonexistent, and skipped by the exception handler otherwise |
| `Preprocess.Run` | backend/preprocess.py:11-71 | A missing metadata file or a failed model load ends the run before any product; otherwise the run saves exactly the generated list, or saves nothing when that list is empty |
| `Preprocess.GeneratedTracesCatalog` | backend/preprocess.py:36-61 | One output record per embedded product, in catalog order, carrying its id and embedding; skipped products contribute nothing |
| `Preprocess.GeneratedConcat` | backend/preprocess.py:36-61 | The output for a catalog is the output of its first part followed by that of the rest, so a bad row does not stop later ones |
| `Preprocess.NothingGeneratedIffAllSkipped` | backend/preprocess.py:63-65 | The list is empty, and the run aborts, exactly when every product was skipped |
| `Preprocess.ThreeProductsOneMissing` | backend/preprocess.py:40-58 | Three products with the middle image missing yield the two other records in order |
| `DataPreprocess.ToVectorRecords` | backend/data/preprocess.py:74 | The renaming keeps the length, and each record carries its entry's id and has its signature as vector |
| `DataPreprocess.AsWrittenAppendsNothing` | backend/data/preprocess.py:42-69 | The loop as written appends no signature, whatever the catalog |
| `DataPreprocess.Run` | backend/data/preprocess.py:13-77 | A missing metadata file or a failed model load ends the run early; otherwise the renamed signature list is saved, and as written it is always empty |
| `DataPreprocess.AsWrittenDiffersFromPreprocess` | backend/data/preprocess.py:58 | One product whose image exists and embeds: backend/preprocess.py generates its record, the data script as written writes none |
| `DataPreprocess.RunCorrected` | backend/data/preprocess.py:13-77 | With the pixel values read by key, the early exits are unchanged and the renamed signature list of the embedded products is always saved |
| `DataPreprocess.WrittenRecordsMatchPreprocess` | backend/data/preprocess.py:42-74 | The corrected script's renamed records equal those that backend/preprocess.py generates from the same catalog: one `{id, vector}` per embedded product, in catalog order, the vector being the signature |
| `DataPreprocess.AllSkippedWritesEmptyList` | backend/data/preprocess.py:71-74 | When every product is skipped, the corrected script still writes an empty list |

## Left out

- Model loading, the CLIP processor, device selection and the numeric
  embedding. These are foreign calls. Embedding is the `embed` parameter,
  which may fail.
- The arithmetic of `cosine_similarity`. It is floating point in a foreign
  library, so it is the parameter `cos` into `real`.
- NaN scores are not modelled. With a NaN, Python's sort is not a total
  order.
- `QueryService.AppState.FindSimilarProducts`: the input checks of
  `cosine_similarity` are not modelled. It raises on an empty index, on
  vectors of unequal length and on an empty query vector, and the endpoint
  then answers 500. The model instead answers `Success([])` for an empty
  index, which is the index the data script as written leaves behind.
- PIL decoding and `convert("RGB")`. They count only as success or failure,
  through `decode` and `embed`.
- A failure of `file.read()` also answers 400 in the source. The model takes
  the upload's bytes as given.
- JSON parsing and writing, and the schema of the files. Records are
  assumed to carry a string `id`, and metadata records to be non-empty
  objects.
  - In the source, a missing `id` crashes startup with a `KeyError`.
  - In the scripts, a missing `id` writes `null`.
  - `if product_info:` is therefore modelled as key presence: a found
    record always holds `id`, so it is never empty.
- `float(score)` is the identity on `real`.
- Logging, CORS, static file mounting and the startup-event machinery of
  the web framework.
- `QueryService.AppState.Startup`: the model loads both files as given. A
  missing or unreadable file makes the source's startup raise, which is not
  modelled.

## Findings

| source | as written | input that shows it | evidently intended | confidence | as-written member | corrected member |
|---|---|---|---|---|---|---|
| backend/data/preprocess.py:55-58 | `inputs` is rebuilt as a plain `dict` at :55, then read as `inputs.pixel_values` at :58. That raises `AttributeError`, which the handler at :68 catches, so no product is ever embedded | Metadata file present, model loads, one product whose image exists and embeds: backend/preprocess.py saves its record, this script writes `[]` | `inputs['pixel_values']`, as at backend/preprocess.py:51, so the script writes one record per embedded product | high (from reading the code; not executed) | `DataPreprocess.Run`, `DataPreprocess.AsWrittenDiffersFromPreprocess` | `DataPreprocess.RunCorrected`, `DataPreprocess.WrittenRecordsMatchPreprocess` |
