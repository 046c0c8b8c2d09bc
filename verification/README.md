# FRRag core, modelled in Dafny

FRRag answers questions about companies' 10-K filings. It has two halves.

**Ingestion** (`upload_10_k_to_qdrant`) walks a directory of extracted 10-K JSON files and handles each one in order:
- it resolves the filing's CIK to a ticker through the exchange table that `load_cik_ticker_mapping` loads;
- it validates the 23 canonical items with `check_10_k_item_content`;
- it keeps the items whose content is non-empty;
- it splits each kept item into chunks and upserts one point per chunk, with a composite `file_id`.

A file that raises is skipped. A file that completes is counted and moved out.

**Retrieval** (`Agent`) turns the chat model's answer into JSON and builds a combined store filter from it:
- one `must` clause of four equality conditions per requested filing;
- all clauses joined by `should`.

It then searches the store and, when asked to, reranks the hits by FinBERT relevance, keeping the top ten. Any exception turns the search into an error message.

The model is organised as follows:

| file | what it models |
|---|---|
| `wrappers.dfy` | `Option` and `Result` |
| `decimal.dfy` | decimal spelling and parsing behind Python's `str`/`int` |
| `text.dfy` | the string operations the source uses: `str.replace`, `strip`, `lower`, `startswith`, `endswith`, `in` |
| `pyvalue.dfy` | JSON scalars with Python's `str()` and `int()` |
| `item_check.dfy` | the item list and the content validator |
| `cik_mapping.dfy` | the CIK-to-ticker table |
| `filing.dfy` | normalising one filing into sections |
| `payload.dfy` | the chunk payloads and their ids |
| `ingestion.dfy` | the per-file `try` and the counters of the upload loop |
| `query_filter.dfy` | the combined filter and what it matches |
| `rerank.dfy` | the stable descending sort and the top-ten cut |
| `search.dfy` | `search_qdrant` |
| `llm_output.dfy` | the cleaning of the chat model's JSON answer |

The collaborators are function-valued parameters:
- the date parser, the text splitter and the upsert;
- the embedding model, the store's search and FinBERT's score;
- `json.loads`.

A `None` or `false` from a collaborator stands for the exception it raises.

## Model

| member | source | states |
|---|---|---|
| ItemCheck.StandardItemsDistinct | Ingress/qdrant_data_import.py:106-130 | no canonical 10-K item is listed twice |
| ItemCheck.RequiredAreStandard | Ingress/qdrant_data_import.py:213 | every item that must be non-empty is one of the 23 canonical items |
| ItemCheck.EmptyContentAcceptedIffOptional | Ingress/qdrant_data_import.py:213-217 | empty content is accepted exactly for the items outside the required ten |
| ItemCheck.NonEmptyContentAcceptedIffKeyPrefix | Ingress/qdrant_data_import.py:211-217 | non-empty content is accepted exactly when its cleaned form starts with the item name lower-cased without `_` |
| ItemCheck.CleanContentCounts | Ingress/qdrant_data_import.py:212 | cleaning removes every blank, one `.`, one `:` and one `-` where present, and keeps every other character of the lower-cased text exactly as often |
| ItemCheck.CleanContentIsLowerCase | Ingress/qdrant_data_import.py:212 | the cleaned text holds no upper-case ASCII letter |
| ItemCheck.HeadingAccepted | Ingress/qdrant_data_import.py:211-217 | content opening with `Item <h>` is accepted for `item_<k>` whenever `<k>` is a prefix of `<h>`, so "Item 10 …" passes for `item_1` |
| ItemCheck.HeadingRejected | Ingress/qdrant_data_import.py:211-217 | content opening with `Item <h>`, where `<h>` is at least as long as `<k>` and does not extend it, is rejected for `item_<k>` |
| CikMapping.IndexOf | Ingress/qdrant_data_import.py:226-227 | `fields.index(name)` is the first position holding `name`, and absent exactly when no position does |
| CikMapping.BuildMapping | Ingress/qdrant_data_import.py:229-230 | the row loop succeeds exactly when every row reaches both columns; otherwise it fails at the first short row |
| CikMapping.BuildMappingKeys | Ingress/qdrant_data_import.py:229-230 | the mapping's keys are exactly the `str` spellings of the rows' CIKs |
| CikMapping.BuildMappingLastWins | Ingress/qdrant_data_import.py:229-230 | a CIK that occurs several times maps to the ticker of its last row |
| CikMapping.LoadCikTickerMapping | Ingress/qdrant_data_import.py:225-230 | a missing `cik` column is reported first and a missing `ticker` column second; success needs both |
| CikMapping.LoadedMappingResolves | Ingress/qdrant_data_import.py:225-230 | with both columns present and rows long enough, each CIK resolves to the ticker of the last row carrying it |
| PyValue.IntAgreesOnNumberAndString | Rag/Agent.py:90 | `int()` gives the same year whether the year arrives as a number or as its decimal string |
| PyValue.StrInjectiveOnInts | Ingress/qdrant_data_import.py:151 | distinct integer CIKs give distinct mapping keys under `str()` |
| Filing.WalkItems | Ingress/qdrant_data_import.py:156-175 | the item walk succeeds exactly when every item is present, textual and valid; each kept section carries the filing's fields and the item's non-empty text |
| Filing.WalkKeepsNonEmptyInOrder | Ingress/qdrant_data_import.py:156-175 | the kept items are a subsequence of the canonical order and include every item with non-empty content |
| Filing.WalkFailsAtFirstBadItem | Ingress/qdrant_data_import.py:156-172 | a failed walk reports the error of the first item, in canonical order, that is not acceptable |
| Filing.FilingBase | Ingress/qdrant_data_import.py:150-168 | the filing-wide fields exist exactly when the CIK maps to a non-`None` ticker, the period is a parsable string and a company is present; they then carry the file's name, that ticker, the company, the formatted period, its year and `10-K`; an unknown CIK is the reported error |
| Filing.NormalizeFiling | Ingress/qdrant_data_import.py:150-175 | a filing normalises exactly when its CIK maps to a non-`None` ticker, its period parses, it has a company and all 23 items pass; an unknown CIK is the reported error |
| Filing.NormalizedSections | Ingress/qdrant_data_import.py:156-175 | every section carries the filing's name, resolved ticker, company, formatted period, year, `10-K` and its item's non-empty text; the sections are the non-empty items in canonical order |
| Filing.EmptyRequiredItemSkipsFiling | Ingress/qdrant_data_import.py:169-172 | an empty required item skips the whole filing, whatever the other items hold |
| Payload.FilingPayloadOrigin | Ingress/qdrant_data_import.py:176-196 | every payload is chunk `idx` of some kept section, with that section's metadata, the chunk as text and quarter `Q4` |
| Payload.FileIdInjective | Ingress/qdrant_data_import.py:186 | within one filing, the `file_id` determines the item name and the chunk index |
| Payload.FilingFileIdsDistinct | Ingress/qdrant_data_import.py:176-196 | sections of one filing with distinct item names give payloads with pairwise distinct `file_id`s |
| Payload.NormalizedFileIdsDistinct | Ingress/qdrant_data_import.py:156-196 | the payloads of any normalised filing have pairwise distinct `file_id`s |
| Ingestion.StoreAll | Ingress/qdrant_data_import.py:176-201 | the upserted points are the longest prefix that succeeds, and the next point is the one that raised |
| Ingestion.StoreFiling | Ingress/qdrant_data_import.py:169-203 | nothing is stored unless the filing normalises; the file completes exactly when every payload is stored; otherwise the stored points are a strict prefix |
| Ingestion.ProcessFile | Ingress/qdrant_data_import.py:145-207 | a file stores points only if its JSON loaded and its whole filing normalised, and then they are a prefix of its payloads |
| Ingestion.StoredFileIdsDistinct | Ingress/qdrant_data_import.py:176-201 | the points one file stores have pairwise distinct `file_id`s |
| Ingestion.TallyCounts | Ingress/qdrant_data_import.py:146-209 | `total_file` counts the attempted files; the completed count is at most that, equals it exactly when every file completed, and equals the number of moved files |
| Ingestion.MovedAreCompleted | Ingress/qdrant_data_import.py:203-205 | a file name is moved exactly when a file of that name completed |
| Ingestion.StoredComeFromAttempts | Ingress/qdrant_data_import.py:145-207 | every stored point was stored while some file was attempted |
| Ingestion.AttemptedFiles | Ingress/qdrant_data_import.py:138-143 | the attempted files are a subsequence of the directory listing holding every file the filter lets through |
| Ingestion.AttemptedFilesCounts | Ingress/qdrant_data_import.py:138-145 | every file the filter lets through is attempted exactly as often as the listing holds it, and no other file is |
| Ingestion.UploadRun | Ingress/qdrant_data_import.py:135-209 | the loop's counters and effects are the tally of the attempted files in directory order, and `total_file` is their number |
| Ingestion.AsWrittenCrashesOnNonJson | Ingress/qdrant_data_import.py:142 | the loop as written crashes exactly when some file name does not end in `.json` |
| Ingestion.AsWrittenKeepsEarlierEffects | Ingress/qdrant_data_import.py:138-145 | the crash at the first non-`.json` name leaves exactly the stored points and moved files of the earlier files, which the corrected loop would also have produced for them |
| Ingestion.AsWrittenAgreesOnJsonNames | Ingress/qdrant_data_import.py:138-209 | when every name ends in `.json`, the loop as written and the corrected loop report the same |
| Ingestion.UnnormalizedFileOnlyCounted | Ingress/qdrant_data_import.py:145-205 | a file whose JSON does not load or whose filing does not normalise adds one to `total_file` and stores, completes and moves nothing |
| Ingestion.UploadToQdrant | Ingress/qdrant_data_import.py:131-146 | a mapping that fails to load (first a missing `cik` column) ends the run before any file is read; otherwise the run is the corrected loop of the Findings row (line 142 read as `"10K" in file`, not the loop as written) over the attempted files with that mapping, counting each of them |
| QueryFilter.BuildClauseMeaning | Rag/Agent.py:87-94 | a clause builds exactly for an entry with four usable fields, and then holds of a payload exactly when the entry's ticker, integer year, quarter and report type match it |
| QueryFilter.BuildFilter | Rag/Agent.py:85-96 | one clause per entry in entry order; the first entry that cannot be built is the reported error |
| QueryFilter.FilterMatchesIffSomeEntry | Rag/Agent.py:85-96 | a payload matches the combined filter exactly when it matches some single requested filing |
| Rerank.Insert | Rag/Agent.py:75 | insertion keeps the order descending and adds exactly the new element |
| Rerank.SortDesc | Rag/Agent.py:75 | the sorted list is descending by score and a permutation of the input |
| Rerank.SortDescIsStable | Rag/Agent.py:75 | within each score, the sorted list keeps the input's order |
| Rerank.SortedStableUnique | Rag/Agent.py:75 | two descending arrangements with the same elements per score, in the same order, are equal |
| Rerank.SortDescCharacterized | Rag/Agent.py:75 | every stable descending arrangement of the input is the sort's result |
| Rerank.TopScored | Rag/Agent.py:75-78 | the cut keeps `min(10, n)` results in descending score order |
| Rerank.TopScoredFromInput | Rag/Agent.py:75-78 | the kept results come from the input, each at most as often as it occurs there |
| Rerank.TopScoredBeatsDropped | Rag/Agent.py:75-78 | no dropped result scores above a kept one |
| Rerank.TopScoredIsStable | Rag/Agent.py:75-78 | among equal scores, the kept results are the first ones in input order |
| Rerank.ItemsPermutation | Rag/Agent.py:78 | dropping the scores of a permutation leaves a permutation |
| Search.ScorePoints | Rag/Agent.py:57-72 | every hit is scored in hit order; a `None` text is scored as the question alone, and scoring fails exactly when some hit has no `text` or one that is neither a string nor `None` |
| Search.SearchQdrant | Rag/Agent.py:81-113 | the search succeeds exactly when the embedding, the filter, the store and, when reranking, every hit's text succeed; without reranking the store's hits pass through unchanged |
| Search.RerankedAnswer | Rag/Agent.py:106-111 | with reranking, the answer is `min(10, hits)` of the hits, each at most as often as returned, in non-increasing relevance |
| Search.RerankedFromScores | Rag/Agent.py:57-78 | with reranking, the answer is `RerankScored` of the FinBERT-scored hits, so it is their top `min(10, n)`: `Rerank.TopScoredBeatsDropped` (no dropped hit scores above a kept one) and `Rerank.TopScoredIsStable` apply to it |
| Search.AnswerBelongsToRequestedFilings | Rag/Agent.py:85-111 | if the store respects the filter, every answer point matches one of the requested filings |
| LlmOutput.CleanJsonText | Rag/Agent.py:48 | the cleaned text keeps the order of the stripped text and has no newline or backtick; every character outside `\n`, `` ` `` and `json` keeps its count, and none is gained |
| LlmOutput.GenerateJson | Rag/Agent.py:36-54 | a failed request gives the generic error and a text that does not parse the decoding error; a success is what `json.loads` returns for some text that keeps the answer's stripped order and holds no newline or backtick |
| LlmOutput.CleanOnlyRemovesJsonWord | Rag/Agent.py:48 | for trimmed text without newlines or backticks, cleaning only deletes the occurrences of `json` |
| LlmOutput.JsonWordRemoved | Rag/Agent.py:48 | a `json` after text free of it is deleted, the text before it is kept and removal goes on after it, so every non-overlapping `json` is removed |
| LlmOutput.SinglePassLeavesFormedJson | Rag/Agent.py:48 | a single pass is not a fixed point: `jsjsonon` cleans to `json` |

## Left out

- File I/O is not modelled. This covers `os.walk`, `open`, `json.load`, `shutil.move` and the exchange file's path. A file's JSON is given as already parsed, or as absent when loading raises. A failing `shutil.move`, which raises after the completed count has already grown, is not modelled.
- `print` output is not modelled.
- The qdrant client is a parameter. This covers upserts and search. Each point's `uuid4` id and its embedding vector are left out, because nothing in the model depends on their values.
- Ingestion.UploadToQdrant: `create_collection()` at line 132 is taken to succeed; if it raised, the run would end before any file is read.
- The text splitter (`CharacterTextSplitter`) is a parameter. Its chunk sizes and overlap are not modelled.
- The date parser is a parameter. It is applied once per filing, where the source calls it once per item. The parse is deterministic, and its first call happens before any item is examined, so errors appear in the same order.
- The embedding model, FinBERT and the chat model are parameters. FinBERT's logit is an integer score, because floating point is not modelled. The tokenizer's truncation at 512 tokens is not modelled. A `None` text reaches the score as "no text pair", which the tokenizer treats as the question alone. FinBERT inference is taken never to raise: its score is a total function, unlike the other collaborators, which have a failure value.
- Python's `list.sort` is modelled by a stable insertion sort. Its result is proved equal to every stable descending arrangement, so no sorting behaviour is lost.
- JSON values are strings, integers and `None` only. Floats, booleans, lists and nested objects are left out.
- `int()` accepts an optional sign and decimal digits only. The whitespace, underscore and non-ASCII Unicode decimal digit forms (such as fullwidth `２０２３`) that Python's `int()` also accepts are left out.
- `str.lower` is modelled on ASCII letters only. Unicode case mapping is left out.
- QueryFilter.Matches: matching is modelled as "some clause holds". The store's own reading of an empty `should` list, which arises when no filings are requested, is not modelled.
- QueryFilter.Condition: `MatchValue` is taken to reject `None`, as the client's validation does. Values of other JSON types are not modelled.
- The `json_filters` argument is a list of objects. A non-list or a non-object element, which raises in the source, is not modelled.
- The server (`FastAPI` routes, `uvicorn`) is not modelled. Nor are the final answer generation (`generate_final_result_from_gpt`) and the filing download and extraction (`download_10_k`).
- Item names come from the fixed list. Item content that is not a string raises `AttributeError` at `.lower()` and appears as `ContentNotText`.

## Findings

| source | as written | input that shows it | evidently intended | confidence | as-written member | corrected member |
|---|---|---|---|---|---|---|
| Ingress/qdrant_data_import.py:142 | `"10K" in file.name` on `file`, which is a `str` | a directory holding any file whose name does not end in `.json`, e.g. `notes.txt`: `str` has no `name`, so `AttributeError` is raised outside the `try` and the upload stops before the summary | `"10K" in file`, skipping non-JSON 10-K files and attempting every other file | not executed | Ingestion.AsWrittenCrashesOnNonJson | Ingestion.UploadRun |
