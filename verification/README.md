# Arabic legal-document retrieval: a verified model of its core

The system turns Arabic legal documents (laws and regulations with their
articles) into text chunks. It embeds the chunk records into a vector
collection, and answers questions through four retrieval pipelines:

- with or without a category filter;
- with or without a cross-encoder reranker.

This Dafny project models the pure logic inside those scripts and proves
what it promises.

- **Ingestion text** (`json_to_rag_chunks.py`), in modules `Articles`, `Chunker` and `ChunkFiles`:
  - the article status and effective content;
  - the `date_info` line;
  - the article blocks and their concatenation;
  - the document header;
  - the sliding-window chunker with its forward lookahead for a blank;
  - the sanitised file name and the chunk-file layout;
  - `process_document`.
- **Ingestion into the vector store** (`create_vector_db.py`), in module `VectorDb`:
  - `_init_collection` (create only when absent);
  - the `.jsonl` filter and line filter of `read_processed_files`;
  - the `"passage: "` prefix;
  - point construction and the upsert in `_process_batch`, whose failures are swallowed;
  - the batching loop of `embed_and_upsert`. `EmbedAndUpsert` runs it record by record, and the model proves that this equals a batch-wise description.
- **Retrieval**, in modules `Search`, `Rerank`, `Grouping`, `Ordering` and `Pipelines`:
  - the `"query: "` prefix;
  - the category filter;
  - the `vector_search` mappings;
  - `rerank`: a cross-encoder score per candidate, a stable descending sort, then a cut to `top_k`;
  - `group_results`. It is written three times in the source, differing only in the score field, and is modelled once over a `Hit`;
  - the four `retrieve` compositions;
  - the rank and metadata formatting.
- **Category listing** (`get_unique_categories.py`), in module `Categories`: which items are scanned, which names they add (stripped), and the sorted, duplicate-free output.
- **Shared support**:
  - `Json` holds decoded JSON values, `dict.get`, truthiness and `str()`.
  - `Errors` holds the Python exceptions the modelled code raises.
  - `Text` holds `str.strip`, `str.isspace`, `str(int)`, joins and repeats.
  - `Wrappers` holds `Option` and `Result`.

Everything the code cannot compute by itself is a parameter of the model:

- the sentence encoder (`encode`) and the vector store's search (`search`), returning its points in order;
- the cross-encoder (`predict`);
- the store's acceptance of an upsert (`accept`);
- the JSON line decoder (`decode`);
- `str.isalnum` (`isAlnum`).

Python exceptions on malformed input are `Result` errors. Scores are integers, because the code only compares and sorts them.

Two details of how the chunker cuts its windows:

- It searches FORWARD from the raw cut, over 100 positions, for `' '`, `'\n'` or `'\t'` (json_to_rag_chunks.py:164-173).
- Its fallback step is `2 * chunk_size - overlap` (json_to_rag_chunks.py:184-188).

## Model

| member | source | states |
|---|---|---|
| Json.Get | json_to_rag_chunks.py:106 | `d.get(key)` is `None` exactly when no pair has the key; otherwise it is a value stored under the key |
| Json.GetOr | json_to_rag_chunks.py:115 | `d.get(key, default)`: the stored value when the key is present, the default otherwise |
| Json.Display | json_to_rag_chunks.py:139 | an f-string renders a string as itself and `None` as `"None"` |
| Json.Without | retrieval_pipeline.py:128 | the dictionary comprehension that drops `'text'`: no lookup of the dropped key succeeds, and every other key looks up as before |
| Text.Strip | json_to_rag_chunks.py:136 | `str.strip()` returns a string that neither starts nor ends with whitespace |
| Text.StripInfix | json_to_rag_chunks.py:136 | `strip` returns a contiguous infix of its input; only the leading whitespace run comes before it, and only whitespace comes after it |
| Text.StripIdempotent | json_to_rag_chunks.py:136 | stripping twice is stripping once |
| Text.StripOfStripped | json_to_rag_chunks.py:136 | a string without whitespace at its ends is its own strip |
| Text.StripEmptyIffBlank | create_vector_db.py:66-67 | `not line.strip()` holds exactly for lines made only of whitespace |
| Text.LeadCount | json_to_rag_chunks.py:136 | the leading whitespace run: all of it whitespace, and the next character is not |
| Text.TrailStart | json_to_rag_chunks.py:136 | the trailing whitespace run: all of it whitespace, and the character before it is not |
| Text.NatToString | json_to_rag_chunks.py:90 | `str(n)` of a natural number: non-empty decimal digits with no leading zero |
| Text.ParseNatToString | json_to_rag_chunks.py:90 | the decimal rendering is lossless: reading the digits back gives the number |
| Text.IntToString | json_to_rag_chunks.py:195 | `str(i)` is non-empty and starts with `-` exactly for negative numbers |
| Text.ConcatAppend | json_to_rag_chunks.py:144 | `"".join` of two lists in turn is the two joins concatenated |
| Text.Join | json_to_rag_chunks.py:139 | the `", "`-joined listing inside `str()` of a list or dict value that the block's f-string renders (a non-string title): no parts give `""`, one part gives that part |
| Text.Repeat | json_to_rag_chunks.py:93 | `"-" * 20`: exactly `n` copies of the character |
| Articles.Status | json_to_rag_chunks.py:120-131 | the status is "ملغاة" exactly for a canceled article and "سارية" exactly for every other one |
| Articles.DateOrUnspecified | json_to_rag_chunks.py:110 | `art.get(key) or "غير محدد"`: the rendered value when it is present and truthy, the placeholder otherwise |
| Articles.DateInfo | json_to_rag_chunks.py:118-123 | the working-date segment always comes first; a canceling-date segment follows it exactly when the article is canceled |
| Articles.EffectiveContent | json_to_rag_chunks.py:115-136 | the content succeeds exactly when the chosen value is `None` or a string. `None` gives `""`, a string gives that string stripped, and the result is whitespace-stripped; anything else raises `AttributeError` |
| Articles.SelectionRule | json_to_rag_chunks.py:115-136 | a canceled article whose `original_content` is a truthy string shows that text stripped; every other article (active, or with `original_content` missing or falsy) shows `article_content` stripped, with a missing key or `None` giving `""` |
| Articles.Block | json_to_rag_chunks.py:139-140 | a block exists exactly when the article is a dictionary with usable content; it starts with `"\n["` and ends with `"]\n"`, the article's effective content and a newline |
| Articles.EmptyContentKeepsBlock | json_to_rag_chunks.py:134-142 | an article with empty content still contributes a block, ending `"]\n\n"` |
| Articles.BlockTexts | json_to_rag_chunks.py:138-142 | one block text per article, in order |
| Articles.FlattenListOk | json_to_rag_chunks.py:105-144 | the loop over the articles completes exactly when every article yields a block |
| Articles.FlattenListBlocks | json_to_rag_chunks.py:104-144 | a completed flattening is the in-order concatenation of exactly one block per article |
| Articles.FlattenListFirstError | json_to_rag_chunks.py:105-136 | a failed flattening reports the error of the first article that raises |
| Articles.Flatten | json_to_rag_chunks.py:96-144 | a missing, `None` or empty articles value gives `""`; a list gives the loop's result; any other truthy value raises |
| Articles.Header | json_to_rag_chunks.py:83-94 | the header ends with the rule of 20 dashes and a newline |
| Chunker.Scan | json_to_rag_chunks.py:167-171 | the lookahead loop finds the first `' '`, `'\n'` or `'\t'` in its range, or reports that the range holds none |
| Chunker.NextSpace | json_to_rag_chunks.py:164-173 | `next_space` is the first blank at or after the raw cut and fewer than 100 positions past it, or there is none in that range |
| Chunker.WindowEnd | json_to_rag_chunks.py:160-173 | a window end is past its start and inside the body, less than `chunk_size + 100` away; it is the body's end when the window reaches it, and otherwise at or after the raw cut |
| Chunker.WindowEndCut | json_to_rag_chunks.py:164-173 | an end short of the body sits on the first blank of the lookahead, or at the raw cut when the lookahead holds no blank |
| Chunker.DefaultConfigSteps | json_to_rag_chunks.py:9-10 | the shipped configuration (1500, 200) is valid and moves the window start 1300 characters, exactly as written |
| Chunker.WrittenStepStalls | json_to_rag_chunks.py:184-188 | as written, an overlap of twice the chunk size or more moves the start by zero or less |
| Chunker.WrittenStepStallsExample | json_to_rag_chunks.py:184-188 | chunk size 1 with overlap 2 leaves the start where it was |
| Chunker.StepPositive | json_to_rag_chunks.py:186-188 | the corrected step always moves the start forward, so the loop ends |
| Chunker.StepAgreesWhereWrittenAdvances | json_to_rag_chunks.py:184-188 | wherever the written step moves forward, the corrected step is exactly the written one |
| Chunker.StepIsWrittenBelowTwiceChunkSize | json_to_rag_chunks.py:184-188 | for every overlap below twice the chunk size, the corrected step is the written one |
| Chunker.StepAtMostChunkSize | json_to_rag_chunks.py:184 | with a non-negative overlap the start never moves past a full window |
| Chunker.Windows | json_to_rag_chunks.py:158-188 | the window bounds: at least one window, the first at the start; each a non-empty slice of the body; each next start one step after the previous one |
| Chunker.WindowsUnfold | json_to_rag_chunks.py:175-184 | a window short of the body, with a next start inside it, is followed by the windows from that start |
| Chunker.WindowsOne | json_to_rag_chunks.py:159-181 | a window that reaches the body's end, or whose next start is past it, is the last one |
| Chunker.WindowsEnds | json_to_rag_chunks.py:160-173 | every window ends where the lookahead places the cut for its start |
| Chunker.WindowsBounded | json_to_rag_chunks.py:160-173 | no window spans more than `chunk_size + 99` characters |
| Chunker.WindowsCount | json_to_rag_chunks.py:158-188 | window `i` starts `i` steps after the first, and the last start is inside the body, which bounds the number of windows |
| Chunker.WindowsLast | json_to_rag_chunks.py:179-181 | with a non-negative overlap the last window ends at the end of the body |
| Chunker.NextStartWithin | json_to_rag_chunks.py:160-184 | with a non-negative overlap, a next start inside the body is at or before the current window's end |
| Chunker.WindowsChain | json_to_rag_chunks.py:158-188 | with a non-negative overlap no character is skipped: each window starts at or before the previous end, and the last ends at the body's end |
| Chunker.ChainCovers | json_to_rag_chunks.py:158-188 | chained windows cover every position from the first start to the last end |
| Chunker.WindowsCover | json_to_rag_chunks.py:158-188 | every body position lies inside some window |
| Chunker.WindowsTiling | json_to_rag_chunks.py:158-188 | the windows tile the body: strictly increasing starts, no gaps, ending at the body's end |
| Chunker.FreshParts | json_to_rag_chunks.py:175 | each window, less the part the next window repeats, is a slice of the body |
| Chunker.TilingReassembles | json_to_rag_chunks.py:158-188 | the non-overlapping parts of a tiling, concatenated, give back the body |
| Chunker.WindowsReassemble | json_to_rag_chunks.py:158-188 | dropping the overlaps from the chunker's windows and concatenating gives back the whole body |
| Chunker.ChunkText | json_to_rag_chunks.py:146-190 | at least one chunk. An empty body gives exactly `[header.strip()]`; otherwise every chunk is the header followed by something more |
| Chunker.ChunksAreWindows | json_to_rag_chunks.py:175-177 | for a non-empty body, chunk `i` is the header followed by window `i`'s slice of the body, and there is one chunk per window |
| Chunker.ShortBodyIsOneChunk | json_to_rag_chunks.py:159-181 | a body that fits in one window gives the single chunk `header + body` |
| ChunkFiles.SafeId | json_to_rag_chunks.py:195 | the safe id keeps exactly the alphanumeric characters, `-` and `_` of the id, with their multiplicities |
| ChunkFiles.SafeIdChar | json_to_rag_chunks.py:195 | one character survives, as itself, exactly when it is alphanumeric, `-` or `_` |
| ChunkFiles.SafeIdAppend | json_to_rag_chunks.py:195 | the filter goes character by character: the stem of a concatenation is the concatenation of the stems, so kept characters keep their order |
| ChunkFiles.SafeIdIdempotent | json_to_rag_chunks.py:195 | sanitising a sanitised id changes nothing |
| ChunkFiles.SafeIdKeepsCleanIds | json_to_rag_chunks.py:195 | an id made only of kept characters is its own file-name stem |
| ChunkFiles.FileTextAppend | json_to_rag_chunks.py:199-203 | writing one more chunk appends its numbered record `--- CHUNK n ---`, the chunk and a blank line |
| ChunkFiles.FileTextEmpty | json_to_rag_chunks.py:199-203 | no chunks give an empty file |
| ChunkFiles.ProcessDocument | json_to_rag_chunks.py:62-81 | a non-dictionary document raises; otherwise the run succeeds exactly when its articles flatten. The chunks are the chunker's output for the header and the flattened body, the file holds their records, and the file name is the sanitised `element_id` (default `"unknown"`) plus `.txt` |
| ChunkFiles.NoArticlesGiveHeaderChunk | json_to_rag_chunks.py:75 | a document without articles yields the single chunk of its stripped header |
| VectorDb.InitCollection | create_vector_db.py:34-49 | an existing collection is left untouched; a missing one is created with cosine distance and the given dimension; no other collection changes |
| VectorDb.InitCollectionIdempotent | create_vector_db.py:37-49 | initialising twice is initialising once |
| VectorDb.Parse | create_vector_db.py:66-73 | a record produced from a line is that line's decoding |
| VectorDb.ParseSkipsBlank | create_vector_db.py:66-73 | a line yields a record exactly when it is not blank and it decodes |
| VectorDb.FileRecords | create_vector_db.py:65-73 | a file yields at most one record per line |
| VectorDb.FileRecordsAppend | create_vector_db.py:65-73 | records come out in line order: the records of two consecutive runs of lines are those of the first run followed by those of the second |
| VectorDb.FileRecordsLine | create_vector_db.py:65-73 | one line yields its record when it is non-blank and decodes, and nothing otherwise |
| VectorDb.FileRecordsMembers | create_vector_db.py:65-73 | a record comes from a file exactly when some line of it yields that record |
| VectorDb.ReadProcessedFilesMembers | create_vector_db.py:51-79 | the stream holds exactly the records that some non-blank, decodable line of some `.jsonl` file yields |
| VectorDb.ReadProcessedFilesAppend | create_vector_db.py:55-59 | files are read one after the other: the stream of two listings is the two streams in turn |
| VectorDb.Subscript | create_vector_db.py:98 | `doc[key]` succeeds exactly on a dictionary holding the key; otherwise `KeyError` for a dictionary and `TypeError` for anything else |
| VectorDb.PassageText | create_vector_db.py:98 | the embedded text is `"passage: "` followed by the rendered `vector_text`; a record without `vector_text` raises that error |
| VectorDb.BuildPoints | create_vector_db.py:129-138 | points are built exactly when every record has an `id` and a `payload` and there are enough embeddings; then there is one point per record |
| VectorDb.BuildPointsContents | create_vector_db.py:130-138 | point `i` has record `i`'s `id` and `payload` and embedding `i` as its vector |
| VectorDb.Upsert | create_vector_db.py:141-144 | after the upsert the collection's ids are the old ones plus the batch's |
| VectorDb.UpsertOther | create_vector_db.py:141-144 | an id no point of the batch carries keeps its presence and its point |
| VectorDb.UpsertStores | create_vector_db.py:141-144 | every point of the batch is stored under its id, unless a later point of the batch carries the same id |
| VectorDb.UpsertLastWins | create_vector_db.py:141-144 | for a repeated id, the last point of the batch with it is the one stored |
| VectorDb.ProcessBatch | create_vector_db.py:117-147 | processing a batch never removes an id, even when it fails |
| VectorDb.ProcessBatchFrame | create_vector_db.py:117-147 | a batch touches only its own records' ids: no other id appears, and every other point keeps its value |
| VectorDb.ProcessBatchStores | create_vector_db.py:119-144 | a batch that encodes, builds and is accepted makes every record retrievable by its id, with a record's embedding and payload |
| VectorDb.LastStart | create_vector_db.py:103-113 | the last batch starts at a multiple of `BATCH_SIZE`, within one batch of the end |
| VectorDb.LastStartUnique | create_vector_db.py:103-113 | there is only one such start |
| VectorDb.BatchesSnoc | create_vector_db.py:103-113 | a stream that runs past a whole number of batches ends in one more batch |
| VectorDb.BatchesShape | create_vector_db.py:95-113 | the batches, concatenated, give back the stream. None is empty or larger than 32, all but the last are full, and a whole number of batches holds only full ones |
| VectorDb.FirstBad | create_vector_db.py:95-98 | the position of the first record without `vector_text`: every earlier record can be prepared, and that one cannot |
| VectorDb.FullPart | create_vector_db.py:103-108 | the records of the full batches among the first `n`: a multiple of 32 within one batch of `n` |
| VectorDb.ProcessAll | create_vector_db.py:103-113 | processing the batches in turn never removes an id |
| VectorDb.AdvanceStep | create_vector_db.py:95-108 | one good record takes the loop to the state the batch-wise description has one record later |
| VectorDb.AbortStep | create_vector_db.py:95-98 | a record without `vector_text` ends the run with that error; the full batches before it are processed, and the pending batch is lost |
| VectorDb.CompleteStep | create_vector_db.py:110-113 | without a bad record, the last partial batch is processed after the loop and the run completes |
| VectorDb.ResumeIsIngest | create_vector_db.py:95-113 | from any state the batch-wise description reaches, the record-by-record loop ends where the description says |
| VectorDb.EmbedAndUpsert | create_vector_db.py:81-115 | the record-by-record loop returns exactly the batch-wise outcome: the collection, the count and the exception |
| VectorDb.IngestCount | create_vector_db.py:93-113 | the run completes exactly when every record has `vector_text`; `count` is then the stream's length, failed batches included; an aborted run counts the full batches before the bad record |
| VectorDb.IngestKeepsIds | create_vector_db.py:81-147 | a run only adds or replaces points, never removes them |
| Search.QueryText | retrieval_pipeline.py:51 | the encoder receives `"query: "` followed by the query |
| Search.QueryTextInjective | categorized_retrieval_pipeline.py:33-35 | different queries are never sent as the same text |
| Search.CategoryFilter | categorized_retrieval_pipeline.py:41-52 | no filter exactly when the category is `None` or empty; otherwise one must-condition, `MatchAny` on `"categories"` with `[category]` |
| Search.CategoryFilterAdmits | categorized_retrieval_pipeline_without_reranker.py:38-49 | with a non-empty category the filter admits exactly the payloads tagged with it; without one it admits every payload |
| Search.Candidates | categorized_retrieval_pipeline.py:62-69 | one candidate per point, in order, carrying the point's id, score (as `initial_score`) and payload |
| Search.Hits | retrieval_pipeline_without_reranker.py:46-53 | one hit per point, in order, carrying the point's id, score and payload |
| Rerank.RichText | categorized_retrieval_pipeline.py:78-83 | the reranked text starts with the law label and ends with the article's `text_content` |
| Rerank.RichTextOfBarePayload | categorized_retrieval_pipeline.py:78-83 | a payload without the four fields is rendered from empty strings |
| Rerank.Pairs | retrieval_pipeline.py:82-85 | exactly one `[query, document]` pair per candidate, in order |
| Rerank.Attach | categorized_retrieval_pipeline.py:88-89 | candidate `i` gets score `i` |
| Rerank.Rerank | categorized_retrieval_pipeline.py:71-92 | no candidates give `[]`; too few scores raise `IndexError`; otherwise there are `min(top_k, n)` results |
| Rerank.RerankIsStableSortPrefix | retrieval_pipeline.py:88-97 | the result is the `top_k` prefix of THE stable descending sort of the scored candidates |
| Rerank.RerankSorted | categorized_retrieval_pipeline.py:86-92 | results come best first, each a candidate carrying its own score |
| Ordering.Tier | categorized_retrieval_pipeline.py:91 | the items of one score, in their original order |
| Ordering.Insert | categorized_retrieval_pipeline.py:91 | inserting adds exactly the one item |
| Ordering.SortDesc | categorized_retrieval_pipeline.py:91 | the sort is a permutation of its input |
| Ordering.SortDescIsStable | categorized_retrieval_pipeline.py:91 | `sorted(..., reverse=True)` is a stable descending sort: keys do not increase, and each score's items keep their input order |
| Ordering.StableSortDescUnique | categorized_retrieval_pipeline.py:91 | there is only one stable descending sort of a list |
| Ordering.StableSortDescIsSortDesc | retrieval_pipeline.py:95 | any stable descending sort of the list is the modelled sort |
| Ordering.Prefix | categorized_retrieval_pipeline.py:140 | `s[:k]` with Python's slicing rules, including negative `k` |
| Ordering.PrefixNonIncreasing | categorized_retrieval_pipeline.py:140 | a prefix of a best-first list is best first |
| Grouping.GroupKey | categorized_retrieval_pipeline.py:98-100 | the key is `article_group_id` when truthy, the chunk's `id` otherwise |
| Grouping.IndexOf | categorized_retrieval_pipeline.py:102 | `group_id in grouped`: the entry for the key, or none |
| Grouping.FirstIndex | retrieval_pipeline_without_reranker.py:61-69 | the first hit carrying the key |
| Grouping.CollectSound | retrieval_pipeline_without_reranker.py:59-80 | the dictionary has one entry per distinct key, in first-seen order. Each entry counts its members, holds their maximum score and the payload of the first member reaching it, and the counts add up to the number of hits |
| Grouping.AbsorbSound | categorized_retrieval_pipeline.py:97-112 | one loop iteration keeps the dictionary sound for one more hit: distinct keys in first-seen order, each entry summarising its members, counts adding up |
| Grouping.GroupResultsCorrect | categorized_retrieval_pipeline_without_reranker.py:68-99 | `group_results` is the stable descending sort of the entries by best score. Keys are distinct; each entry summarises its members; every hit is represented; equal scores keep first-seen order; the counts add up to the number of hits |
| Grouping.GroupResultsProvenance | retrieval_pipeline_without_reranker.py:83-91 | every output's score and payload are those of one of the hits |
| Grouping.Output | categorized_retrieval_pipeline.py:114-121 | one `{score, payload, group_count}` per entry, in order |
| Grouping.OutputNonIncreasing | categorized_retrieval_pipeline.py:123 | the sorted output is best first |
| Grouping.TwoArticlesExample | retrieval_pipeline_without_reranker.py:55-95 | three chunks of two articles: the article holding the best chunk comes first, with two chunks counted |
| Pipelines.RerankedHits | categorized_retrieval_pipeline.py:98-110 | the reranked candidates are grouped by `rerank_score` |
| Pipelines.GroupTop | categorized_retrieval_pipeline_without_reranker.py:113-115 | at most `top_k` groups are returned |
| Pipelines.GroupTopSound | retrieval_pipeline_without_reranker.py:107-109 | grouped results are best first, each with the score and payload of a hit |
| Pipelines.GroupPointsSound | retrieval_pipeline_without_reranker.py:97-109 | grouping the store's points: best first, each result with a returned point's score and payload |
| Pipelines.CategorizedRetrieve | categorized_retrieval_pipeline_without_reranker.py:101-115 | at most `top_k` results |
| Pipelines.CategorizedRetrieveSound | categorized_retrieval_pipeline_without_reranker.py:101-115 | without a reranker: best first, each with the score and payload of a returned point; when the store honours the filter, every result carries the category |
| Pipelines.NoCategoryIsPlain | categorized_retrieval_pipeline_without_reranker.py:38-49 | with no category or an empty one, the categorized pipeline is the plain one |
| Pipelines.AdmittedCarryCategory | categorized_retrieval_pipeline.py:43-52 | results whose payloads come from points the filter admitted carry the category |
| Pipelines.PlainRetrieve | retrieval_pipeline_without_reranker.py:97-109 | at most `top_k` results |
| Pipelines.RerankedFromPoints | categorized_retrieval_pipeline.py:62-92 | every reranked candidate has the payload and initial score of a returned point |
| Pipelines.GroupRerankedSound | categorized_retrieval_pipeline.py:94-124 | grouping reranked candidates: best first, each payload a returned one |
| Pipelines.RerankGroupTop | categorized_retrieval_pipeline.py:135-140 | at most `top_k` results after reranking and grouping |
| Pipelines.RerankGroupTopSound | categorized_retrieval_pipeline.py:135-140 | after reranking and grouping: best first, each with a returned point's payload |
| Pipelines.CategorizedRerankRetrieve | categorized_retrieval_pipeline.py:126-140 | at most `top_k` results |
| Pipelines.CategorizedRerankRetrieveSound | categorized_retrieval_pipeline.py:126-140 | best first by reranker score, each with a returned point's payload; when the store honours the filter, every result carries the category |
| Pipelines.Format | retrieval_pipeline.py:121-129 | ranks run 1, 2, ... and `score` is the rerank score |
| Pipelines.RerankFormat | retrieval_pipeline.py:118-129 | at most `top_k` formatted results |
| Pipelines.RerankFormatSound | retrieval_pipeline.py:118-129 | `min(top_k, #points)` results ranked 1, 2, ... best first. `initial_score` and `content` come from a returned point, and `metadata` is its payload without exactly `'text'` |
| Pipelines.PlainRerankRetrieve | retrieval_pipeline.py:99-131 | at most `top_k` results |
| Pipelines.PlainRerankRetrieveSound | retrieval_pipeline.py:113-129 | `min(top_k, #points)` results with consecutive ranks and no `'text'` in the metadata |
| Pipelines.NoPointsNoResults | categorized_retrieval_pipeline.py:72-73 | a store that returns nothing gives no results, and the cross-encoder is not consulted |
| Categories.ItemsMembers | get_unique_categories.py:16-30 | the items are a list root's elements, or a dictionary root's list values spliced in and dictionary values appended |
| Categories.ItemCategoriesMembers | get_unique_categories.py:34-46 | an item adds exactly the names it carries: non-dictionaries and falsy `categories` add none; a list adds its stripped string elements, a string adds itself stripped |
| Categories.FlatMapMembers | get_unique_categories.py:34-46 | the names of all items are the names of some item |
| Categories.AllCategoriesMembers | get_unique_categories.py:34-46 | a name is collected exactly when some item carries it |
| Categories.LessIrreflexive | get_unique_categories.py:50 | Python's string order is irreflexive |
| Categories.LessTransitive | get_unique_categories.py:50 | Python's string order is transitive |
| Categories.LessTotal | get_unique_categories.py:50 | Python's string order is total |
| Categories.Insert | get_unique_categories.py:44 | adding a name keeps the list sorted and duplicate-free, and adds exactly that name |
| Categories.InsertPresent | get_unique_categories.py:44 | adding a name already present changes nothing |
| Categories.SortUnique | get_unique_categories.py:50 | `sorted(list(set))`: sorted, duplicate-free, with the same names |
| Categories.StrictlySortedUnique | get_unique_categories.py:50 | there is only one sorted, duplicate-free listing of a set of names |
| Categories.StrictlySortedCount | get_unique_categories.py:54 | such a listing has one entry per distinct name |
| Categories.UniqueCategories | get_unique_categories.py:13-50 | the output is sorted and duplicate-free, and holds exactly the collected set |
| Categories.UniqueCategoriesMembers | get_unique_categories.py:13-50 | the output lists exactly the names some scanned item carries |
| Categories.UniqueCategoriesIsSortedSet | get_unique_categories.py:50 | the output is THE sorted listing of the set, whatever the order and repetitions in the file |
| Categories.UniqueCategoriesOrderFree | get_unique_categories.py:13-46 | roots scanning the same items, in any order and with any repetitions, give the same output |
| Categories.UniqueCategoriesCount | get_unique_categories.py:50-54 | the printed total equals the length of the printed list |
| Categories.UniqueCategoriesStripped | get_unique_categories.py:44-46 | no printed name starts or ends with whitespace |
| Categories.LawsListExample | get_unique_categories.py:16-50 | a dictionary root holding a list of laws yields `["a", "b"]`. Padding is stripped, a repeat is listed once, and a number and an empty string add nothing |

## Left out

- File and stream I/O is left out: `ijson` streaming of the input files, `os.listdir`, `open` and the writes, and printing and progress output. The directory listing is an input (`DirEntry` names and lines, in listing order). A file that fails to read contributes the lines read before the failure. `_write_chunks` is modelled as the text it writes.
- `json.loads` / `json.load` are the `decode` parameter; the decoded values have no floats, and a dictionary's keys are taken as unique.
- The sentence encoder, the cross-encoder and the vector store are parameters. Floating-point scores and vectors, normalisation and cosine distance are not modelled; scores are integers and only compared.
- The store's evaluation of `MatchAny` is not the code's. `Search.Matches` records one reading of it, and the category results are stated under the hypothesis that the store returned only admitted points.
- `models.PointStruct` validation and the store's rejection of an upsert are the `accept` parameter; an accepted upsert is atomic.
- `str.isalnum` is the `isAlnum` parameter; `str.isspace` is a fixed table of the characters Python treats as whitespace.
- `Json.Repr` renders containers and strings without Python's escaping of quotes and control characters.
- Group keys are compared as JSON values. Python's `1 == True` key equality is not modelled, and neither are unhashable keys (a list `article_group_id` raises in Python).
- Chunk-id hashing and `article_group_id` construction belong to code that is not part of this model; the records' `id`, `payload` and `vector_text` are taken as given.
- The read error of `get_unique_categories.py` (its early `return`) and its printing are left out; the model returns the sorted list and its length.
- Chunker.Windows: requires a positive chunk size (`ValidConfig`), as do the chunker's other members. With `chunk_size <= 0` the raw cut `start + chunk_size` is at or before the start. The lookahead then moves it to the first blank within the next 100 positions, if any; for a negative size, Python's negative indexing reads that blank from the end of the body. A window is empty or ends at that blank, and the loop advances only when the overlap is below the chunk size. That configuration is not modelled.
- Chunker.WindowsChain: coverage and tiling (also WindowsCover, WindowsLast, WindowsReassemble, WindowsTiling) are proved for a non-negative overlap only. A negative overlap makes the step larger than the chunk size and can skip characters.
- Chunker.Step: the model's chunker uses the corrected step (see Findings). For every overlap below twice the chunk size it equals the source's step, and so for every configuration under which the source terminates.
- Articles.Header: the contract states only the closing rule of dashes; the three labelled lines (`element_id`, `decision_name`, `law_address`, each read with a `""` default) are the body's template.
- Articles.Block: the contract states when a block exists, its opening `"\n["` and its closing `"]\n"`, content and newline; the title, status and date segments between them are the body's template.
- Rerank.RichText: the contract states the law label at the front and the article content at the end; the fields in between are the body's template, and RichTextOfBarePayload shows it on a payload without them.
- Rerank.Rerank: too many scores are ignored, as in the source; too few are the `IndexError` of `scores[i]`.

## Findings

| source | as written | input that shows it | evidently intended | confidence | as-written member | corrected member |
|---|---|---|---|---|---|---|
| json_to_rag_chunks.py:184-188 | the fallback adds `chunk_size` on top of `chunk_size - overlap`, so the step is `2 * chunk_size - overlap`, which is zero or negative once `overlap >= 2 * chunk_size` and the `while start < body_len` loop never ends | `chunk_size = 1`, `overlap = 2` (the step is 0), with any body longer than one character | the comment says "Fallback to no overlap to prevent infinite loop": the start should always move forward | not executed | Chunker.WrittenStepStalls | Chunker.StepPositive |
