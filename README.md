# Jira Epic Generator: a Dafny model of its core

The Jira Epic Generator is a small Node.js service. Given a list of Jira ticket keys and an optional search keyword, it does the following:

1. It fetches the requested Enhancement tickets and every Enhancement matching the keyword, page by page. Each ticket becomes a compact record whose rich-text fields, in Atlassian Document Format (ADF), are flattened to plain text and whose fields are truncated.
2. It asks a language model to summarise each list in batches of ten, merges the two summaries, and has the model draft an Epic.
3. It parses the draft into its five sections (summary, description, "I want", "so that", acceptance criteria).

A second module indexes GitHub repositories in a Qdrant vector store:

- it lists each repository's files;
- it embeds every file's base name;
- it pads or truncates the vector to 3072 dimensions;
- it upserts the point in batches of 100 under an id derived from a Java-style string hash.

The same module also answers similarity searches, and it assembles a plain-text report from file contents after cleaning their paths.

This project models that core in Dafny and proves what it promises. Every external service is a function parameter of the model:

- the issue tracker is `fetch` and `tracker`;
- the language model is `llm`;
- the embedding service is `embed`;
- the GitHub tree and contents endpoints are `tree` and `fetch`;
- the vector store's search is `search`.

The vector store's collections are the state of a `Store` class.

Modules, one per file:

- `Wrappers`: `Option`, `Result` and the error kinds the model distinguishes.
- `JsString`: JavaScript's `trim` (with its whitespace set), `startsWith`, `includes`, ASCII `toLowerCase`/`toUpperCase`, `split` and `join`.
- `JsValue`: JSON-shaped JavaScript values, with truthiness, property reads (a read of `null`/`undefined` is a `TypeError`), `||`, and string conversion.
- `Adf`: `extractTextFromADF` and `createADF`.
- `Tickets`: `truncate`, `getFieldValue`, the ticket record built in `/generate-epic`, the null filter after the fan-out, and the exclusion of requested keys from keyword hits.
- `Batching`: consecutive slices of a fixed size, as the two batch loops use them.
- `Summarize`: `summarizeTicketsInBatches`, as a loop over an oracle language model that records every prompt it sends.
- `KeywordSearch`: the pagination loop of `searchTicketsByKeyword`.
- `EpicPipeline`: `/generate-epic` from the request to the preview, including the agent merge and the drafting call.
- `EpicParser`: `parseEpicContent`, as a loop over lines proved equal to a declarative definition.
- `StringHash`: `stringHashCode`.
- `VectorStore`: pad/truncate, points, the store class (`setupQdrantCollection`, upsert, `storeEmbeddingsInQdrant`) and `searchSimilarFiles`.
- `GitHubFiles`: `fetchGitHubFilesRecursive`'s filter and map, path cleaning in `fetchGitHubFileContent`, and the `fetchGitHubFiles` report.
- `Indexer`: the repository table, its de-duplication and `createStoreEmbeddings`.

Where the code and the project's own description of it differ, the model follows the code:

- `truncate(s, max)` appends `"..."` after `max` characters, so a truncated summary is 303 characters long and a truncated description 503, not at most 300/500.
- `summarizeTicketsInBatches([])` still sends one merge prompt. It does so over no summaries, so an empty keyword list does not save a language-model call.
- The section parser opens the description only on a `Business Context:` line. A `Description:` line is ordinary text of the current section, and under the summary it is dropped, although the drafting prompt asks the model for a `Description:` heading.
- `fetchGitHubFileContent` returns the response body as it is. No base64 decoding takes place.

## Model

| member | source | states |
|---|---|---|
| JsString.Trim | backend/server.js:36 | the trimmed string is no longer than the input and neither starts nor ends with JavaScript whitespace |
| JsString.TrimIsInner | backend/server.js:36 | trimming removes only whitespace, from both ends, and keeps the inside |
| JsString.TrimIdempotent | backend/server.js:82-86 | trimming twice is trimming once |
| JsString.Split | backend/server.js:62 | splitting yields at least one piece and no piece contains the separator |
| JsString.JoinSplit | backend/server.js:62 | joining the pieces of a split with the same separator gives the string back |
| JsValue.Get | backend/server.js:16 | reading a property of null or undefined is a TypeError; any other value yields the property or undefined |
| Tickets.Truncate | backend/server.js:196-197 | a non-string or a string of at most `max` characters is returned unchanged; a longer string becomes its first `max` characters followed by "...", length `max`+3 |
| Tickets.TruncateIdempotent | backend/server.js:196-197 | truncating an already truncated value at the same limit changes nothing |
| Tickets.GetFieldValue | backend/server.js:14-20 | the result is a truthy `.value` of the field, else the truthy field itself, else the empty string; it is never a falsy value other than '' |
| Tickets.RichText | backend/server.js:279-301 | a non-object value passes unchanged; an object-typed value (null included) becomes its extracted ADF text, and fails exactly when extraction fails |
| Tickets.NormalizeIssue | backend/server.js:270-303 | an issue yields a record iff its issue type is named "enhancement" in any case and no field read throws; the record's summary, iWant, soThat and acceptance criteria are truncated at 300 and its description at 500 |
| Tickets.RichFieldIsTrimmedText | backend/server.js:285-290 | an object-typed field reaches the record as its ADF text, trimmed, before truncation |
| Tickets.Present | backend/server.js:309 | the null filter keeps exactly the present elements and never lengthens the list |
| Tickets.PresentConcat | backend/server.js:309 | the null filter keeps order: filtering a concatenation concatenates the filtered parts |
| Tickets.FetchEach | backend/server.js:256-308 | one fetch-and-normalise result per requested key, position by position |
| Tickets.FetchTickets | backend/server.js:256-309 | every ticket record is the normalised issue of one of the requested keys and is within the field limits; every requested key whose issue is fetched and normalises to a record contributes that record; there are no more records than keys |
| Tickets.FetchTicketsConcat | backend/server.js:256-309 | the fetched records keep the order of the requested keys |
| Tickets.KeywordTickets | backend/server.js:320-363 | every keyword record is the normalised record of one of the hits and is within the field limits, and every hit that normalises to a record contributes that record |
| Tickets.Normalized | backend/server.js:322-362 | one normalisation result per hit, position by position, under the hit's own key |
| Tickets.KeywordTicketsConcat | backend/server.js:320-363 | the keyword records keep the order of the hits |
| Tickets.ExcludeRequested | backend/server.js:315-318 | a hit is kept iff it was found and its upper-cased key is not among the upper-cased requested keys |
| Tickets.ExcludeRequestedConcat | backend/server.js:316-318 | the exclusion is an order-preserving filter |
| Tickets.ExcludeRequestedIdempotent | backend/server.js:316-318 | excluding twice is excluding once |
| Adf.Cat | backend/server.js:25-36 | concatenating partial texts fails iff either part failed, else concatenates them |
| Adf.CatAssoc | backend/server.js:25-36 | how partial texts are grouped when combined does not matter |
| Adf.RunText | backend/server.js:27-31 | a null or undefined child throws; a child that is not of type "text" adds nothing |
| Adf.ItemText | backend/server.js:25-35 | a null or undefined top-level node throws |
| Adf.ExtractTextFromAdf | backend/server.js:23-37 | a falsy document or falsy content gives ''; truthy non-array content throws; a result neither starts nor ends with whitespace |
| Adf.ExtractedTextIsTrimmed | backend/server.js:36 | an extracted text is its own trim |
| Adf.AdfRoundTrip | backend/server.js:23-51 | extracting the text of the document built from `t` gives `trim(t)` |
| Adf.TextRunText | backend/server.js:28-29 | a text run contributes exactly its text |
| Adf.ParagraphText | backend/server.js:26-33 | a paragraph contributes the text of its runs followed by a newline |
| Adf.DocText | backend/server.js:24-36 | a document's text is the trimmed concatenation of its nodes' texts |
| Adf.ItemsTextConcat | backend/server.js:25-35 | the text of a node list is the concatenation of its parts' texts, in order |
| Adf.RunsTextConcat | backend/server.js:27-32 | the text of a run list is the concatenation of its parts' texts, in order |
| Adf.OtherNodeIgnored | backend/server.js:26-35 | a top-level node that is not a paragraph with content contributes nothing |
| Adf.OtherRunIgnored | backend/server.js:28-31 | a child that is not a text run contributes nothing |
| Batching.Batches | backend/server.js:202-203 | there are no batches exactly when the input is empty |
| Batching.BatchSizes | backend/server.js:202-203 | every batch holds between 1 and `size` elements |
| Batching.BatchesCover | backend/server.js:202-203 | the batches, concatenated in order, are the input |
| Batching.BatchCount | backend/server.js:202 | there are ⌈n/size⌉ batches |
| Batching.BatchesFull | backend/server.js:202-203 | every batch but the last holds exactly `size` elements |
| Batching.BatchesOfRest | backend/server.js:202-203 | the batches from offset `i` are the slice from `i` of at most `size` elements, then the batches from `i+size` |
| Batching.NextBatch | backend/server.js:202-203 | advancing the loop by one batch appends exactly the next batch to those already taken |
| Summarize.BatchesInOrder | backend/server.js:202-217 | the j-th prompt sent is the prompt for the j-th batch, and the j-th summary is the model's answer to it |
| Summarize.PromptsSnoc | backend/server.js:202-217 | one more batch adds one prompt and one summary at the end |
| Summarize.SummarizeEachBatch | backend/server.js:201-217 | the loop sends one prompt per batch, in batch order, and collects the answers in that order |
| Summarize.SummarizeTicketsInBatches | backend/server.js:200-231 | the method's summary and prompt trace are those of the batch-then-merge definition |
| Summarize.CallCount | backend/server.js:200-231 | the model is called ⌈n/size⌉ times, plus once more unless there is exactly one batch |
| Summarize.SingleBatchVerbatim | backend/server.js:219 | with exactly one batch, that batch's summary is returned verbatim and no merge prompt is sent |
| Summarize.NoTicketsStillMerges | backend/server.js:218-230 | an empty list sends exactly one prompt, the merge of no summaries |
| Summarize.SeveralBatchesMerge | backend/server.js:218-230 | with several batches the last prompt merges all batch summaries in batch order, and its answer is the result |
| KeywordSearch.Then | backend/server.js:183-186 | prepending a page keeps a completed search complete and puts the page in front |
| KeywordSearch.SearchTicketsByKeyword | backend/server.js:152-193 | the loop returns what the paging definition finds and requests exactly its offsets; an empty keyword issues no request |
| KeywordSearch.RequestOffsets | backend/server.js:155-186 | the j-th request asks for offset `startAt + 100*j` |
| KeywordSearch.FuelMonotone | backend/server.js:158-187 | once the search ends within the page bound, a larger bound changes neither result nor requests |
| KeywordSearch.DoneIsConcatenation | backend/server.js:183-188 | a completed search returns the requested pages concatenated in request order |
| KeywordSearch.DonePagesFull | backend/server.js:183-186 | in a completed search every request succeeded, every page but the last held 100 issues and the last held fewer |
| KeywordSearch.FailureDiscardsPages | backend/server.js:189-192 | a failed request discards every page gathered so far: the result is empty |
| KeywordSearch.FailedAtLast | backend/server.js:157-192 | a failed search stops at its first failing request, which is its last |
| EpicPipeline.KeywordHits | backend/server.js:312-319 | a falsy or blank keyword gives no hits and no search; a truthy non-string keyword throws; otherwise a hit is kept iff the search for the trimmed keyword found it and its upper-cased key was not requested |
| EpicPipeline.DraftEpic | backend/server.js:365-434 | the method sends the two batch summaries, the agent merge and the drafting prompt, and returns the draft, as the definition states |
| EpicPipeline.GenerateEpic | backend/server.js:249-444 | the handler's preview (the draft and the requested records followed by the keyword records) and its prompt trace are those of the definition |
| EpicPipeline.CallCount | backend/server.js:366-425 | a request sends the two summarising agents' calls plus two more; with at most ten tickets per list that is four calls |
| EpicPipeline.DraftedCallCount | backend/server.js:366-425 | the same count for the model stage alone |
| EpicPipeline.SmallListOneCall | backend/server.js:200-231 | summarising any list costs at least one call, and a list of at most ten exactly one |
| EpicPipeline.KeywordTicketsNotRequested | backend/server.js:309-363 | in the preview, the records after the requested ones never carry a requested key, in any case |
| EpicParser.ParseEpicContent | backend/server.js:54-88 | the line loop with its current-section state and final trim pass yields the declaratively defined sections |
| EpicParser.HeaderStep | backend/server.js:68-75 | a non-summary header switches the section and adds no text |
| EpicParser.SummaryStep | backend/server.js:65-67 | an "Epic Summary:" line sets the summary to its trimmed remainder and switches to the summary |
| EpicParser.BodyStep | backend/server.js:76-79 | a non-blank line under a non-summary section appends its trim and a newline to that section |
| EpicParser.SkipStep | backend/server.js:76-80 | a blank line, a line before any header, or a line under the summary changes nothing |
| EpicParser.SummaryKept | backend/server.js:76-79 | lines without a summary header never change the summary |
| EpicParser.LastSummaryWins | backend/server.js:65-67 | the summary is the trimmed remainder of the last "Epic Summary:" line |
| EpicParser.NoHeadersNoSection | backend/server.js:63-76 | text without headers fills no section |
| EpicParser.LeadingLinesDropped | backend/server.js:76 | lines before the first header contribute nothing |
| EpicParser.HeaderLineAddsNothing | backend/server.js:65-75 | a header line contributes none of its own text to any section body and selects its section |
| EpicParser.BlankLineIgnored | backend/server.js:76 | a blank line is no header and changes neither the current section nor any body |
| EpicParser.DescriptionLineNoHeader | backend/server.js:65-76 | a "Description:" line is not a header unless it mentions "i want:" or "so that:" |
| EpicParser.DroppedUnderSummary | backend/server.js:76-79 | under the summary a non-header line is dropped and changes nothing |
| EpicParser.AfterConcat | backend/server.js:64-81 | the current section after two runs of lines is the second run's, started from the first's |
| EpicParser.BodyConcat | backend/server.js:76-79 | a section's body over two runs of lines is the first run's body followed by the second's |
| EpicParser.SummaryConcat | backend/server.js:65-67 | the summary over two runs of lines is the second run's, started from the first's |
| EpicParser.LinesJoin | backend/server.js:78 | appending each line and a newline is the newline-join of the lines plus one final newline |
| EpicParser.TrimLines | backend/server.js:82-86 | the final trim erases the trailing newline |
| EpicParser.SectionIsJoinedBody | backend/server.js:76-86 | each non-summary section is its body lines, trimmed, joined by newlines and trimmed |
| EpicParser.EmptyContent | backend/server.js:55-61 | empty content gives all five sections as '' |
| StringHash.ToInt32 | backend/gitfileembedding.js:40 | the 32-bit wrap lands in [-2^31, 2^31) and is congruent to its input modulo 2^32 |
| StringHash.ToInt32Congruent | backend/gitfileembedding.js:40 | wrapping ignores multiples of 2^32 |
| StringHash.StepIsPolynomial | backend/gitfileembedding.js:38-41 | folding the wrapped step over the characters equals wrapping the polynomial Σ 31^(n-1-i)·s[i] once |
| StringHash.StringHashCode | backend/gitfileembedding.js:35-44 | the loop returns the absolute value of Java's String.hashCode; the empty string gives 0; the result is at most 2^31 |
| StringHash.NoWrapForSmallPolynomial | backend/gitfileembedding.js:38-41 | while the polynomial stays below 2^31 the hash equals it, with no wrap |
| StringHash.NonNegativePolynomial | backend/gitfileembedding.js:38-41 | the unwrapped polynomial is never negative |
| VectorStore.PadOrTruncate | backend/gitfileembedding.js:82-84 | the result has 3072 elements; a shorter input is its prefix followed by zeros; a longer one is cut to its first 3072 |
| VectorStore.PadOrTruncateIdempotent | backend/gitfileembedding.js:113-115 | padding an already padded vector changes nothing |
| VectorStore.PadOrTruncateKeepsPrefix | backend/gitfileembedding.js:82-84 | every element the result keeps from the input is unchanged |
| VectorStore.Inserted | backend/gitfileembedding.js:97-101 | after an upsert the collection holds its old ids and those of the new points |
| VectorStore.InsertedConcat | backend/gitfileembedding.js:95-102 | upserting two lists in turn is upserting their concatenation |
| VectorStore.LastPointWins | backend/gitfileembedding.js:97-101 | of several points with one id, the last one upserted is stored |
| VectorStore.InsertedWellFormed | backend/gitfileembedding.js:97-101 | upserting points of the collection's dimension keeps every stored point filed under its own id with 3072 elements |
| VectorStore.UpsertAll | backend/gitfileembedding.js:95-103 | the batch loop sends at most one request per batch, and an error is raised only after at least one request |
| VectorStore.UpsertAllSent | backend/gitfileembedding.js:95-103 | the requests sent are a prefix of the batches, in order, and all of them when nothing fails |
| VectorStore.UpsertAllSucceeds | backend/gitfileembedding.js:95-103 | into an existing collection, the loop succeeds iff every batch has the right dimension |
| VectorStore.UpsertAllStored | backend/gitfileembedding.js:95-107 | on success every batch is stored; on a failure exactly the batches before the failing one are |
| VectorStore.UpsertStep | backend/gitfileembedding.js:96-102 | one upsert request either fails and ends the loop with the store unchanged, or stores the batch and continues |
| VectorStore.FitsFlatten | backend/gitfileembedding.js:95-96 | the points have the right dimension iff every batch of them does |
| VectorStore.BatchedUpsert | backend/gitfileembedding.js:94-107 | batching by 100 sends a prefix of the batches, all of them on success; it fails iff there are points and the collection is missing or a vector has the wrong size |
| VectorStore.BatchedUpsertStored | backend/gitfileembedding.js:94-107 | after a successful batched upsert the collection holds exactly the points added; with no points nothing changes; a failure keeps the batches stored before it |
| VectorStore.Store.constructor | backend/gitfileembedding.js:26-29 | a fresh store has no collections |
| VectorStore.Store.SetupCollection | backend/gitfileembedding.js:54-75 | afterwards the collection exists; an existing one is left untouched, a missing one is created empty, and no other collection changes |
| VectorStore.Store.Upsert | backend/gitfileembedding.js:97-101 | an upsert succeeds iff the collection exists and every vector has 3072 elements, and then stores the points; a rejected one changes nothing |
| VectorStore.Store.UpsertInBatches | backend/gitfileembedding.js:94-107 | the loop over slices of 100 leaves the store, the error and the requests sent as the batched-upsert definition states |
| VectorStore.Store.StoreEmbeddings | backend/gitfileembedding.js:77-108 | a failed embedding yields no point and no upsert; otherwise exactly one point with the padded vector, payload {baseName, path, source} and the hashed id; the store gains it iff the collection exists, and an upsert failure is raised with the store unchanged |
| VectorStore.PointId | backend/gitfileembedding.js:86 | a point's id is the string hash of `source-baseName` whenever that hash is non-zero |
| VectorStore.PayloadPaths | backend/gitfileembedding.js:124 | reading `payload` of a null or undefined result throws; otherwise the i-th entry is `payload?.path` of the i-th result |
| VectorStore.Truthies | backend/gitfileembedding.js:124 | the filter keeps exactly the truthy values |
| VectorStore.TruthiesConcat | backend/gitfileembedding.js:124 | the filter keeps order |
| VectorStore.SearchSimilarFiles | backend/gitfileembedding.js:110-129 | every path returned is truthy and comes from a search result for the padded query embedding; a failed embedding, a failed search or a null result gives []; otherwise the answer is the results' paths with the falsy ones dropped |
| VectorStore.SearchedPaths | backend/gitfileembedding.js:116-124 | after a successful search, every result's truthy path is returned, and two results' paths keep the store's order |
| VectorStore.TruthiesKeepsOrder | backend/gitfileembedding.js:124 | two truthy values keep their relative order through the filter |
| VectorStore.FitsConcat | backend/gitfileembedding.js:94-103 | a concatenation has the right dimension iff both parts do |
| GitHubFiles.LastIndexOf | backend/gitfileembedding.js:145 | the index of the last occurrence of a character, or -1 when there is none |
| GitHubFiles.Segment | backend/gitfileembedding.js:145 | the last path segment is a suffix of the path, contains no '/', and is preceded by '/' unless it is the whole path |
| GitHubFiles.Ext | backend/gitfileembedding.js:145 | the extension is a suffix of the segment; when not empty it starts with '.' and is shorter than the segment, so a dotfile has none |
| GitHubFiles.BaseName | backend/gitfileembedding.js:145 | the base name followed by the extension is the last path segment |
| GitHubFiles.BlobFilter | backend/gitfileembedding.js:142 | an entry is kept iff it is in the tree and its type is "blob" |
| GitHubFiles.BlobFilterConcat | backend/gitfileembedding.js:142 | the blob filter keeps order |
| GitHubFiles.Entries | backend/gitfileembedding.js:143-146 | mapping fails iff some blob's path is not a string; otherwise one entry per blob with its path and base name |
| GitHubFiles.FilesOfTree | backend/gitfileembedding.js:140-146 | a response without a truthy tree throws; a listing exists only when the tree is an array |
| GitHubFiles.StripPrefix | backend/gitfileembedding.js:155-158 | a present prefix is removed once; otherwise the path is unchanged |
| GitHubFiles.StripSlashes | backend/gitfileembedding.js:159 | all leading '/' and only those are removed |
| GitHubFiles.CleanPath | backend/gitfileembedding.js:154-159 | the three reassignments yield the cleaned path, which never starts with '/' |
| GitHubFiles.CleanedIsSuffix | backend/gitfileembedding.js:154-159 | cleaning only ever removes a prefix of the path |
| GitHubFiles.BothPrefixesRemoved | backend/gitfileembedding.js:154-159 | a path behind both known prefixes is reduced to its remainder |
| GitHubFiles.PrefixStripped | backend/gitfileembedding.js:155-158 | a present prefix is removed exactly |
| GitHubFiles.PrefixBehindSlashKept | backend/gitfileembedding.js:154-159 | a prefix behind a leading slash is not stripped; only the slash goes |
| GitHubFiles.Body | backend/gitfileembedding.js:192-197 | string content contributes its first 1000 characters at most; other truthy content gives the non-text note; falsy content gives the not-found note; no body exceeds 1000 characters |
| GitHubFiles.ReportOne | backend/gitfileembedding.js:189-198 | one path contributes its header followed by its body |
| GitHubFiles.ReportConcat | backend/gitfileembedding.js:189-198 | the report over two lists of paths is the first report followed by the second: one part per path, in input order |
| GitHubFiles.ConcatAppend | backend/gitfileembedding.js:189-198 | concatenating parts distributes over list concatenation |
| GitHubFiles.FetchGitHubFiles | backend/gitfileembedding.js:186-200 | the loop's report is, path by path in input order, a header and the body of the content fetched for the cleaned path |
| Indexer.Values | backend/gitfileembedding.js:205 | the table's values in table order |
| Indexer.Dedup | backend/gitfileembedding.js:205 | de-duplication keeps exactly the same values, each once |
| Indexer.DedupDistinct | backend/gitfileembedding.js:205 | a list without duplicates is kept as it is |
| Indexer.DedupIdempotent | backend/gitfileembedding.js:205 | de-duplicating twice is de-duplicating once |
| Indexer.DedupSeen | backend/gitfileembedding.js:205 | values seen before are dropped |
| Indexer.DedupAppendFresh | backend/gitfileembedding.js:205 | new distinct values are kept in first-occurrence order |
| Indexer.TableValues | backend/gitfileembedding.js:12-24 | the table's values, with the five panels that share one repository |
| Indexer.RepoNamesDistinct | backend/gitfileembedding.js:12-24 | the repositories outside the shared one are distinct |
| Indexer.UniqueReposValue | backend/gitfileembedding.js:12-24 | the distinct repositories in first-occurrence order |
| Indexer.SixRepositories | backend/gitfileembedding.js:202-222 | when every listing succeeds, six repositories are processed |
| Indexer.Setup | backend/gitfileembedding.js:210 | setup adds the collection if absent and changes no existing one |
| Indexer.StoreFiles | backend/gitfileembedding.js:213-217 | storing a repository's files touches only its collection |
| Indexer.FilePoints | backend/gitfileembedding.js:213-217 | the points to store are at most one per file, each the point of a file whose embedding succeeded |
| Indexer.StoredPoints | backend/gitfileembedding.js:213-217 | a repository's collection ends as its earlier points upserted with the files' points in file order |
| Indexer.LastFileStored | backend/gitfileembedding.js:213-217 | the last file's point, when its embedding succeeds, is what its id holds afterwards |
| Indexer.StoreFileStep | backend/gitfileembedding.js:214-216 | one call of the store step moves the store exactly as the per-file definition states |
| Indexer.StoreFilesOf | backend/gitfileembedding.js:213-217 | the loop over files leaves the store as the per-file definition states |
| Indexer.IndexedStep | backend/gitfileembedding.js:207-220 | one repository is set up, listed (a failed listing ends the run), and its files stored, counting one more |
| Indexer.CreateStoreEmbeddings | backend/gitfileembedding.js:202-222 | the loop over distinct repositories, using collection `<repo>_files`, leaves the store, the error and the count as the definition states |
| Indexer.IndexedKeepsOthers | backend/gitfileembedding.js:207-220 | no collection is lost, and collections of other repositories are untouched |
| Indexer.IndexedSuccess | backend/gitfileembedding.js:207-220 | the run succeeds iff every listing succeeds, and then counts every repository and leaves every collection present; a failure counts fewer |

## Left out

- HTTP and the external services: the Jira REST calls, the GitHub tree and contents calls, the Qdrant client and the OpenAI chat and embedding calls are function parameters. The tracker, GitHub, embedding and vector-store calls fail as `None` or an error result. Timeouts, retries and authentication are not modelled.
- The language model never fails, and it answers the same prompt the same way: `llm` is a total function from prompts to strings. A rejected completion call, which in the handler ends in a 500 response, is not modelled, so `GenerateEpic` cannot fail at the model stage.
- The Express application: the routes' HTTP plumbing, error middleware and `listen`; `createJiraEpic`, `/create-epic` and `/health`. These are I/O plumbing around the modelled logic. `GenerateEpic` returns the preview or the error and leaves the response to the caller.
- The wording of prompts: a prompt is a datatype naming its instruction and its data, so the model does not reason about the exact text the language model sees. `EpicPipeline.InstructionText` records the two instructions' wording only. The answers of the language model are arbitrary strings.
- Concurrency: the `Promise.all` fan-outs over tickets and keyword hits are modelled as a sequential map followed by the null filter.
- Time: `sleep(1100)` is left out. `Date.now()`, the id used when the hash is 0, is a parameter `now`.
- Floating point: vectors hold `real`s, the pad value is 0, and similarity search is an oracle. Cosine distance is not modelled.
- Numbers in JSON are integers. NaN, fractions and negative zero are not modelled.
- Characters outside the Basic Multilingual Plane: a Dafny `char` is a Unicode scalar value, while JavaScript strings count UTF-16 code units. The model agrees with the source only on text within the BMP. Beyond it, JavaScript sees two code units per character, which changes three things: the 300/500 limits of `truncate`; the 1000-character `slice` of a file's body; and the values `stringHashCode` folds (`charCodeAt` gives the two surrogates, the model one code point).
- `toLowerCase`/`toUpperCase` map ASCII letters only.
- `path.basename` is simplified: a trailing slash is not stripped (the paths of a Git tree have none). Names such as `.gitignore` keep their full name and get no extension, as in Node.
- `KeywordSearch.SearchTicketsByKeyword`: the unbounded `while (true)` loop takes a page bound `maxPages`. Running out of it is a third outcome (neither success nor failure) and returns [].
- `VectorStore.Store.Upsert`: the only rejections modelled are a missing collection and a vector of the wrong size. Other store errors (network, quota) are not modelled.
- `VectorStore.Store.SetupCollection`: the Qdrant errors it rethrows are not modelled.
- `Indexer.CreateStoreEmbeddings`: a failed embedding is logged inside `storeEmbeddingsInQdrant` and does not stop the run. An upsert failure is rethrown there, and with no `try` in `createStoreEmbeddings` it would end the run. In the model it cannot arise during the run: the collection was just set up and every padded vector fits, and the upsert rejections modelled are only those two (see the `VectorStore.Store.Upsert` line). A failed listing ends the run, as its thrown error does.
- `Tickets.FetchTickets`: the request's `ticketIds` is taken to be a list of strings. A body without it, which throws in the handler, is not modelled.
- `Tickets.ExcludeRequested`: a search hit always has a string `key`. A hit without one, for which `t.key.toUpperCase()` would throw a TypeError and fail the request, is not modelled.
- Logging and configuration: console output, environment variables and the JQL text built from the keyword.
- `backend/testEpic.js`, `backend/embeddingstore.js` and the React front end under `src/` are not part of this model.
