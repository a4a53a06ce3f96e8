# A verified model of the ShipSense DevOps assistant's core rules

ShipSense is a DevOps/CI-CD chatbot. It has a Next.js web application, a small
FastAPI server and two Python scripts. Most of it is glue around Gemini,
Pinecone, GitHub and Slack. This project models the rules inside that glue in
Dafny and proves properties about them. Every network, SDK, crypto or codec call
is an oracle parameter that returns `Success`/`Failure` (or `Pass`/`Fail`). The
clock and the environment are parameters too.

What is modelled, one module per source file:

- `Chunker`: the sliding-window `chunkText`. It has two versions:
  - the loop as written, with an iteration budget;
  - a corrected chunker, which every ingestion route of the model uses.

  See "Findings" below.
- `Middleware`: the fixed-window rate limiter, as a class over the `hits` map, with `getIp` and the path test.
- `GitHub`: header construction, the blob filter and contents URL of `fetchRepoTree`, and the decode branches of `fetchFileContent`.
- `IndexRecords`: deterministic record ids and metadata for the three source kinds, and the embedding loop.
- `Ingestion`: what the ingestion routes share:
  - extension extraction and the allow-list, size and count filter;
  - the per-source `try` block;
  - the per-file loop, with its counters and isolated failures.
- `GitHubIngest`, `Bootstrap`, `Crawl` and `UploadRoute`: the four ingestion routes.
- `Guardrails`: the keyword guardrail of the web app (`isAllowedTopic`) and of the Python server and script (`is_allowed`).
- `ServerChat` and `GeminiScript`: the Python chat handler and the command-line script.
- `ChatRoute`, `DiagramRoute` and `SearchRoute`: the three answer routes. They cover:
  - fallbacks, blocked-answer detection and token totals;
  - Mermaid fence extraction;
  - context assembly and the "can I" test.
- `ChatPage`: the chat page's client-side logic:
  - endpoint choice;
  - Mermaid block extraction, proved lossless;
  - URL-list splitting;
  - the upload summary.
- `Slack`: the signature check with its replay window, channel-id recognition, name normalisation and the bounded `conversations.list` pagination.
- `Auth`: `verifyPassword` and the credentials `authorize` decision, with bcrypt uninterpreted.
- `GeneratePpt`: the Markdown section parser `parse_sections`, the text frame that `add_bullets` fills, and the first-three selection of `main`.
- `Strings`, `Wrappers` and `Llm`: shared helpers. These are ASCII case folding and whitespace, substring search, split/join, decimal rendering, result types and the Gemini SDK oracles.

Loops in the source are Dafny methods with `while`/`for` loops. Each is proved equal to a specification function, and the properties are lemmas about that function. Pure code is written as functions. The rate limiter's map and python-pptx's text frame are classes with `modifies` clauses.

A non-numeric Slack timestamp is modelled faithfully. `parseInt` then yields `NaN`, `Math.abs(NaN) > 300` is false, and the replay window is skipped. `Slack.NonNumericTimestampSkipsWindow` states this.

## Model

| member | source | states |
|---|---|---|
| Chunker.ChunkTextLoop | web/src/lib/embeddings.ts:45-57 | The loop as written, run with an iteration budget, yields `[text]` for a text no longer than `maxLen`; otherwise its first chunk is the first `maxLen` characters. It agrees with the recursive account `ChunkTextAsWritten`. |
| Chunker.AsWrittenFirstChunk | web/src/lib/embeddings.ts:50-51 | On a text longer than `maxLen`, with at least one iteration, the as-written chunker pushes at least one chunk, and the first is the first `maxLen` characters. |
| Chunker.RunChunksAreWindows | web/src/lib/embeddings.ts:49-53 | Every chunk the loop pushes from any start is a window `text[i..min(len, i+maxLen)]` with `i < len`, so no chunk is longer than `maxLen`. |
| Chunker.AsWrittenChunksAreWindows | web/src/lib/embeddings.ts:50-51 | For all parameters and budgets, every chunk of the as-written chunker is such a window. |
| Chunker.RunNeverHalts | web/src/lib/embeddings.ts:49-55 | With `overlap > 0` and a start inside the text, the loop never reaches its `break` and pushes one chunk per iteration, whatever the budget. |
| Chunker.PositiveOverlapNeverHalts | web/src/lib/embeddings.ts:46-55 | With `overlap > 0` and a text longer than `maxLen`, `chunkText` as written does not terminate. |
| Chunker.StuckOnFinalWindow | web/src/lib/embeddings.ts:52-54 | The start `len - overlap` maps to itself, and from there the loop pushes the same final slice on every iteration. |
| Chunker.WindowAtEndGoesToFixpoint | web/src/lib/embeddings.ts:50-54 | A window that ends at `len` sends the loop to start `len - overlap`, which is still below `len`, so the `break` cannot fire. |
| Chunker.LargeOverlapRepeatsFirstWindow | web/src/lib/embeddings.ts:52-53 | With `overlap >= maxLen`, the start after the first window clamps back to 0, and the first `maxLen` characters are pushed forever. |
| Chunker.RunConsecutiveOverlap | web/src/lib/embeddings.ts:52-53 | Consecutive chunks pushed by the loop share exactly `overlap` characters: the tail of one is the head of the next. |
| Chunker.AsWrittenConsecutiveOverlap | web/src/lib/embeddings.ts:50-53 | The same holds for the as-written chunker, for `overlap <= maxLen < len`. |
| Chunker.ChunkText | web/src/lib/embeddings.ts:45-57 | The corrected loop computes `Chunks` and never returns an empty list, even for `""`. |
| Chunker.ChunksFromTile | web/src/lib/embeddings.ts:49-55 | Dropping the `overlap` characters each corrected chunk shares with the next, then concatenating, gives back the text exactly. |
| Chunker.ChunksFromWindows | web/src/lib/embeddings.ts:50-51 | Every corrected chunk is a window of the text no longer than `maxLen`. |
| Chunker.ChunksFromOverlap | web/src/lib/embeddings.ts:52-53 | Consecutive corrected chunks share exactly `overlap` characters. |
| Chunker.ChunksCorrect | web/src/lib/embeddings.ts:45-57 | For `overlap < maxLen`, the corrected chunker's result:<br>• is non-empty;<br>• is `[text]` for a short text;<br>• otherwise starts with `text[..maxLen]`;<br>• consists of windows, neighbours sharing `overlap` characters;<br>• tiles the text. |
| Chunker.ZeroOverlapRunAgrees | web/src/lib/embeddings.ts:49-55 | With `overlap = 0`, the loop as written exits by itself within the budget and pushes exactly the corrected chunks. |
| Chunker.ZeroOverlapTerminatesAndTiles | web/src/lib/embeddings.ts:45-57 | With `overlap = 0` and `maxLen >= 1`, `chunkText` terminates within `len` iterations, and its chunks concatenate back to the text with no gap. |
| Chunker.ChunksFromCount | web/src/lib/embeddings.ts:49-55 | From start `i`, the corrected chunker yields `ceil((len - i - overlap) / (maxLen - overlap))` chunks. |
| Chunker.ChunkCount | web/src/lib/embeddings.ts:45-57 | A text longer than `maxLen` yields `ceil((len - overlap) / (maxLen - overlap))` chunks. |
| Middleware.LimitKeepsCountsInRange | web/src/middleware.ts:16-26 | A `rateLimit` call keeps every stored count within 1..30. |
| Middleware.LimitTouchesOnlyItsKey | web/src/middleware.ts:16-26 | Only the entry for the given key is created or changed; all other entries are untouched. |
| Middleware.AtMostMaxPerWindow | web/src/middleware.ts:19-25 | While a client's window is open, with count `c` and end `r`, later calls for it arriving at or before `r` get at most `30 - c` approvals. Calls for other clients may be interleaved. The window's end does not move, and the count rises by exactly the number of approvals. |
| Middleware.WindowAdmitsAtMostMax | web/src/middleware.ts:4-5 | The call that opens a window is allowed. Of it and all later calls up to `now + 60000`, at most 30 are allowed. |
| Middleware.GetIp | web/src/middleware.ts:8-14 | The key is `x-forwarded-for`, else `x-real-ip`, else `"unknown"`. An empty header counts as absent, and the key is never empty. |
| Middleware.RateLimiter.constructor | web/src/middleware.ts:6 | The limiter starts with an empty map. |
| Middleware.RateLimiter.RateLimit | web/src/middleware.ts:16-26 | A missing or expired record (`now > reset`) gives an allowed call and record `{1, now + 60000}`. At `now == reset` the old window holds. Inside the window, a count of 30 or more is refused and left unchanged. A count below 30 is allowed, rises by one, and keeps its reset time. Other keys are untouched, and counts stay in 1..30. |
| Middleware.RateLimiter.Handle | web/src/middleware.ts:28-46 | Only paths starting with `/api/` or `/chat` are limited, under the `getIp` key. A refusal is a 429 with `RATE_LIMITED`; anything else passes on with the four security headers. |
| GitHub.AuthHeaders | web/src/lib/github.ts:3-9 | The Accept header is always set. `Authorization: Bearer <token>` is present exactly when `GH_TOKEN` is set and non-empty. |
| GitHub.Blobs | web/src/lib/github.ts:19-21 | The listing is never longer than the tree. |
| GitHub.BlobsAppend | web/src/lib/github.ts:19-21 | The listing keeps tree order: the blobs of `a + b` are the blobs of `a`, then those of `b`. |
| GitHub.BlobsMembership | web/src/lib/github.ts:19-21 | A file is listed iff the tree has a blob node with its path and size. Its URL is `<GH_API>/repos/<repo>/contents/<encode(path)>?ref=<ref>`, with the ref not encoded. |
| GitHub.FetchRepoTree | web/src/lib/github.ts:13-22 | The listing succeeds iff the request succeeds with an ok status. A non-ok status throws `GitHub tree failed: <status>`, and a missing `tree` gives `[]`. |
| GitHub.FetchFileContent | web/src/lib/github.ts:24-33 | Succeeds iff the response is ok. The result is:<br>• base64 content, decoded;<br>• any other string content, as is;<br>• `""` when the content is not a string.<br>A non-ok response throws `GitHub content failed: <status>`. |
| IndexRecords.RecordId | web/src/app/api/github-ingest/route.ts:33 | Chunk `i` gets id `<repo>@<ref>:<path>#<i>`, `<url>#<i>` or `<name>-<i>`, by source kind. |
| IndexRecords.Records | web/src/app/api/crawl/route.ts:21-24 | One record per embedded chunk, in chunk order; record `i` carries chunk `i`'s id, vector and metadata. |
| IndexRecords.RecordIdInjective | web/src/app/api/bootstrap/route.ts:20 | Two chunks of one source never get the same id. |
| IndexRecords.RecordIdsDistinct | web/src/app/api/ingest/route.ts:32-35 | The records written for one source have pairwise distinct ids. |
| IndexRecords.MetaCarriesIndex | web/src/app/api/crawl/route.ts:23 | Upload metadata holds `filename` and `chunk: i`. Page and repository metadata hold `idx: i` and no `filename` or `chunk`. |
| IndexRecords.EmbedAllSpec | web/src/app/api/github-ingest/route.ts:31-34 | Embedding succeeds iff every chunk embeds, and then yields their vectors in order. A failure is the first chunk's failure. |
| IndexRecords.EmbedChunks | web/src/app/api/bootstrap/route.ts:18-21 | The embedding loop computes `EmbedAll`. |
| IndexRecords.EmbedAbortsAt | web/src/app/api/crawl/route.ts:21-24 | A failure at chunk `i`, after the earlier chunks succeeded, is the failure of the whole batch. |
| Ingestion.ExtSpec | web/src/app/api/github-ingest/route.ts:21 | The extension is the lower-cased text after the last `.`, or the whole lower-cased path when there is no `.`. It never contains a `.`. |
| Ingestion.FilterByMembership | web/src/app/api/github-ingest/route.ts:20-22 | Exactly the items that pass the test survive `filter`. |
| Ingestion.FilterByAppend | web/src/app/api/github-ingest/route.ts:20-22 | `filter` keeps order: it distributes over concatenation. |
| Ingestion.SliceEnd | web/src/app/api/github-ingest/route.ts:23 | `slice(0, end)` keeps `min(end, len)` items for `end >= 0`, and `max(len + end, 0)` for a negative `end`. |
| Ingestion.Select | web/src/app/api/github-ingest/route.ts:20-23 | The selection is a prefix of the candidates, in tree order, no longer than a non-negative cap. |
| Ingestion.SelectSpec | web/src/app/api/github-ingest/route.ts:20-23 | Every selected file is in the tree, has an allowed extension, and is smaller than 1 MiB (a missing size counts as 0). The first `min(cap, candidates)` candidates are selected. |
| Ingestion.RunSource | web/src/app/api/github-ingest/route.ts:28-36 | One source's `try` block:<br>• a fetch or embedding failure is that failure, with nothing sent;<br>• otherwise the batch of all embedded chunks is sent (except an empty batch when empties are skipped);<br>• a passing upsert reports the chunk count, and a failing one reports its error after sending. |
| Ingestion.RunSourceSucceeds | web/src/app/api/github-ingest/route.ts:28-36 | Once every chunk embeds, the batch holds one record per chunk, at least one. The source completes with its chunk count iff the upsert passes; otherwise it fails with the upsert's error after sending. |
| Ingestion.SentBatchIsComplete | web/src/app/api/github-ingest/route.ts:29-35 | A batch that is sent holds one record per chunk; record `i` has chunk `i`'s id, and there is at least one record. |
| Ingestion.SkipEmptyIsDead | web/src/app/api/github-ingest/route.ts:35 | Every text has at least one chunk, so the `if (vectors.length)` guard never skips an upsert. |
| Ingestion.PageRun | web/src/app/api/crawl/route.ts:18-25 | A page that fails to fetch reports the fetch error. Otherwise its text is handled as a source titled by the page. |
| Ingestion.IngestPage | web/src/app/api/bootstrap/route.ts:14-23 | One page, imperatively, computes `PageRun`. |
| Ingestion.IngestSource | web/src/app/api/github-ingest/route.ts:28-36 | One source, imperatively (chunk, embedding loop, upsert), computes `RunSource`. |
| Ingestion.FilesTally | web/src/app/api/github-ingest/route.ts:25-40 | The per-file loop's totals equal an independent definition over the files' runs:<br>• the completed-file count is the number of runs that completed;<br>• the chunk total is the sum of their chunk counts;<br>• the batches sent are those of every run that sent one, in file order.<br>Earlier totals and batches are kept. |
| Ingestion.SummedAppend | web/src/app/api/github-ingest/route.ts:25-40 | Tallying two lists of runs one after the other equals tallying their concatenation. |
| Ingestion.AddRunSummed | web/src/app/api/github-ingest/route.ts:36-38 | Adding one more run to the totals is the same as tallying the list extended by that run. |
| Ingestion.BatchesOfFiles | web/src/app/api/github-ingest/route.ts:25-40 | Every batch sent for a file list is the complete, non-empty batch of one file of the list. |
| Ingestion.FilesTallyAppend | web/src/app/api/github-ingest/route.ts:25-40 | Failures are isolated: the files after a prefix are tallied the same way whatever happened within the prefix. |
| Ingestion.FilesTallySent | web/src/app/api/github-ingest/route.ts:25-40 | Every batch the file loop sends is the complete, non-empty batch of one file of the list. |
| Ingestion.IngestFiles | web/src/app/api/github-ingest/route.ts:25-40 | The per-file loop computes `FilesTally`. |
| GitHubIngest.Ingest | web/src/app/api/github-ingest/route.ts:14-43 | A missing or empty `repo` gives 400 `MISSING_REPO`, and nothing is written. A missing index or tree escapes the route, and nothing is written. Otherwise:<br>• `ref` defaults to HEAD;<br>• `filesProcessed` is the number of selected files whose run completed;<br>• `totalFiles` is the number selected, at most a non-negative `maxFiles`;<br>• the batches written are those of the selected files, in tree order. |
| GitHubIngest.Post | web/src/app/api/github-ingest/route.ts:14-43 | The route, imperatively, computes `Ingest`. |
| GitHubIngest.TreeFailureAborts | web/src/app/api/github-ingest/route.ts:19 | A failure listing the tree escapes the route, and nothing is written. |
| GitHubIngest.SentBatchesAreFiles | web/src/app/api/github-ingest/route.ts:20-40 | Every batch written is the complete batch of one selected candidate, with ids `<repo>@<ref>:<path>#<i>`. |
| GitHubIngest.CapExamples | web/src/app/api/github-ingest/route.ts:15-23 | The default cap takes at most 500 files, a cap of 0 takes none, and a negative cap counts from the end as `slice` does. |
| Bootstrap.DocsTally | web/src/app/api/bootstrap/route.ts:13-25 | The documentation loop counts at most one page per URL, and the chunk total never shrinks. |
| Bootstrap.DocsTallyCounts | web/src/app/api/bootstrap/route.ts:13-25 | The documentation loop's totals equal the independent tally of the pages' runs: completed pages, their chunks, and their batches in URL order. |
| Bootstrap.IngestDocs | web/src/app/api/bootstrap/route.ts:13-25 | The documentation loop, imperatively, computes `DocsTally`. |
| Bootstrap.RepoCandidates | web/src/app/api/bootstrap/route.ts:30-34 | A failed tree gives no candidates. Otherwise the candidates are the HEAD tree's files selected by the narrower allow-list and the 1 MiB limit, at most 400. |
| Bootstrap.RepoTally | web/src/app/api/bootstrap/route.ts:29-48 | One repository's totals equal the independent tally of its candidates' runs; at most 400 files are added, and a failed tree adds nothing. |
| Bootstrap.ReposTally | web/src/app/api/bootstrap/route.ts:28-49 | The repository loop's totals equal the independent tally of every repository's file runs, in order; at most 400 files per repository. |
| Bootstrap.IngestRepos | web/src/app/api/bootstrap/route.ts:28-49 | The repository loop, imperatively, computes `ReposTally`. |
| Bootstrap.Bootstrap | web/src/app/api/bootstrap/route.ts:8-52 | A missing index escapes the route with nothing written. Otherwise:<br>• `pages` is the number of doc pages whose run completed;<br>• `files` is the number of repository files whose run completed;<br>• `chunks` is the sum of both phases' chunk counts;<br>• the batches written are the pages' then the files', in order.<br>Hence `pages <= number of doc URLs` and `files <= 400 * number of repositories`. |
| Bootstrap.BootstrapTotals | web/src/app/api/bootstrap/route.ts:10-51 | The docs phase's totals feed the repository phase: its completed count starts from zero for files, while chunks and batches accumulate across both phases. |
| Bootstrap.CoreListsBound | web/src/lib/sources.ts:1-19 | With the seven core URLs and seven core repositories, a run reports at most 7 pages and 2800 files. |
| Bootstrap.Post | web/src/app/api/bootstrap/route.ts:8-52 | The two nested loops, imperatively, compute `Bootstrap`. |
| Bootstrap.NarrowerAllowList | web/src/app/api/bootstrap/route.ts:33 | The repository allow-list is a strict subset of GitHub ingestion's; it lacks exactly adoc, java, kt and gradle. |
| Bootstrap.RepoBatchesUseHead | web/src/app/api/bootstrap/route.ts:42 | Every batch of the repository phase is the batch of one candidate file at ref HEAD. |
| Crawl.ResultOf | web/src/app/api/crawl/route.ts:17-31 | A URL's entry carries that URL:<br>• on success, its title and chunk count;<br>• on failure, the error message only. |
| Crawl.Results | web/src/app/api/crawl/route.ts:16-32 | There is exactly one entry per input URL, in input order, each decided by its own URL. |
| Crawl.CrawlOne | web/src/app/api/crawl/route.ts:17-31 | One URL's `try` block yields that URL's entry, and its batch exactly when one was sent. |
| Crawl.Crawl | web/src/app/api/crawl/route.ts:6-35 | An absent or empty `urls` gives 400 `MISSING_URLS`, and nothing is written. A missing index escapes the route, with nothing written. Otherwise `results` is the per-URL list, `totalChunks` is the sum of `chunks` over the success entries, and the batches written are each URL's, in order. |
| Crawl.SentIsBatches | web/src/app/api/crawl/route.ts:16-32 | The crawl's batches equal the independent tally's batches of the pages' runs (empty pages are not skipped). |
| Crawl.Post | web/src/app/api/crawl/route.ts:6-35 | The per-URL loop, accumulating `totalChunks`, computes `Crawl`. |
| Crawl.UpsertAlwaysAttempted | web/src/app/api/crawl/route.ts:25 | Unlike the other routes, crawl sends the batch whenever fetching and embedding succeed, with no emptiness check. |
| Crawl.FailureIsIsolated | web/src/app/api/crawl/route.ts:16-32 | Each URL's entry is that URL's own outcome, whatever the other URLs do. The batches written are those before it, its own, then those after it. |
| UploadRoute.Lines | web/src/app/api/ingest/route.ts:10 | `split(/\r?\n/)` gives as many lines as splitting at line feeds. Each line but the last is the piece with one trailing carriage return removed, and the last piece is kept as is. |
| UploadRoute.CrlfRoundTrip | web/src/app/api/ingest/route.ts:10 | Lines joined with `\r\n`, none holding a carriage return or line feed, split back into exactly those lines. |
| UploadRoute.LinesRoundTrip | web/src/app/api/ingest/route.ts:10 | For text without carriage returns, there is one line more than there are line feeds, and joining the lines with `\n` gives back the text. |
| UploadRoute.ShortFilePreviewedWhole | web/src/app/api/ingest/route.ts:9-13 | A file of at most 30 lines is summarised as `File: <name>\nLines: <n>\nPreview:\n<content>`, showing the whole content. |
| UploadRoute.Step | web/src/app/api/ingest/route.ts:21-38 | For one form entry:<br>• plain fields are skipped;<br>• every file adds one result;<br>• only a supported file of at most 2 MiB adds records, with ids `<name>-<i>`;<br>• only such a file can fail. |
| UploadRoute.Collect | web/src/app/api/ingest/route.ts:21-39 | The loop yields one verdict per file entry, in order, and keeps the records gathered so far. |
| UploadRoute.CollectAppend | web/src/app/api/ingest/route.ts:21-39 | The loop over `a + b` is the loop over `a` continued over `b`; a failure in `a` ends it. |
| UploadRoute.UploadRun | web/src/app/api/ingest/route.ts:15-47 | An embedding failure escapes the route with nothing written. Otherwise `results` is one verdict per file entry, and:<br>• with no vectors, nothing is sent and `upserted` is 0;<br>• a missing index escapes with nothing sent;<br>• otherwise all vectors are sent in one upsert, and the route answers `upserted` = their number iff it passes. |
| UploadRoute.CollectCount | web/src/app/api/ingest/route.ts:21-39 | The entry loop succeeds iff every embedded entry's chunks all embed, and then it collects exactly the chunks of the embedded entries. |
| UploadRoute.UploadedCount | web/src/app/api/ingest/route.ts:41-46 | A successful upload reports the verdicts and the chunk count of the embedded entries. When all embeddings succeed, the upload succeeds if there is nothing to send or the index and upsert both pass. |
| UploadRoute.CollectFailsAt | web/src/app/api/ingest/route.ts:31-35 | An embedding failure at any entry fails the whole loop. |
| UploadRoute.EmbedFailureDiscardsAll | web/src/app/api/ingest/route.ts:21-46 | One file whose embedding fails loses the whole request: no batch is written. |
| UploadRoute.NoSupportedFileNoUpsert | web/src/app/api/ingest/route.ts:41-46 | With no small supported file, the route answers the verdicts with `upserted: 0`, and no upsert is made. |
| UploadRoute.NothingAdded | web/src/app/api/ingest/route.ts:23-38 | Oversized and unsupported files add no records, and the loop over them cannot fail. |
| UploadRoute.Post | web/src/app/api/ingest/route.ts:15-47 | The route, file by file, computes `UploadRun`. |
| Guardrails.KeywordsAreLong | web/src/lib/guardrails.ts:1-20 | Every keyword of both lists has at least two characters. |
| Guardrails.EmptyInputNotAllowed | web/src/lib/guardrails.ts:22-25 | Null, undefined or empty input is never on topic, in either guardrail. |
| Guardrails.CaseInsensitive | web/src/lib/guardrails.ts:23 | A text is allowed iff its lower-case form is, in both guardrails. |
| Guardrails.Monotone | web/src/lib/guardrails.ts:24 | If `s` is allowed, so is any text whose lower case contains the lower case of `s`. |
| Guardrails.SubstringNotWord | web/src/lib/guardrails.ts:22-25 | Any text containing "ci" or "cd", in any case, passes both guardrails. |
| Guardrails.RecipeIsOnTopic | web/src/lib/guardrails.ts:24 | "Best recipe for pancakes?" passes the web guardrail. |
| Guardrails.PythonAllowedImpliesWebAllowed | server/main.py:7-10 | Whatever the Python `is_allowed` admits, `isAllowedTopic` admits. |
| Guardrails.EventsHoldsNoPythonKeyword | server/main.py:7-10 | No keyword of the Python set occurs in "events". |
| Guardrails.GuardrailsDisagreeOnEvents | web/src/lib/guardrails.ts:13 | "events" passes the web guardrail and fails the Python one. |
| ServerChat.Chat | server/main.py:41-86 | An off-topic message gets the fixed refusal with zero tokens. Otherwise:<br>• the handler fails iff generation fails;<br>• the output is the generated text;<br>• each count is the model's count, or 0 when counting throws;<br>• `total == input + output`. |
| ServerChat.RefusalIgnoresModels | server/main.py:43-47 | An off-topic message never builds a model: the reply is the same whatever the models would do, with all counts 0. |
| GeminiScript.SelectPrompt | scripts/tmp_run_gemini.py:27-29 | With no arguments the prompt is the fixed Jenkins prompt; otherwise it is the arguments joined by single spaces. |
| GeminiScript.Main | scripts/tmp_run_gemini.py:21-70 | A missing or empty key exits with status 1 first, and an off-topic prompt is refused. Otherwise the run answers iff generation succeeds, and crashes with its error iff it fails. An answer is the generated text, with input tokens counted on the prompt, output tokens on the answer, and `total == input + output`. |
| GeminiScript.DefaultPromptAllowed | scripts/tmp_run_gemini.py:27 | The default prompt passes `is_allowed`. |
| GeminiScript.DefaultPromptMentionsJenkins | scripts/tmp_run_gemini.py:27 | The lower-cased default prompt contains "jenkins". |
| GeminiScript.NoArgumentsReachesModel | scripts/tmp_run_gemini.py:27-45 | With a key and no arguments, the script always calls the model. |
| GeminiScript.EarlyExitsIgnoreModel | scripts/tmp_run_gemini.py:22-35 | A missing key or a refused prompt ends the run before the model is used. |
| ChatRoute.FinishReason | web/src/app/api/chat/route.ts:40-44 | The finish reason is the first candidate's, and none without candidates. |
| ChatRoute.Output | web/src/app/api/chat/route.ts:55-58 | The output is the fixed "I don't know..." text iff the trimmed text is empty, garbled or blocked, or is that text itself. Otherwise it is the trimmed text. |
| ChatRoute.Chat | web/src/app/api/chat/route.ts:10-79 | An off-topic message gets `OUT_OF_SCOPE_MESSAGE`, zero tokens and `blocked: false`. For an allowed message, a model or generation failure gives a status-200 `GENERATION_ERROR` carrying that error, and a successful generation gives an answer that:<br>• reports `candidatesCount` and the first finish reason;<br>• sets `blocked` from that reason;<br>• counts input and output tokens, with `total == input + output`. |
| ChatRoute.AnswerIsClean | web/src/app/api/chat/route.ts:55-58 | An answer's output is the fallback, or a non-empty, trimmed, unblocked text with no garbling marker. |
| ChatRoute.BlockedShowsFallback | web/src/app/api/chat/route.ts:56-57 | A blocked answer always shows the fallback. |
| ChatRoute.NoCandidatesNotBlocked | web/src/app/api/chat/route.ts:40-45 | No candidates, `"STOP"` or an empty reason is not a block; `"SAFETY"` is. |
| ChatRoute.RefusalIgnoresModels | web/src/app/api/chat/route.ts:14-16 | An off-topic message is answered without calling any model. |
| DiagramRoute.FirstMermaidFenceSpec | web/src/app/api/diagram/route.ts:33 | A span is found iff an opener (any case) is followed by a fence. The span runs from the leftmost opener to the first fence after it. |
| DiagramRoute.FirstSpanSpec | web/src/app/api/diagram/route.ts:33 | For any opener and close, a span is found iff an opener is followed by a close. The span runs from the leftmost opener to the nearest close after it. |
| DiagramRoute.FenceShape | web/src/app/api/diagram/route.ts:33-34 | The output span starts with ```` ```mermaid ```` in any case, ends with ```` ``` ````, and is a substring of the model text. |
| DiagramRoute.Respond | web/src/app/api/diagram/route.ts:14-39 | A missing or empty prompt gives 400 `MISSING_PROMPT`. An off-topic prompt gets the fixed refusal. A body, model or generation failure gives the error fence. A successful generation gives its first Mermaid span, or the placeholder when it has none. |
| DiagramRoute.NoFenceGivesPlaceholder | web/src/app/api/diagram/route.ts:34 | A model answer without an opener yields the placeholder flowchart. |
| DiagramRoute.SingleFenceReturnedVerbatim | web/src/app/api/diagram/route.ts:33-34 | An answer that is exactly one fence with no backquote inside is returned verbatim. |
| SearchRoute.Render | web/src/app/api/search/route.ts:18 | A missing metadata field prints as `undefined`, a string as itself, and a number in decimal. |
| SearchRoute.ContextLines | web/src/app/api/search/route.ts:17-19 | There is one context entry per match, in match order, naming only the file name and chunk. |
| SearchRoute.IsCanISpec | web/src/app/api/search/route.ts:22 | The "can I" test holds iff the query is:<br>• optional whitespace;<br>• `can`, at least one whitespace;<br>• `i` followed by a word boundary;<br>all matched case-insensitively. |
| SearchRoute.CanIAtMatches | web/src/app/api/search/route.ts:22 | Wherever the pattern matches, the whitespace-skipping test finds it. |
| SearchRoute.Search | web/src/app/api/search/route.ts:6-34 | A missing or empty query gives 400 `MISSING_QUERY`. Each failure of the index, the embedding, the query, the model or the generation escapes with that error. Otherwise `topK` defaults to 5 and absent matches become `[]`; `answer: false` returns only the matches, and an answer is the model's text for the prompt built from the query and the matches. |
| SearchRoute.MatchesOnlyIgnoresModels | web/src/app/api/search/route.ts:15 | With `answer: false` no model is called. |
| SearchRoute.ContextLineOfRecord | web/src/app/api/search/route.ts:18 | Crawl, bootstrap and GitHub records have `undefined` for both file name and chunk. Only uploaded files are named in the context. |
| SearchRoute.CanIExample | web/src/app/api/search/route.ts:22 | `"  Can I deploy?"` passes the test. |
| SearchRoute.NotCanIExample | web/src/app/api/search/route.ts:22 | `"can it deploy?"` fails it. |
| ChatPage.WantsDiagramSpec | web/src/app/chat/page.tsx:50-53 | A message wants a diagram iff its lower case contains "diagram", "mermaid" or "flowchart"; "sequence diagram" adds nothing. |
| ChatPage.Send | web/src/app/chat/page.tsx:55-86 | A blank message sends nothing. A diagram request shows the diagram output. Otherwise a non-empty search answer is shown, else the chat output. |
| ChatPage.BlankSendsNothing | web/src/app/chat/page.tsx:56 | A whitespace-only message reaches no endpoint. |
| ChatPage.DiagramBypassesSearch | web/src/app/chat/page.tsx:61-67 | A diagram request never consults search or chat. |
| ChatPage.IndexFromIsLeftmost | web/src/app/chat/page.tsx:104 | The substring search used for the pattern returns the leftmost occurrence, and -1 only when there is none. |
| ChatPage.ScanLeftmostShortest | web/src/app/chat/page.tsx:104 | With a leftmost search, the text before each block holds no opener and each block body holds no fence. Moreover, the opener after each piece is the first one in the piece followed by it, and the fence after each body is the first one in the body followed by it: no occurrence starts inside and runs past the end. These are leftmost openers and shortest bodies. |
| ChatPage.ScanRebuild | web/src/app/chat/page.tsx:104-107 | The cut loses nothing: pieces and blocks rebuild the original text. |
| ChatPage.ReplaceFromCut | web/src/app/chat/page.tsx:104-107 | The replacement loop's output is the pieces joined by the marker, with the tidied bodies collected in order. |
| ChatPage.TidiedAt | web/src/app/chat/page.tsx:105 | Block `k` collected is body `k`, trimmed. |
| ChatPage.CutOut | web/src/app/chat/page.tsx:102-109 | The `replace` loop computes `ReplaceFrom`. |
| ChatPage.MermaidCutSpec | web/src/app/chat/page.tsx:104 | The page's cut of an answer rebuilds the answer. It takes the leftmost opener each time, so no opener starts inside a piece, even one running into the opener that follows. It closes at the nearest fence, so no fence starts inside a body, even one running into the closing fence. It leaves no opener followed by a fence in the final piece, so every complete block is replaced. |
| ChatPage.ScanLastClean | web/src/app/chat/page.tsx:104 | The cut stops only when the rest of the text holds no opener followed by a closing fence. |
| ChatPage.StraddlingFenceIsNotNearest | web/src/app/chat/page.tsx:104 | In "```mermaid x````" the block body is " x": a body " x`", whose backquote starts a fence with the closing one, is not the nearest close. |
| ChatPage.ExtractMermaid | web/src/app/chat/page.tsx:102-109 | `md` is the answer's pieces joined by `"\n[Mermaid Diagram]\n"`. The blocks are the trimmed bodies in order, one per placeholder. |
| ChatPage.NoOpenerUnchanged | web/src/app/chat/page.tsx:104-108 | An answer without an opener is shown unchanged, with no blocks. |
| ChatPage.Clean | web/src/app/chat/page.tsx:236-237 | Every URL left is non-empty and already trimmed. |
| ChatPage.CleanEmpty | web/src/app/chat/page.tsx:236-238 | Nothing is left iff every piece is blank. |
| ChatPage.CrawlRequest | web/src/app/chat/page.tsx:233-238 | No request is sent iff every piece split on newline or comma is blank. Otherwise the list is non-empty, and every entry is trimmed and non-empty. |
| ChatPage.CleanKeepsClean | web/src/app/chat/page.tsx:236-237 | Trimming and dropping empties changes nothing in a list of clean URLs. |
| ChatPage.UrlsRoundTrip | web/src/app/chat/page.tsx:234-237 | Clean URLs joined by newlines or by commas split back into exactly the same list. |
| ChatPage.UploadSummarySnoc | web/src/app/chat/page.tsx:96 | Each further upload adds `"\n\n- <name>\n\n<summary>"` to the summary. |
| Slack.ParseIntDecimal | web/src/lib/slack.ts:11 | `parseInt` reads a decimal rendering back as its number. |
| Slack.ParseIntExamples | web/src/lib/slack.ts:11 | `parseInt` skips leading whitespace, reads a sign, stops at the first non-digit, and gives `NaN` without digits. |
| Slack.TimingSafeEqual | web/src/lib/slack.ts:16-20 | The comparison throws iff the lengths differ, and otherwise answers equality. |
| Slack.VerifySignature | web/src/lib/slack.ts:3-21 | A request passes iff:<br>• secret, timestamp and signature are non-empty;<br>• the timestamp is not more than 300 s away;<br>• the signature is `v0=` + hex HMAC of `v0:<ts>:<body>`. |
| Slack.FreshSignedRequestPasses | web/src/lib/slack.ts:10-17 | A correctly signed request within 300 s passes; exactly 300 s still passes. |
| Slack.StaleRequestFails | web/src/lib/slack.ts:10-11 | A numeric timestamp more than 300 s away fails. |
| Slack.MissingPartFails | web/src/lib/slack.ts:4-8 | A missing secret, timestamp or signature fails. |
| Slack.LengthMismatchFails | web/src/lib/slack.ts:16-20 | A signature whose length differs from the expected one fails, because the comparison throws. |
| Slack.NonNumericTimestampSkipsWindow | web/src/lib/slack.ts:11 | A non-numeric timestamp with a correct signature passes whatever the clock says. |
| Slack.NormaliseName | web/src/lib/slack.ts:47 | One leading `#` is dropped and the rest trimmed; the name has no surrounding whitespace. |
| Slack.FirstMatch | web/src/lib/slack.ts:67 | The match is the first channel whose name equals the wanted one ignoring case; none when there is no such channel. |
| Slack.MatchedId | web/src/lib/slack.ts:67-68 | Only a non-empty id of the first match is returned. |
| Slack.NextCursor | web/src/lib/slack.ts:69 | An empty `next_cursor` counts as none. |
| Slack.FindChannelId | web/src/lib/slack.ts:53-73 | The bounded `for` loop over pages computes `Find`: the result and the cursors requested. |
| Slack.FindFromBounded | web/src/lib/slack.ts:57-71 | The loop makes at most its page budget of requests. The first request carries the entry cursor, and each later one the non-empty cursor of the page before. |
| Slack.AtMostTenRequests | web/src/lib/slack.ts:54-71 | With a token, at most ten pages are requested, the first without a cursor. A missing token requests nothing. |
| Slack.FoundOnLastRequest | web/src/lib/slack.ts:66-68 | A found id is that of the first name match on the last page requested, which came back ok. |
| Slack.NotFoundMeansNoMatch | web/src/lib/slack.ts:57-72 | Not found means every page requested was ok with no usable match, and the last page had no cursor or ten pages were read. |
| Slack.NotFoundQuotesInput | web/src/lib/slack.ts:49 | A name not found is the error `Channel not found: <original input>`. |
| Slack.IdNeedsNoLookup | web/src/lib/slack.ts:46 | A channel matching `^[CD][A-Z0-9]+$` is returned unchanged, with no lookup. |
| Slack.ResolvedNameMatches | web/src/lib/slack.ts:45-51 | A resolved name gives a non-empty id, found on the last page requested as the first case-insensitive match of the normalised name. |
| Slack.FoundMatch | web/src/lib/slack.ts:67-68 | Any id the lookup returns is non-empty and comes from a first match on the last page. |
| Slack.ChannelIdExamples | web/src/lib/slack.ts:46 | `C0123ABC` and `D42` are ids; `general`, `C` and `c0123` are not. |
| Slack.NormaliseExample | web/src/lib/slack.ts:47 | `"##dev "` normalises to `"#dev"`: only one `#` is dropped. |
| Auth.EnvOr | web/src/lib/auth.ts:6-8 | An unset or empty variable takes the default; otherwise its value is used. |
| Auth.LoadConfig | web/src/lib/auth.ts:6-8 | The configured user name is never empty. |
| Auth.VerifyPassword | web/src/lib/auth.ts:10-20 | With a hash, the check passes iff bcrypt answers true (an error fails). Without one, it passes iff a fallback password is configured and equals the input. |
| Auth.Authorize | web/src/lib/auth.ts:38-46 | A signed-in user has id, name and email all equal to the configured user name. |
| Auth.AuthorizeSpec | web/src/lib/auth.ts:41-45 | Sign-in succeeds iff the name equals the configured one and the password check passes. |
| Auth.WrongUserSkipsPassword | web/src/lib/auth.ts:41 | A different name is refused without consulting bcrypt. |
| Auth.MissingCredentialsRefused | web/src/lib/auth.ts:39-41 | Missing credentials read as empty strings, and never sign in. |
| Auth.HashDecidesAlone | web/src/lib/auth.ts:11-17 | With a hash configured, the fallback password plays no part. |
| Auth.BcryptErrorFails | web/src/lib/auth.ts:14-16 | A bcrypt error counts as a failed check. |
| Auth.DefaultUsername | web/src/lib/auth.ts:6 | The built-in name applies when `LOCAL_USERNAME` is unset or empty. |
| GeneratePpt.Classify | scripts/generate_ppt.py:28-35 | A stripped line starting with `"### "` is a heading, titled by the line with every `"### "` removed and stripped. Otherwise a line starting with `"- "` is a bullet with the rest of the line. Anything else is ignored. |
| GeneratePpt.Classified | scripts/generate_ppt.py:27-28 | Every line is classified, in order. |
| GeneratePpt.ParseSections | scripts/generate_ppt.py:23-38 | The loop over the lines, updating the current title and bullets, computes `Sections`. |
| GeneratePpt.ClassifyTrimmed | scripts/generate_ppt.py:28-35 | The branches of the loop body on the stripped line agree with the classification. |
| GeneratePpt.ParseStep | scripts/generate_ppt.py:27-35 | One iteration of the loop advances the parse by one line. |
| GeneratePpt.ParseTitles | scripts/generate_ppt.py:27-37 | Parsing adds one section per heading, titled by the heading, in order. |
| GeneratePpt.SectionsFollowHeadings | scripts/generate_ppt.py:23-38 | There are as many sections as `"### "` lines, titled in document order; no heading gives `[]`. |
| GeneratePpt.ParseKeepsClosed | scripts/generate_ppt.py:30-31 | Sections already closed are never changed by later lines. |
| GeneratePpt.ParseBody | scripts/generate_ppt.py:34-37 | Lines up to the next heading append their bullets, in order, to the current section. |
| GeneratePpt.OneSection | scripts/generate_ppt.py:29-37 | A heading followed by heading-free lines gives one section with exactly their bullets. |
| GeneratePpt.PreambleDropped | scripts/generate_ppt.py:24-37 | Bullets before the first heading are discarded. |
| GeneratePpt.ParseAppend | scripts/generate_ppt.py:29-33 | A heading closes everything before it: parsing continues from a fresh section list. |
| GeneratePpt.SectionsAppend | scripts/generate_ppt.py:29-33 | A document split just before a heading parses as the concatenation of its two halves. |
| GeneratePpt.BlankLineIgnored | scripts/generate_ppt.py:28 | A blank line (as produced by `\r\n` splitting) is ignored. |
| GeneratePpt.LayoutRoundTrip | scripts/generate_ppt.py:14-20 | The frame holds the lines in order: the first at level 0 and the rest at level 1. |
| GeneratePpt.TextFrame.Clear | scripts/generate_ppt.py:10 | `clear()` leaves only the first paragraph, emptied. |
| GeneratePpt.TextFrame.AddParagraph | scripts/generate_ppt.py:18 | `add_paragraph()` appends one empty paragraph and returns its position. |
| GeneratePpt.TextFrame.SetParagraph | scripts/generate_ppt.py:14-16 | Setting text and level changes that paragraph only. |
| GeneratePpt.TextFrame.AddBullets | scripts/generate_ppt.py:9-20 | An empty list leaves the frame cleared. Otherwise the frame is the lines laid out at levels 0, 1, 1, … |
| GeneratePpt.BuildSlides | scripts/generate_ppt.py:48-52 | One slide per section for the first `min(3, n)` sections, each titled by its section and holding its bullets. |
| Strings.LowerIdempotent | web/src/lib/guardrails.ts:23 | Lower-casing twice is lower-casing once. |
| Strings.IndexFromSpec | web/src/app/chat/page.tsx:104 | The search finds the leftmost occurrence at or after the start, or reports that there is none. |
| Strings.Trim | web/src/app/chat/page.tsx:236 | The result has no surrounding whitespace. It is empty iff the text is all whitespace. That it is a slice of the text is `Strings.TrimIsSlice`. |
| Strings.TrimIsSlice | web/src/app/chat/page.tsx:236 | The result is one slice of the text, with only whitespace cut before and after it. |
| Strings.TrimIdempotent | web/src/app/api/chat/route.ts:55 | Trimming twice is trimming once. |
| Strings.Split | web/src/app/chat/page.tsx:235 | Splitting yields at least one piece, and no piece holds a separator. |
| Strings.JoinSplit | web/src/app/api/ingest/route.ts:10 | Splitting at a character and joining with it gives back the text. |
| Strings.SplitJoin | web/src/app/chat/page.tsx:235 | Pieces without separators, joined by a separator, split back into the same pieces. |
| Strings.SplitLength | web/src/app/api/ingest/route.ts:10-12 | There is one piece more than there are separators. |
| Strings.LastSegment | web/src/app/api/github-ingest/route.ts:21 | `split(".").pop()` is the suffix after the last separator, or the whole text without one. |
| Strings.RemoveAllAbsent | scripts/generate_ppt.py:32 | `replace` changes nothing in a text without the pattern. |
| Strings.NatToStringRoundTrip | web/src/app/api/crawl/route.ts:23 | A chunk index printed in decimal reads back as the same number. |
| Strings.NatToStringInjective | web/src/app/api/github-ingest/route.ts:33 | Different indexes print differently. |

## Left out

- Network, SDK and library calls are oracles and are not modelled further. These are:
  - Gemini generation and token counting;
  - the embedding providers (`embedWithLlama`, `embedWithGoogle`, `embedText`) and the Pinecone client;
  - `fetchAndExtract` and JSDOM;
  - HMAC-SHA256, `bcrypt.compare`, base64 decoding and `encodeURIComponent`.
- Slack posting (`slackPostMessage`, web/src/lib/slack.ts:23-42), the Slack route and ticket creation are plain network plumbing, and are not part of this model.
- The Google OAuth provider of web/src/lib/auth.ts is configuration for a library, and is not part of this model.
- Embedding vectors and similarity scores are floats: vectors are opaque values, and scores are dropped from matches.
- UI rendering, Mermaid rendering, the login form and the integrations page are not modelled.
- Reading the Markdown file, saving the presentation, printing, and python-pptx beyond the paragraph text and level are I/O or library code.
  - `GeneratePpt.SlideOf` and `GeneratePpt.BuildSlides` record each slide's title and paragraphs, not its layout.
- Async ordering is not modelled: every route runs sequentially.
- Case folding is ASCII only, and whitespace is the ASCII class. This stands in for Unicode `toLowerCase`, JavaScript `\s`, and Python `str.strip` and `isspace`.
- GeneratePpt.SplitLines: Python `splitlines` drops a final empty piece and splits `\r\n` once, while the model splits at each break character. The only difference is extra blank lines, which `GeneratePpt.BlankLineIgnored` shows are ignored.
- Slack.TimingSafeEqual compares characters, not the UTF-8 bytes of `Buffer.from`. Non-ASCII signatures are therefore not modelled.
- Slack.ParseInt is exact on all integers; JavaScript's loss of precision beyond 2^53 is not modelled.
- Ingestion.RunSource, GitHubIngest.Ingest, Bootstrap.Bootstrap, Crawl.Crawl and UploadRoute.UploadRun chunk with the corrected chunker. As written, `chunkText` never returns for a text longer than 2000 characters (web/src/lib/embeddings.ts:48-55), so on such a text the real routes hang where these members return; see "Findings".
- Chunker.ChunkTextLoop carries an iteration budget (`fuel`), because the as-written loop does not terminate. Its results are those of the first `fuel` iterations.
- JSON bodies are modelled as typed fields, with `None` for an absent field. The following values are not modelled:
  - a non-string `repo`, `prompt` or `message`;
  - a non-array `urls`, or non-string URLs inside it;
  - a non-number `topK` or `maxFiles`.
- The chat route's `promptFeedback` is an opaque optional string, and its generation config and system instruction are not modelled. A missing `totalTokens` is reported by the oracle as 0.
- ChatPage.Send models only the shown answer. The token display and the source list it sets are left out.
- DiagramRoute.FirstMermaidFence and the page's `replace` model the lazy regular expressions as the leftmost opener followed by the nearest closing fence. This is the same match the lazy `[\s\S]*?` makes.
- Middleware: the Next.js `matcher` export is framework configuration. `Handle` applies the path test of `middleware` itself.
- Integers are unbounded. The counters and chunk indexes never approach JavaScript's safe-integer limit in practice.

## Findings

| source | as written | input that shows it | evidently intended | confidence | as-written member | corrected member |
|---|---|---|---|---|---|---|
| web/src/lib/embeddings.ts:52-54 | After the window that reaches the end of the text, `i = end - overlap` is still below `text.length` whenever `overlap > 0`, so the `break` never fires. The same last slice is pushed forever. With `overlap >= maxLen` the start even clamps back to 0. | A text of 2001 characters with the defaults 2000/200, as every ingestion route passes. The windows start at 0, 1800, 1801, 1801, … | Stop once a window reaches the end of the text, and always advance by at least one character. The chunks then tile the text with `overlap` characters shared between neighbours. | high; not executed | Chunker.PositiveOverlapNeverHalts | Chunker.ChunksCorrect |
