# wikijs2rag ingestion core in Dafny

This project models the ingestion side of wikijs2rag. The tool reads every public page of a Wiki.js
instance through its GraphQL API. It cleans each page and splits it into sections at markdown headers.
It cuts every section into overlapping word windows ("chunks") and embeds them. Finally it stores the
vectors in a Qdrant collection, replacing the page's earlier points.

The modules follow the source files:

- `Text` (text.dfy): the Python string operations the core relies on. These are `str.isspace`, `strip`,
  `split`, `join`, `splitlines`, `lower`, `lstrip`/`rstrip` of one character and `in`.
- `Cleaning` (clean.dfy): `_clean_markdown` and the clean-up after `_strip_html` in src/chunker.py.
  - Each regular expression is written as an explicit scanner with the same greedy or lazy choices.
  - The front-matter pattern's backtracking is modelled too.
- `Sections` (sections.dfy): `_split_by_headers`, as a loop (`SplitByHeaders`) proved against a
  block-by-block specification (`SplitSections`).
- `Windows` (windows.dfy): the sliding-window loop of `_window_chunks`.
  - It is proved against a recursive definition of the windows.
  - The loop is written over any element type, so its proof does not depend on strings.
- `Chunker` (chunker.dfy): `chunk_page`, and the properties of the chunks of a whole page.
- `WikiClient` (wiki_client.dfy): `WikiClient.__init__`, `_query` with its retry policy,
  `list_public_pages`, `get_page` and the HTML scrape fallback `_scrape_page`.
  - The HTTP transport is a function from the attempt number to what that attempt got back.
  - The HTML parse is a function from the fetched page to what each CSS selector finds.
- `Store` (store.dfy): `VectorStore` as a class.
  - Its collection is a field holding a sequence of points.
  - The Qdrant calls act on that field directly, and how each call ends (applied, refused with
    `UnexpectedResponse`, or failed otherwise) is an argument.
- `Sync` (sync.dfy): the per-page loop of `run` in src/main.py.
  - It covers fetching, skipping, chunking, embedding, payload building, storing, the three counters
    and the exit status.
  - The embedder and the outcomes of the store calls are arguments.

Some of the behaviour proved here is worth knowing:

- A markdown page made only of header lines has no section with a body. `_split_by_headers` then falls
  back to one untitled section holding the header text itself (`Sections.HeadersOnlyFallback`).
- Front-matter stripping removes only the first of two stacked front-matter blocks, so cleaning is not
  idempotent (`Cleaning.FrontMatterNotIdempotent`).
- When the delete call is refused, `delete_page` logs the refusal and swallows it. The insert still
  happens, so the stale points of the page stay beside the new ones (`Store.SwallowedDeleteKeepsStale`).
- The collection is reused as it is when it exists, even when its vector size differs from the embedder's
  (`Store.EnsureCollectionIdempotent`).

## Model

| member | source | states |
|---|---|---|
| Text.Strip | src/chunker.py:53 | the result has no white space at either end, is no longer than the input, leaves stripped text as it is, and is empty exactly when the input is blank |
| Text.Words | src/chunker.py:100 | every token of `str.split()` is non-empty and free of white space |
| Text.WordsEmpty | src/chunker.py:100-102 | `split()` gives no words exactly when the text is blank |
| Text.WordsOfJoin | src/chunker.py:110 | joining words with single spaces and splitting again gives back the same words |
| Text.JoinOfWordsStripped | src/chunker.py:110-112 | a space-joined non-empty list of words is non-empty and has nothing to strip |
| Text.WordsAround | src/chunker.py:111-112 | splitting text at a white-space character splits its word list at that point |
| Text.SplitLines | src/chunker.py:67 | no line returned by `splitlines()` contains a line break |
| Text.SplitLinesKeepWords | src/chunker.py:67 | the lines joined with a newline have the same words as the text: every line terminator, `\r\n` included, is white space |
| Text.SplitLinesJoin | src/chunker.py:67 | for text whose only line breaks are single newlines and that does not end in one, joining the lines with a newline gives the text back |
| Text.WordsAroundRun | src/chunker.py:111-112 | a non-empty stretch of white space between two texts gives their two word lists, one after the other |
| Text.Lower | src/chunker.py:143 | lower-casing keeps the length and maps each character on its own |
| Cleaning.MatchAt | src/chunker.py:44-50 | a match of a cleaning rule at a position ends after that position and within the text, and its replacement is shorter than the matched text |
| Cleaning.BracketLink | src/chunker.py:46-48 | a `[text](target)` match starting at `[` ends after it and within the text, and the kept link text is shorter than the match |
| Cleaning.SubFrom | src/chunker.py:44-50 | substituting from a position on gives text no longer than what remains after that position |
| Cleaning.Sub | src/chunker.py:44-50 | `re.sub` with a cleaning rule never lengthens the text, and leaves empty text empty |
| Cleaning.FindFence | src/chunker.py:50 | finds the first code fence at or after a position, and `None` means there is no later fence |
| Cleaning.SubNoMatch | src/chunker.py:44-50 | a substitution leaves text unchanged when its pattern matches nowhere |
| Cleaning.MarkerFreeUnchanged | src/chunker.py:44-48 | text without `<` keeps its tags, and text without `[` keeps its links and images |
| Cleaning.CollapseRuns | src/chunker.py:52 | after collapsing, no position starts a run as long as the pattern matches, and a text that did not start with a run still does not |
| Cleaning.CollapseKeepsWords | src/chunker.py:52 | collapsing newline runs, or white-space runs after HTML extraction, keeps the words of the text, in order |
| Cleaning.NoLongRunSlice | src/chunker.py:53 | a piece of a text without long runs has none either |
| Cleaning.StripKeepsNoLongRun | src/chunker.py:53 | the final `strip()` cannot create a long run |
| Cleaning.FrontMatterEnd | src/chunker.py:42 | a front-matter match ends just after a newline, beyond the opening `---` |
| Cleaning.StripFrontMatter | src/chunker.py:42 | the text is unchanged unless it starts with `---`, and otherwise loses a proper prefix |
| Cleaning.LeadingBlock | src/chunker.py:42 | a `---` block of one line that starts with a visible character and holds no line break is removed entirely, with its closing `---` line, when visible text follows |
| Cleaning.FrontMatterNotIdempotent | src/chunker.py:42 | of two stacked front-matter blocks, one pass removes only the first and a second pass changes the text again |
| Cleaning.CleanMarkdown | src/chunker.py:40-53 | the cleaned markdown is stripped and has no run of three newlines |
| Cleaning.CleanMarkdownNoTripleNewline | src/chunker.py:52-53 | no three consecutive characters of the cleaned markdown are all newlines |
| Cleaning.CleanExtractedHtml | src/chunker.py:146 | the cleaned extracted HTML text is stripped and has no two consecutive white-space characters |
| Sections.LeadingHashes | src/chunker.py:62 | counts exactly the `#` characters the line starts with |
| Sections.HeaderLineSamples | src/chunker.py:62 | `# A`, `### A` and `#` followed by two spaces are header lines; `#### A`, `#A`, `#` followed by one space, and the empty line are not |
| Sections.HeaderTitle | src/chunker.py:73 | a header's title is stripped and shorter than its line |
| Sections.Blocks | src/chunker.py:67-76 | the scan yields at least one block, and the first is untitled |
| Sections.BlocksAfterHeader | src/chunker.py:67-76 | a header line followed by non-header lines adds exactly one block: titled by the header, holding those lines |
| Sections.BlockSection | src/chunker.py:70-72 | a block gives a section exactly when its body is not blank, and that section is its title and stripped body |
| Sections.Emit | src/chunker.py:78-80 | every section emitted has a non-empty stripped body, and there are no more sections than blocks |
| Sections.SplitSections | src/chunker.py:60-86 | there is at least one section, every body is stripped, and either every body is non-empty or the whole text is the fallback section |
| Sections.SplitByHeaders | src/chunker.py:60-86 | the loop over the lines returns exactly the sections of the block specification |
| Sections.BlocksTitles | src/chunker.py:69-74 | an untitled first block, then one block per header line, titled in order |
| Sections.BlocksKeepBodyLines | src/chunker.py:75-76 | the blocks together hold every non-header line, in order and without loss |
| Sections.NoHeadersOneSection | src/chunker.py:82-84 | text without header lines is one untitled section holding its lines joined and stripped |
| Sections.EmptyTextOneSection | src/chunker.py:83-84 | empty text gives one untitled empty section |
| Sections.HeadersOnlyFallback | src/chunker.py:83-84 | a text made only of header lines falls back to one untitled section of the whole stripped text |
| Windows.WindowChunks | src/chunker.py:93-118 | the chunks are the section's windows, in order, numbered on from the start index, each under the section header |
| Windows.CutWindows | src/chunker.py:108-116 | the loop produces exactly one item per window of the recursive window definition, in order and numbered |
| Windows.WindowsFrom | src/chunker.py:108-116 | the loop from a start position yields no more windows than there are words left |
| Windows.WindowSizes | src/chunker.py:108-116 | every window holds at least one word and at most `chunk_size` words |
| Windows.WindowsFromAt | src/chunker.py:108-116 | window `k` starts `k` strides in, lies inside the words, and reaches the last word exactly when it is the last window |
| Windows.OffsetIsMultiple | src/chunker.py:116 | window starts are multiples of `chunk_size - chunk_overlap` |
| Windows.WindowShape | src/chunker.py:109-110 | every window holds between one and `chunk_size` words and is `words[start:min(start + chunk_size, N)]` |
| Windows.NoWordsNoWindows | src/chunker.py:100-102 | a section has no windows exactly when it has no words |
| Windows.BlankBodyNoChunks | src/chunker.py:100-102 | a section gives no chunks exactly when its body is blank |
| Windows.WindowCountFormula | src/chunker.py:108-116 | for more words than one window holds, the window count is the ceiling of `(n - overlap) / (size - overlap)` |
| Windows.ReassembleWindows | src/chunker.py:108-116 | dropping the first `chunk_overlap` words of every window after the first and concatenating gives back all the words, so no word is lost or repeated |
| Windows.ChunkTextShape | src/chunker.py:110-112 | a chunk's text under a stripped header is the header, a blank line and the window's words, it is non-empty, and its words are the header's words followed by the window |
| Windows.HeaderPrefix | src/chunker.py:111 | the prefix is empty exactly when the header is, and otherwise is the header followed by a blank line |
| Windows.ChunkText | src/chunker.py:111-112 | the chunk text is stripped and no longer than the header prefix plus the joined window |
| Windows.WindowWords | src/chunker.py:110 | every word of a window is a word of the body |
| Windows.StalledLoopNeverEnds | src/chunker.py:108-116 | with `chunk_overlap >= chunk_size` and more words than `chunk_size`, no turn of the loop as written ever leaves it |
| Chunker.PageSections | src/chunker.py:143-150 | a page has at least one section, and every header and body is stripped |
| Chunker.SectionHeadersStripped | src/chunker.py:73 | every section header is a stripped title or empty |
| Chunker.ChunkPage | src/chunker.py:152-157 | the loop over the sections returns the chunks of all sections in order, each numbered on from the chunks before it |
| Chunker.ChunkIndicesContiguous | src/chunker.py:154 | chunk indices run 0, 1, 2, ... across the whole page |
| Chunker.ChunkSectionsFromSections | src/chunker.py:153-155 | every chunk carries the header of one of the page's sections |
| Chunker.ChunkTextsNonEmpty | src/chunker.py:112 | no chunk text is empty |
| Chunker.BlankSectionsNoChunks | src/chunker.py:153-155 | sections with blank bodies give no chunks |
| Chunker.HtmlChunksUntitled | src/chunker.py:143-147 | every chunk of an HTML page is untitled |
| Chunker.EmptyPageNoChunks | src/chunker.py:143-157 | a page whose cleaned text is empty gives no chunks |
| WikiClient.NewClient | src/wiki_client.py:91-98 | the base URL loses its trailing slashes, the GraphQL URL is under it, and there is a bearer header exactly when a non-empty API key is given |
| WikiClient.ScrapeUrl | src/wiki_client.py:162 | the scrape URL is the base URL, one slash, and the path without its leading slashes |
| WikiClient.ForbiddenErrors | src/wiki_client.py:121-123 | code 6013 denies access whatever the message, "not authorized" anywhere in the message denies it in any letter case, and an error with neither does not |
| WikiClient.Classify | src/wiki_client.py:112-151 | an attempt is retried exactly on a transport error, 429 or 5xx. It succeeds exactly on a 2xx with data. It raises the forbidden error exactly when a 2xx carries an error with code 6013 or "not authorized". It carries the source's error messages |
| WikiClient.QueryFrom | src/wiki_client.py:111-153 | from attempt `a` on, the result is decided by the first later attempt that does not ask for a retry, or by the last attempt, every attempt before it having asked for a retry |
| WikiClient.QueryResult | src/wiki_client.py:106-153 | a non-positive `max_retries` fails with "Exceeded max retries"; otherwise some attempt from the first on decides the result as above |
| WikiClient.Sleeps | src/wiki_client.py:139-149 | one delay per retried attempt, the `k`-th being `retry_delay * k` |
| WikiClient.Query | src/wiki_client.py:106-153 | the result is the first attempt that does not ask for a retry, or the last attempt. Every earlier attempt was transient. The delays slept are `retry_delay * attempt`. A non-positive `max_retries` fails with "Exceeded max retries" |
| WikiClient.PublicPages | src/wiki_client.py:214 | every page kept is published and not private, and comes from the listing |
| WikiClient.PublicPagesExactly | src/wiki_client.py:214 | a page is kept exactly when it is listed and public |
| WikiClient.PublicPagesAppend | src/wiki_client.py:214 | the filter keeps the listing order |
| WikiClient.ListPublicPages | src/wiki_client.py:210-216 | the result is the query's page list filtered to the public pages, or the query's error |
| WikiClient.ScrapedRecord | src/wiki_client.py:194-204 | the scraped record is HTML content under the given path, with empty description, tags and creation date, and the title and update date from the metadata |
| WikiClient.SelectContent | src/wiki_client.py:176-189 | the loop returns the selected element: the first selector that finds an element wins, every selector before it found none, and when none does, `<body>` is used |
| WikiClient.ScrapePage | src/wiki_client.py:155-204 | a failed fetch raises "HTTP scrape failed for <url>". Otherwise the result is the scraped record whose content is the selected element of the fetched HTML, and it is `None` exactly when no selector and no `<body>` matched |
| WikiClient.GetPage | src/wiki_client.py:218-235 | the query's result is returned unless it is the forbidden error and the metadata has a path; then the scrape of that path decides: its fetch error, or the record holding the selected element of the fetched HTML, or `None` |
| Store.EnsureCollection | src/store.py:55-67 | a missing collection is created with the embedder's size and cosine distance, and an existing one and every other collection are kept as they are |
| Store.EnsureCollectionIdempotent | src/store.py:55-67 | ensuring twice is ensuring once, and an existing collection keeps its vector parameters |
| Store.PagePoints | src/store.py:79 | the points matched by the `page_id` filter are points of the collection with that page id |
| Store.PagePointsExactly | src/store.py:79 | a point is matched by the `page_id` filter exactly when it is in the collection and carries that page id |
| Store.WithoutPageExactly | src/store.py:73-81 | a point survives the delete exactly when it is in the collection and does not carry the deleted page id |
| Store.WithoutPage | src/store.py:73-81 | what a delete leaves consists of points of the collection, none of them of the deleted page |
| Store.Tagged | src/store.py:108 | the payload gains `page_id` and keeps every other key and value |
| Store.NewPoints | src/store.py:104-111 | one point per vector and payload pair, each with its vector and its payload tagged with the page id |
| Store.FiltersOfOnePage | src/store.py:79 | the page filter keeps a set of one page's points whole and finds none of any other page in it |
| Store.FiltersOfOtherPages | src/store.py:79 | after a delete the page has no points, deleting again changes nothing, and every other page keeps its points |
| Store.ReplacePage | src/store.py:85-113 | after the delete and the insert, the page has exactly its new points, and every other page has exactly the points it had |
| Store.SwallowedDeleteKeepsStale | src/store.py:82-83 | when the delete is refused and swallowed, the page has its stale points followed by the new ones |
| Store.IdBound | src/store.py:106 | every stored id is below the bound the id generator starts from |
| Store.VectorStore.constructor | src/store.py:32-49 | the store holds the named collection of the catalogue, created when absent |
| Store.VectorStore.DeletePage | src/store.py:73-83 | an applied delete removes exactly the page's points. A refused delete is swallowed and changes nothing. Any other failure is raised and changes nothing |
| Store.VectorStore.UpsertPageChunks | src/store.py:85-114 | mismatched lengths raise the assertion message and change nothing. A failed delete is raised and changes nothing. Otherwise the page's old points are dropped (unless the delete was refused) and the new points are appended with ids no stored point has, or the upsert's error is raised |
| Store.VectorStore.Info | src/store.py:116-126 | reports the collection's name, the server's point count and status, and the server's vector count when it is present and not zero, its point count otherwise |
| Store.VectorsCountReported | src/store.py:120 | a missing or zero vector count gives way to the point count |
| Sync.ForbiddenIsRestricted | src/main.py:102 | every forbidden error of the client reads as an access restriction, so such a page is skipped |
| Sync.PageUrlIsScrapeUrl | src/main.py:136 | the page URL stored with the chunks is the URL the client scrapes for that path |
| Sync.RestrictedMessages | src/main.py:102 | "not authorized" in any letter case or "6013" anywhere in an error message makes it an access restriction, and a message with no `6`, `n` or `N` is none |
| Sync.ContentTypeOf | src/main.py:115 | a missing or empty content type is `markdown`; otherwise it is the content type lower-cased, with its length and no upper-case letter |
| Sync.ChunkPayload | src/main.py:137-150 | a payload has exactly the nine keys, with the chunk's text, index and section and the page's path, URL and tags; a missing title, description or update time is stored as the empty string |
| Sync.Payloads | src/main.py:137-150 | one payload per chunk, in chunk order |
| Sync.Texts | src/main.py:128 | the texts passed to the embedder are the chunk texts, in order |
| Sync.PlanContent | src/main.py:110-134 | blank content and content without chunks are skipped; otherwise the page fails exactly when the embedder fails and is written exactly when it returns vectors, and a write carries the page's chunks, their embedding and their payloads |
| Sync.PlanPage | src/main.py:97-134 | a failed fetch is skipped exactly when its message reads as a restriction and is an error otherwise, a missing page is skipped, and a fetched page is planned from its content |
| Sync.OutcomeOf | src/main.py:152-159 | a page is stored exactly when the write's lengths agree and both store calls succeed, and skipped exactly when it was planned as a skip |
| Sync.PointsAfterScoped | src/main.py:152-157 | one page's store calls touch no other page, and a stored page holds exactly its new points |
| Sync.PointsAfterKeepsUnpaged | src/store.py:73-113 | a page's delete and upsert neither add nor remove a point that carries no integer page id |
| Sync.UnpagedKeptStep | src/main.py:152-157 | syncing one page keeps the points with no page id as they were at the start |
| Sync.UnpagedExactly | src/store.py:73-81 | a point has no integer page id exactly when no page's delete filter matches it |
| Sync.PageAfter | src/main.py:152-157 | the page's own points after its store calls: its new points after an applied delete, its stale points followed by the new ones after a refused delete, none after an applied delete and a failed upsert, and the points it had otherwise |
| Sync.PageAfterOf | src/store.py:73-113 | the page's points after its store calls depend only on the points it had, as `Sync.PageAfter` says |
| Sync.StoredPayloads | src/main.py:137-153 | the stored payload of chunk `k` holds its text, the index `k` and the page id |
| Sync.PrepareContent | src/main.py:110-150 | the loop body for a fetched page computes the content plan |
| Sync.PreparePage | src/main.py:97-150 | the loop body up to the store call computes the page plan |
| Sync.ApplyPlan | src/main.py:152-159 | the store call changes the collection as the plan and the calls' outcomes say, and counts the page accordingly |
| Sync.ProcessPage | src/main.py:92-161 | one page's processing yields its outcome, changes only that page's points, and keeps the store valid |
| Sync.CountsCover | src/main.py:90-159 | every page is counted exactly once among stored, skipped and failed |
| Sync.TallyOf | src/main.py:90-159 | the counters after the loop count each kind of outcome |
| Sync.ExitStatus | src/main.py:171-172 | the exit status is 2 exactly when a page failed, and 0 otherwise |
| Sync.Outcomes | src/main.py:92-161 | one outcome per listed page, in listing order |
| Sync.SyncPage | src/main.py:92-161 | processing the `i`-th page changes the collection as its plan and store calls say, leaves the points of every page not yet reached as they were, and leaves every page listed once so far synced |
| Sync.SyncedStep | src/main.py:92-161 | after the `i`-th page's store calls, it and every page listed once before it hold what their own store calls leave them |
| Sync.SyncedMeans | src/main.py:110-157 | a synced page that was stored after an applied delete holds exactly one new point per chunk, tagged with its id, and a page that was skipped or failed before the store call holds the points it had |

| Sync.Run | src/main.py:77-172 | invalid chunk settings or a failed listing end with status 1 and no change. Otherwise every listed page gets one outcome in order, pages not listed keep their points, points with no page id are neither added nor removed, every page listed once holds the points its own store calls leave it, the counters add up to the page count, and the status is 2 exactly when a page failed |

## Left out

- Reading the environment, logging, and `time.sleep` are not modelled. `_query`'s delays are returned as a list of the delays it would sleep, and the per-page delay of `run` is not modelled.
- The Qdrant connection retry loop of `run` (src/main.py:66-75) is not modelled. The model starts from a constructed store.
- The final `collection_info` call of `run` is modelled by `Store.VectorStore.Info`. `Sync.Run` does not call it.
- The embedder (src/embedder.py), the query side (src/query.py) and src/version.py are not part of this model. The embedder is an argument that returns the vectors, or `None` when it raises.
- `_strip_html`'s HTML parsing and BeautifulSoup's parsing, `decompose` and CSS matching are not modelled. They are arguments: the extracted text, and what each selector finds.
- Vectors are sequences of `real`. Floating-point arithmetic is not modelled.
- Text.Lower: lower-cases ASCII letters only. Python's `str.lower` also maps non-ASCII letters, which can only matter for the content type and for "not authorized" in error messages.
- Store.VectorStore.UpsertPageChunks: point ids come from a counter instead of `uuid4`. The contract only relies on a new id differing from every stored id.
- WikiClient.Query: a response body is either data or errors. A body with both counts as errors, as the source checks `errors` first. A body with neither, and JSON that does not parse, raise `KeyError` or a decoding error in the source; the model does not represent them.
- WikiClient.GetPage: `main.py` calls `get_page` without metadata, so `Sync.Run` never takes the scrape fallback. The fallback is modelled on its own.
- A listing entry is assumed to always carry its page id.

## Findings

| source | as written | input that shows it | evidently intended | confidence | as-written member | corrected member |
|---|---|---|---|---|---|---|
| src/chunker.py:116 | `pos += chunk_size - chunk_overlap` with no check that `chunk_overlap < chunk_size` (src/main.py:56-57 reads both settings unchecked) | `CHUNK_SIZE=64`, `CHUNK_OVERLAP=64` and a section of 65 words: `pos` stays 0, and the loop appends chunks forever | settings with `0 <= chunk_overlap < chunk_size` only, so every turn advances `pos` | not executed | Windows.StalledLoopNeverEnds | Windows.WindowChunks |

`Windows.WindowChunks` and everything built on it require `chunk_overlap < chunk_size`. `Sync.Run` ends with
status 1 before fetching anything when the settings do not satisfy `0 <= chunk_overlap < chunk_size`.
