# llms.txt blog parser — a Dafny model

This project models the core of `src/llms_parser.py`. That module fetches a
blog's `llms.txt` index, parses it into posts grouped under four categories
(documentation, tech blog, reflections, trends), caches the parse for a
configurable number of minutes, ranks posts against free-text queries with
BM25, and answers a few lookups: a post by title, posts in a date range, and
the full text of a post with a fallback.

The model follows the source's own structure.

- `wrappers.dfy` (`Wrappers`) holds the `Option` and `Result` types.
- `text.dfy` (`Text`) covers the string primitives the parser relies on: `str.strip`, `str.lower`, `in` on strings, `str.split`/`str.join` and `str.replace`.
- `blog.dfy` (`Blog`) holds the records: `BlogSection` (`Section`) and `LLMSContent` (`Content`), with `all_sections` and `full_text`. It also has `CacheEntry` with `is_expired`, and calendar dates with their order.
- `extract.dfy` (`Extract`) covers the three metadata extractors and the fixed regular expressions of the parser, each coded by hand:
  - `_extract_date`, `_extract_url` and `_extract_subcategory`;
  - the category table of the `## ` headings;
  - the bullet title;
  - the text after the link.
- `parse.dfy` (`Parse`) covers `_parse_sections`.
  - The line loop is a method over the parser's local variables (`ParseSections`, `ProcessLine`, `SaveSection`).
  - It is proved equal to a pure fold, `Parse`, of a one-line step function `Step` over a `State`.
  - The lemmas about `Save`, `Step` and the fold state what the scan guarantees.
- `bm25.dfy` (`Bm25`) models `BM25SearchEngine`.
  - It is a class whose fields `index` fills in place, with the invariant that the fields are the index of `documents`.
  - The scores are real numbers. `math.log` is a function parameter about which only one fact is assumed: it is positive above 1.
  - The ranking is a stable insertion sort, proved to order by score with ties in document order, and to be a permutation of the candidates.
- `http.dfy` (`Http`) models `ResilientHttpClient.get` as a class holding the circuit breaker. The retry loop is specified by a function `Call`.
  - Each attempt's outcome comes from a `replies` function: the reply to attempt `i`.
  - The sleeps are returned as a list of delays.
- `queries.dfy` (`Queries`) holds the read-only queries over `all_sections`:
  - the title search;
  - the category filter, date filter and stable newest-first sort of `get_posts_by_date`;
  - the category filter and cut of `search_documentation`/`search_tech_blog`;
  - the fallback text of `get_full_post_content`.
- `service.dfy` (`Service`) models the `LLMSParser` object.
  - It holds the single-slot cache, the search-indexed flag, the HTTP client and the engine.
  - Its invariant `Valid` says that an indexed engine holds exactly the full texts of the cached content's sections.

Times are integers counting seconds. Every reading of `datetime.now()` is a
parameter of the method that makes it:

- `now` for the freshness and breaker checks;
- `fetchedAt` for the time stamped on a fresh parse and its expiry;
- `failedAt` for the time a failed call opens the breaker.

The cache lives `cache_ttl_minutes * 60` seconds. The breaker opens for 300
seconds after the fifth consecutive failed call.

A few behaviours of the code are easy to misread, and the model keeps them as written:

- `_extract_subcategory` runs for every category, documentation included.
- A section's body is the joined lines with `.strip()` applied, so white space is trimmed at both ends.
- The human URL is derived only from a path ending in `.md`. Every `/index.md` in that path is removed, then every `.md` (`Text.ReplaceAll` twice).
- `_extract_date` tries the `Published` pattern at its leftmost match only. A match that is not a calendar date falls through to the leftmost bare date, not to a later `Published` match.
- `save_section` saves nothing while no category is open, and then resets nothing. A bullet read before the first `## ` heading therefore stays open, and when a `## ` heading of a known category follows, the next save files the bullet under that category. It is lost only when another bullet replaces it first or no such heading follows.

Leftmost searches (`FirstDate`, `FirstPublished`, `FirstLink`) return the position of the match; the value captured there is given by `PublishedAt`, `LinkAt` or `RestAt`.

## Model

| member | source | states |
|---|---|---|
| Text.LStrip | src/llms_parser.py:453 | the result is a suffix of the input that does not start with whitespace, and everything removed is whitespace |
| Text.RStrip | src/llms_parser.py:453 | the result is a prefix of the input that does not end with whitespace, and everything removed is whitespace |
| Text.Strip | src/llms_parser.py:453 | the result is the slice of the input that `LStrip` starts, with only white space before and after it in the input, and it neither starts nor ends with white space |
| Text.StripSlice | src/llms_parser.py:453 | text cut off by `lstrip` then `rstrip` is a slice of the input with only white space around it |
| Text.Lower | src/llms_parser.py:391 | same length as the input, each character lower-cased in place |
| Text.ContainsIff | src/llms_parser.py:393 | the substring test holds exactly when the pattern occurs at some position |
| Text.Split | src/llms_parser.py:399 | splitting on a separator yields at least one piece and no piece contains the separator |
| Text.JoinSplit | src/llms_parser.py:399 | joining the pieces of a split with the same separator gives back the text |
| Text.SplitJoin | src/llms_parser.py:417 | splitting a join of separator-free pieces gives back the pieces |
| Text.ReplaceAllAbsent | src/llms_parser.py:370 | replacing a pattern that does not occur leaves the text unchanged |
| Blog.DateKeyOrdersDates | src/llms_parser.py:657-664 | for valid dates, the sort key orders as the calendar does, equal keys mean equal dates, and `datetime.min` is below every date |
| Blog.Content.Append | src/llms_parser.py:437-445 | a saved section is appended to the list of its own category only; the other lists and the content's metadata are unchanged |
| Blog.OfCategory | src/llms_parser.py:578 | the category filter keeps only sections of that category and never lengthens the list |
| Blog.OfCategoryAppend | src/llms_parser.py:93-95 | filtering a concatenation filters each part |
| Blog.AllSectionsByCategory | src/llms_parser.py:93-95 | in well-categorised content `all_sections` has one entry per section, and picking a category out of it gives back exactly that category's list |
| Extract.FirstMatch | src/llms_parser.py:392-394 | the first table entry whose keyword occurs in the text, and no earlier entry's keyword occurs |
| Extract.CategoryOf | src/llms_parser.py:459-470 | a `## ` title maps to the category of the first of "Documentation", "Tech Blog", "Reflection", "Thoughts", "Trends" it contains, and to none exactly when it contains none |
| Extract.ExtractSubcategory | src/llms_parser.py:376-395 | the lower-cased context maps to the value of the first keyword of the table it contains, in table order, and to none exactly when it contains none |
| Extract.FirstDate | src/llms_parser.py:344-347 | the first position holding a `dddd-dd-dd` pattern, with none before it |
| Extract.SpaceRun | src/llms_parser.py:343 | the greedy white space run at a position: all white space, and the character after it is not |
| Extract.PublishedAt | src/llms_parser.py:343 | the date position of a `Published\s+date` match at `p` when there is one (the word, a non-empty white space run, a date pattern), and none exactly when no such match starts at `p` |
| Extract.PublishedMatchIsGreedy | src/llms_parser.py:343 | a `Published` match at a position has its date right after the whole white space run, so it is unique |
| Extract.FirstPublished | src/llms_parser.py:343-347 | the leftmost position at or after `from` where the `Published` pattern matches, and no match before it; none when there is no match at all |
| Extract.ValidDateAt | src/llms_parser.py:349-352 | a match yields a date exactly when it is a date pattern that `strptime` accepts, and that date is the one written there |
| Extract.ExtractDate | src/llms_parser.py:339-353 | the date of the leftmost `Published` match when it is a calendar date; otherwise the leftmost bare date when that is a calendar date; otherwise none |
| Extract.LinkAt | src/llms_parser.py:362 | a found path starts with `/`, has at least one more character and holds no `)` |
| Extract.LinkAtSpec | src/llms_parser.py:362 | `LinkAt` finds a path exactly when the link pattern matches at that position, and the path is the text from the `/` after `](` up to the first `)` |
| Extract.FirstLink | src/llms_parser.py:362 | the leftmost position at or after `from` where a link matches, with no link starting before it |
| Extract.ExtractUrl | src/llms_parser.py:355-374 | the `.md` URL is base plus the path of the leftmost link and none exactly when no position starts a link; the human URL is present with it and is base plus the path with `.md` parts removed |
| Extract.HumanPathKeepsOtherPaths | src/llms_parser.py:368-371 | a path not ending in `.md` is used unchanged |
| Extract.BulletTitle | src/llms_parser.py:492 | the title is non-empty, holds no `]`, and the line starts with `- [title]`; there is none when no `]` closes the brackets |
| Extract.RestAt | src/llms_parser.py:497 | `):` at `p` with text after it captures the suffix after the white space that follows it (the last character if only white space follows), and nothing matches at `p` otherwise |
| Extract.RestAfterLink | src/llms_parser.py:497 | the capture at the leftmost `):` followed by text, with none earlier; none exactly when no position has a match |
| Parse.NewSection | src/llms_parser.py:416-435 | the saved section carries the open title and category, the stripped newline-joined body, the date and subcategory extracted from it, and the bullet's URLs unless there were none, in which case the body's |
| Parse.Save | src/llms_parser.py:412-450 | a rejected save (no title, empty body or no category) changes nothing; an accepted one appends the new section to its category's list and clears the title, body and URLs |
| Parse.SaveSection | src/llms_parser.py:412-450 | the nested helper, on the parser's local variables, does what `Save` describes |
| Parse.ProcessLine | src/llms_parser.py:452-506 | one pass of the line loop does what `Step` describes for that line |
| Parse.ParseSections | src/llms_parser.py:397-518 | the whole parse, loop and final save, returns the content `Parse` describes |
| Parse.RejectedSaveSurvivesHeading | src/llms_parser.py:416-485 | when the open section cannot be saved, a following heading keeps its title, body, URLs and the lists as they were |
| Parse.OpenSectionTakesNextCategory | src/llms_parser.py:416-470 | a titled section with body opened while no category is open keeps its title and body across a `## ` heading of a known category, which opens that category, and the next save appends it to that category's list |
| Parse.BulletOpensSection | src/llms_parser.py:490-501 | a bullet with link text and text after its link, read when nothing can be saved, opens a section with that title and that text as its body, saving nothing |
| Parse.BulletBeforeCategory | src/llms_parser.py:397-509 | a titled bullet with text after its link followed by a `## ` heading of category `c` parses to exactly one section of `c`, with the bullet's title |
| Parse.StepParsed | src/llms_parser.py:452-506 | a line either saves the open section or leaves the lists alone |
| Parse.SaveExtends | src/llms_parser.py:437-445 | saving only appends: every list continues the old one |
| Parse.StepExtends | src/llms_parser.py:452-506 | a line only appends to the lists |
| Parse.ScanExtends | src/llms_parser.py:452-509 | the lists after any prefix of the lines are prefixes of the final lists |
| Parse.ParseKeepsOrder | src/llms_parser.py:397-518 | sections come out in the order their lines appear: what was parsed after a prefix of the input is a prefix of each final list |
| Parse.SaveWellCategorised | src/llms_parser.py:416-445 | saving keeps every list holding titled sections of its own category only |
| Parse.StepWellCategorised | src/llms_parser.py:452-506 | each line keeps every list holding titled sections of its own category only |
| Parse.ScanWellCategorised | src/llms_parser.py:452-509 | the scan keeps every list holding titled sections of its own category only |
| Parse.ParseWellCategorised | src/llms_parser.py:397-518 | every parsed section sits in the list of its category and has a non-empty title; the content records the raw text, the source URL and the fetch time |
| Parse.SaveCounts | src/llms_parser.py:412-450 | saving turns at most the open section into a list entry: sections plus open titled sections is unchanged |
| Parse.StepCounts | src/llms_parser.py:452-506 | only a bullet line with a title can open a section that may later be counted |
| Parse.ScanCounts | src/llms_parser.py:452-509 | sections saved plus the one still open never exceed the titled bullet lines read |
| Parse.ParseCounts | src/llms_parser.py:397-518 | there are never more sections than titled bullet lines in the input |
| Parse.ScanWithoutCategory | src/llms_parser.py:456-506 | without a `## ` heading no category ever opens and no section is saved |
| Parse.ParseWithoutCategory | src/llms_parser.py:397-518 | input without a `## ` heading parses to no section at all, bullets or not |
| Bm25.TokenizeSpec | src/llms_parser.py:133-139 | every token is a non-empty run of word characters, and the tokens together are exactly the word characters of the lower-cased text, in order |
| Bm25.TokenizeSplit | src/llms_parser.py:133-139 | a non-word character splits the tokens: those of the text around it are the tokens of each side |
| Bm25.TokenizeWord | src/llms_parser.py:133-139 | a maximal run of word characters is one token, lower-cased |
| Bm25.TermFreqs | src/llms_parser.py:152-153 | one term counter per document |
| Bm25.DocLengths | src/llms_parser.py:149-150 | one length per document |
| Bm25.PerDocument | src/llms_parser.py:148-153 | document `i`'s counter is the multiset of its tokens and its length is its token count |
| Bm25.DocCountBounds | src/llms_parser.py:155-157 | a term's document frequency is at most the number of documents and at least 1 if some document holds it |
| Bm25.DocCountSnoc | src/llms_parser.py:155-157 | one more document raises a term's document frequency by one exactly when the document holds the term |
| Bm25.ConsistentUnique | src/llms_parser.py:141-160 | the documents determine every field of the index |
| Bm25.ConsistentSpec | src/llms_parser.py:141-160 | an index has as many counters and lengths as documents, no document frequency above the document count, and a non-negative average length that is 0 without documents |
| Bm25.ConsistentPerDocument | src/llms_parser.py:148-153 | in an index, document `i`'s counter and length are those of its tokens |
| Bm25.ConsistentDocFreq | src/llms_parser.py:155-157 | a term present in some document has a document frequency between 1 and the document count |
| Bm25.LengthNormNonNegative | src/llms_parser.py:190-193 | the length normalisation is never negative |
| Bm25.Denominator | src/llms_parser.py:194 | the BM25 denominator is positive for a present term, so the division is defined |
| Bm25.TermScorePositive | src/llms_parser.py:163-195 | with log positive above 1, every query term present in a document adds a positive amount to its score |
| Bm25.TermShareMonotone | src/llms_parser.py:186-195 | for a fixed length norm, the share `tf * (k1 + 1) / (tf + k1 * (1 - b + b * norm))` never falls as `tf` grows |
| Bm25.IdfPositive | src/llms_parser.py:163-170 | with log positive above 1, a term some document holds has a positive idf |
| Bm25.TermScoreMonotone | src/llms_parser.py:163-195 | with the documents, lengths, average length and document frequencies fixed, a larger frequency of a present term never lowers its share of the score |
| Bm25.MatchedTerms | src/llms_parser.py:180-184 | the matched terms are the query tokens present in the document, in query order and with repeats, and each term occurs as often as in the query when present, never otherwise |
| Bm25.MatchedInOrder | src/llms_parser.py:180-184 | the scoring loop collects the present query terms in query order |
| Bm25.PresentTermsCounts | src/llms_parser.py:180-184 | the present terms are query terms found in the document, each as often as in the query |
| Bm25.ScorePositiveIffMatched | src/llms_parser.py:172-197 | a document's score is never negative, and positive exactly when some query term matched |
| Bm25.InsertRanked | src/llms_parser.py:221 | inserting a hit of a later document into a ranked list keeps it ranked and adds just that hit |
| Bm25.SortByScoreSpec | src/llms_parser.py:221 | sorting by score is a permutation and orders by score descending, ties in document order |
| Bm25.CandidatesSound | src/llms_parser.py:214-218 | candidates come in document order, and each carries its document's positive score and matched terms |
| Bm25.CandidatesComplete | src/llms_parser.py:214-218 | every document with a positive score is a candidate |
| Bm25.NoPositiveNoCandidates | src/llms_parser.py:217 | when no document scores above 0 there are no candidates |
| Bm25.Take | src/llms_parser.py:222 | `results[:top_k]` is a prefix of the list, of length `top_k` capped by the list's for non-negative `top_k` |
| Bm25.RankingSpec | src/llms_parser.py:214-222 | the results are ranked, each is a document with its own positive score and matched terms, and there are `top_k` of them or every candidate if fewer |
| Bm25.RankingSound | src/llms_parser.py:214-222 | each result is a document with its own positive score and matched terms |
| Bm25.TakeKeepsTheBest | src/llms_parser.py:221-222 | a hit cut off by `top_k` ranks below every hit kept |
| Bm25.RankingKeepsTheBest | src/llms_parser.py:214-222 | a document with a positive score that is not returned ranks below every result returned |
| Bm25.NoMatchNoResults | src/llms_parser.py:172-222 | when no document holds a query term the ranking is empty |
| Bm25.IndexSnoc | src/llms_parser.py:148-153 | indexing one more document appends its counter and its length |
| Bm25.CountOncePerTerm | src/llms_parser.py:156-157 | each distinct term of the document raises its document frequency by exactly one, and no other changes |
| Bm25.IndexStep | src/llms_parser.py:148-157 | one loop pass turns the index of the first `i` documents into the index of the first `i + 1` |
| Bm25.IndexDone | src/llms_parser.py:159 | after the loop, the average `sum(lengths) / n` (0 for no documents) completes a consistent index |
| Bm25.SearchEngine.constructor | src/llms_parser.py:118-131 | a new engine is empty, not indexed, and its fields are consistent |
| Bm25.SearchEngine.Index | src/llms_parser.py:141-160 | after `index(docs)` the engine is indexed over `docs` and every field is the index of `docs` |
| Bm25.SearchEngine.CountDocuments | src/llms_parser.py:144-157 | the loop leaves the counters, lengths and document frequencies of every document |
| Bm25.SearchEngine.AddDocument | src/llms_parser.py:149-157 | one document appends its length and counter and adds one to the frequency of each distinct term |
| Bm25.SearchEngine.Search | src/llms_parser.py:199-222 | nothing before indexing or for a query without tokens; otherwise the ranking of the tokenised query over the engine's index |
| Http.Backoffs | src/llms_parser.py:296-300 | one recorded delay per sleep |
| Http.BackoffsAt | src/llms_parser.py:298 | the sleep after attempt `i` lasts `retry_delay * 2^i` |
| Http.BackoffsDouble | src/llms_parser.py:298 | each sleep lasts twice the one before |
| Http.FirstDecisive | src/llms_parser.py:266-287 | the loop stops at the first 2xx or non-429 4xx reply within the budget, after only retryable failures |
| Http.Retry | src/llms_parser.py:264-300 | at most `max_retries` attempts (none when it is not positive, with no error recorded), and one sleep fewer than attempts |
| Http.HttpClient.constructor | src/llms_parser.py:250-253 | a new client has no failures and a closed breaker |
| Http.HttpClient.Get | src/llms_parser.py:255-310 | result, delays, attempts and the new breaker fields are those of `Call` from the old breaker |
| Http.OpenCircuitRefuses | src/llms_parser.py:258-262 | while the breaker is open the call fails at once: no request, no sleep, breaker unchanged |
| Http.ClosedCircuitAttempts | src/llms_parser.py:266 | with the breaker closed there is at least one request and at most `max_retries` |
| Http.SuccessResets | src/llms_parser.py:270-277 | a 2xx reply after only retryable failures is returned, after that many attempts, and resets the breaker |
| Http.SuccessMeansReply | src/llms_parser.py:266-277 | a successful call returns the body of a 2xx reply to its last attempt, preceded only by retryable failures, and resets the breaker |
| Http.ClientErrorStops | src/llms_parser.py:285-287 | a 4xx other than 429 ends the call at that attempt with no further sleep |
| Http.AllRetriesSpent | src/llms_parser.py:266-300 | with only retryable failures every attempt is made, with a sleep between each two, and the last failure is reported |
| Http.DelaysDouble | src/llms_parser.py:296-300 | in any call the `i`-th sleep is `retry_delay * 2^i`, and there is one sleep fewer than attempts |
| Http.FailureCounts | src/llms_parser.py:302-306 | a failed call with the breaker closed adds one failure and, from the fifth on, opens the breaker for 300 seconds from the failure time, and otherwise leaves the open-until time alone |
| Http.OpenedBreakerRefuses | src/llms_parser.py:258-305 | a failed call that reaches the threshold makes the breaker refuse every call before the 300 seconds are up |
| Queries.FirstTitleMatch | src/llms_parser.py:710-712 | the position of the first section whose lower-cased title contains the lower-cased query, with no match before it |
| Queries.FindByTitleFirst | src/llms_parser.py:708-712 | the title search returns the first matching section |
| Queries.FindByTitleNone | src/llms_parser.py:714 | the title search finds nothing exactly when no title matches |
| Queries.FirstByTitle | src/llms_parser.py:707-714 | the loop with early return finds what the title search describes |
| Queries.FilterByDate | src/llms_parser.py:651-661 | the date loop with its `continue`s keeps, in order, the sections the date filter describes |
| Queries.NamedCategoryMembers | src/llms_parser.py:644-648 | a section survives the category comprehension exactly when it is one of the sections and of the named category, or no category is named |
| Queries.InRangeMembers | src/llms_parser.py:652-661 | a section survives the date loop exactly when no bound is given, or it is dated and within both bounds, inclusive |
| Queries.SelectedMembers | src/llms_parser.py:644-661 | a section is selected exactly when it passes both filters |
| Queries.InsertByDate | src/llms_parser.py:664 | insertion adds one element |
| Queries.SortByDate | src/llms_parser.py:664 | sorting keeps the length |
| Queries.InsertNewest | src/llms_parser.py:664 | inserting into a newest-first list keeps it newest first and adds just that section |
| Queries.InsertWithKey | src/llms_parser.py:664 | the inserted section goes after every section with the same date that was already there |
| Queries.SortByDateSorts | src/llms_parser.py:664 | the sort puts newest first (undated as `datetime.min`) and is a permutation |
| Queries.SortByDateStable | src/llms_parser.py:664 | the sort is stable: sections with the same date keep their input order |
| Queries.PostsByDateSpec | src/llms_parser.py:635-666 | the result is newest first, a permutation of the selected sections, holds a section exactly when it passes both filters, and keeps the input order among equal dates |
| Queries.DateBoundDropsUndated | src/llms_parser.py:654-656 | with either bound given, every section returned is dated |
| Queries.Sections | src/llms_parser.py:578 | the sections of the results, one per result, in order |
| Queries.CategorySearchSpec | src/llms_parser.py:574-586 | the result is a prefix of the category's sections among the results, in rank order: at most `top_k` of them, and all of them when fewer |
| Queries.FullPostSpec | src/llms_parser.py:716-736 | there is a text exactly when a post was found; a fetched body is returned as it is; without a successful fetch the text is the title heading and summary followed by the "not available" note without an `.md` URL, or ending in the failure message in parentheses |
| Service.FullTexts | src/llms_parser.py:522-523 | one document per section, each its `title content` text |
| Service.AfterFetchSpec | src/llms_parser.py:535-557 | a fetched body is parsed, stamped with the fetch time and cached until `fetch time + ttl*60`, and the index is rebuilt; a failed fetch falls back to the old entry unchanged, and only without one is the error raised |
| Service.HitsInRange | src/llms_parser.py:566-570 | every hit indexes into `all_sections` |
| Service.ToResults | src/llms_parser.py:569-572 | one result per hit, in order, each holding the hit's section of `all_sections`, its score and its matched terms |
| Service.ResultsText | src/llms_parser.py:522-523 | each result's section has as full text the document its hit scored |
| Service.LlmsParser.constructor | src/llms_parser.py:328-333 | no cache and not indexed, a new client with the configured retries and a closed breaker, a new engine; the source URL is base URL plus path |
| Service.LlmsParser.BuildSearchIndex | src/llms_parser.py:520-526 | the engine is indexed over the full texts of the content's sections and the parser is marked indexed |
| Service.LlmsParser.StoreFetched | src/llms_parser.py:537-549 | the body is parsed, the cache replaced with an entry expiring ttl minutes after the fetch, and the index rebuilt over its sections |
| Service.LlmsParser.GetContent | src/llms_parser.py:528-557 | a fresh entry is returned with no request and nothing changed; otherwise the client's call, followed by the cache update or the stale fallback, with the breaker, cache and index left as described |
| Service.LlmsParser.LoadedAnswers | src/llms_parser.py:528-557 | the outcome of loading is the fresh entry unchanged, or the client's call whose breaker is kept and which caches a successful body with the fetch time and ttl expiry, and keeps the old cache on failure |
| Service.LlmsParser.Load | src/llms_parser.py:561 | the content and the new cache and breaker are those `get_content` gives without `force_refresh`: the fresh entry, or the client's call followed by the cache update or the stale fallback; an error leaves no cache behind |
| Service.LlmsParser.SearchIndexed | src/llms_parser.py:563-572 | the index is built if missing, and the results pair each hit of the query over it with its section of `all_sections`, whose full text is the document the hit scored |
| Service.LlmsParser.SearchAll | src/llms_parser.py:559-572 | answers from the content `get_content` gives; the results are the engine's hits over the full texts of the cached sections, each paired with the section whose full text was scored |
| Service.LlmsParser.SearchCategory | src/llms_parser.py:574-586 | the results are the sections of the category among the best 50 overall, cut to `top_k` |
| Service.LlmsParser.GetPostsByDate | src/llms_parser.py:635-666 | the result is the filtered, stably newest-first sorted sections of the cached content |
| Service.LlmsParser.GetPostByTitle | src/llms_parser.py:698-714 | the first section of the cached content whose title matches |
| Service.LlmsParser.FetchPostContent | src/llms_parser.py:683-696 | no request and an error without an `.md` URL; otherwise the client's call, breaker updated |
| Service.LlmsParser.ReadPost | src/llms_parser.py:716-736 | the fallback with no request without an `.md` URL; otherwise the client's call, whose body is returned or whose message goes into the fallback |
| Service.LlmsParser.GetFullPostContent | src/llms_parser.py:716-736 | the post is looked up in the content `get_content` gives; it is fetched exactly when one is found with an `.md` URL, by the client's call from the breaker left by loading; the text is the fetched body or the fallback with the reason |

## Left out

- Network, sleeping, `async` and logging: `httpx`, `asyncio.sleep` and the logger calls are not modelled. The reply to each attempt is a parameter, and the sleeps are returned as delays instead of slept. `fetch_content` is a one-line call folded into `GetContent`.
- Time of day: `datetime.now()` is replaced by integer-second parameters (`now`, `fetchedAt`, `failedAt`). The date bounds of `get_posts_by_date` are calendar dates without a time of day.
- Concurrency: interleavings of `async` calls on the shared parser are not modelled. Each method runs to completion alone.
- Floating point: BM25 scores are real numbers, so rounding is not modelled. `math.log` is the parameter `ln`, assumed only to be positive above 1. `k1` and `b` are fixed at the defaults 1.5 and 0.75, the only values `LLMSParser` uses.
- Regular expressions and Unicode:
  - The few fixed patterns are coded by hand.
  - `\w` is ASCII letters, digits, `_` and the Hangul syllables; `\d` is ASCII digits.
  - `str.lower` folds ASCII letters only.
  - Strings are sequences of characters with no normalisation.
- Exception objects: failures are the `Http.Failure` datatype, not exception messages. The message `get_full_post_content` embeds in its fallback comes from a `describe` parameter. The `ValueError` of `fetch_post_content` is `Err(None)`.
- `http_timeout`: a timeout is one kind of `NetworkError` reply.
- Configuration from the environment (`_safe_int`, `_safe_float`, the `ParserConfig` defaults): the values are constructor arguments.
- Presentation: `get_documentation_summary`, `get_tech_blog_summary` and `get_health_status` are not modelled, nor is pydantic's model plumbing. The `tags` list is always empty.
- `src/server.py` and the scripts are not part of this model.
- Queries.CategorySearchSpec: states the result's length only for a non-negative `top_k`; `Bm25.Take` itself models Python's slice with a negative bound.
- Service.LlmsParser.GetFullPostContent: the post fetch reads the clock as `fetchedAt` for both its breaker check and its failure time.
- Http.HttpClient.Get: only HTTP status failures and request errors are replies; any other exception `httpx` raises would leave `get` without recording a failure, and the model has no such reply.
