/**
 * `LLMSParser`: the single-slot TTL cache over fetch-and-parse, the search
 * index kept in step with the cached content, and the queries answered
 * from it.
 *
 * Each public operation takes the clock readings and the network replies
 * as parameters: `now` is the time the cache and the breaker are consulted,
 * `fetchedAt` the time a fetch completes (stamped on the parse and used for
 * the cache expiry and the breaker's bookkeeping), and `replies(i)` the
 * reply to attempt `i` of the fetch.
 */
module Service {
  import opened Wrappers
  import opened Blog
  import opened Parse
  import opened Queries
  import Http
  import Bm25

  /** `[section.full_text for section in all_sections]`: the documents the index is built over. */
  function FullTexts(sections: seq<Section>): (r: seq<string>)
    ensures |r| == |sections|
    ensures forall k :: 0 <= k < |r| ==> r[k] == sections[k].FullText()
  {
    if sections == [] then [] else FullTexts(sections[..|sections| - 1]) + [sections[|sections| - 1].FullText()]
  }

  /** The cache answers on its own: no forced refresh and an entry that has not expired. */
  predicate Fresh(cache: Option<CacheEntry>, forceRefresh: bool, now: int) {
    !forceRefresh && cache.Some? && !cache.value.IsExpired(now)
  }

  /** What `get_content` returns and leaves in the cache once it has fetched, and whether it rebuilt the index. */
  datatype Refreshed = Refreshed(result: Result<Content, Http.Failure>, cache: Option<CacheEntry>, rebuilt: bool)

  /** What `get_content()` without a forced refresh returns, leaves in the cache and leaves in the breaker. */
  datatype Loading = Loading(result: Result<Content, Http.Failure>, cache: Option<CacheEntry>, breaker: Http.Breaker)

  /**
   * The rest of `get_content` after the fetch: a fetched body is parsed,
   * cached for `ttl` minutes and indexed; a failed fetch falls back to the
   * cached entry, stale or not, and is raised only when there is none.
   */
  function AfterFetch(cache: Option<CacheEntry>, fetched: Result<string, Http.Failure>,
                      baseUrl: string, sourceUrl: string, ttlMinutes: int, fetchedAt: int): Refreshed {
    match fetched
    case Ok(raw) =>
      var content := Parse.Parse(raw, baseUrl, sourceUrl, fetchedAt);
      Refreshed(Ok(content), Some(CacheEntry(content, fetchedAt + ttlMinutes * 60)), true)
    case Err(e) =>
      if cache.Some? then Refreshed(Ok(cache.value.content), cache, false) else Refreshed(Err(e), cache, false)
  }

  /**
   * `get_content` fails only when the fetch failed and nothing was cached;
   * whatever it returns is what the cache then holds; a fetched entry is a
   * well-categorised parse of the body, fresh until `ttl` minutes after the
   * fetch; and a failed fetch leaves the cache as it was.
   */
  lemma AfterFetchSpec(cache: Option<CacheEntry>, fetched: Result<string, Http.Failure>,
                       baseUrl: string, sourceUrl: string, ttlMinutes: int, fetchedAt: int, t: int)
    ensures var r := AfterFetch(cache, fetched, baseUrl, sourceUrl, ttlMinutes, fetchedAt);
      && (r.result.Err? <==> fetched.Err? && cache.None?)
      && (r.result.Err? ==> r.result.error == fetched.error)
      && (r.result.Ok? ==> r.cache.Some? && r.result.value == r.cache.value.content)
      && (r.rebuilt <==> fetched.Ok?)
      && (fetched.Ok? ==>
            && r.cache.value.content.WellCategorised()
            && r.cache.value.content.rawContent == fetched.value
            && r.cache.value.content.fetchedAt == fetchedAt
            && (r.cache.value.IsExpired(t) <==> t > fetchedAt + ttlMinutes * 60))
      && (fetched.Err? ==> r.cache == cache)
  {
    if fetched.Ok? {
      ParseWellCategorised(fetched.value, baseUrl, sourceUrl, fetchedAt);
    }
  }

  /** What `search` returns over the engine's index: nothing for a query without tokens, else the ranking. */
  ghost function Hits(ix: Bm25.IndexData, query: string, topK: int, ln: real -> real): seq<Bm25.Hit>
    requires |ix.termFreqs| == |ix.docLengths| == |ix.documents|
  {
    if Bm25.Tokenize(query) == [] then [] else Bm25.Ranking(ix, Bm25.Tokenize(query), topK, ln)
  }

  lemma HitsInRange(ix: Bm25.IndexData, query: string, topK: int, ln: real -> real)
    requires |ix.termFreqs| == |ix.docLengths| == |ix.documents|
    ensures forall k :: 0 <= k < |Hits(ix, query, topK, ln)| ==> Hits(ix, query, topK, ln)[k].index < |ix.documents|
  {
    if Bm25.Tokenize(query) != [] {
      Bm25.RankingSpec(ix, Bm25.Tokenize(query), topK, ln);
    }
  }

  /** `[SearchResult(section=all_sections[idx], ...) for idx, score, matched in results]`. */
  function ToResults(all: seq<Section>, hits: seq<Bm25.Hit>): (r: seq<SearchResult>)
    requires forall k :: 0 <= k < |hits| ==> hits[k].index < |all|
    ensures |r| == |hits|
    ensures forall k :: 0 <= k < |r| ==>
      && r[k].section == all[hits[k].index]
      && r[k].score == hits[k].score
      && r[k].matchedTerms == hits[k].matched
  {
    seq(|hits|, k requires 0 <= k < |hits| => SearchResult(all[hits[k].index], hits[k].score, hits[k].matched))
  }

  /** Over an index of the sections' full texts, each result's section has the text of the document its hit names. */
  lemma ResultsText(all: seq<Section>, hits: seq<Bm25.Hit>, documents: seq<string>)
    requires forall k :: 0 <= k < |hits| ==> hits[k].index < |all|
    requires documents == FullTexts(all)
    ensures forall k :: 0 <= k < |hits| ==> ToResults(all, hits)[k].section.FullText() == documents[hits[k].index]
  {
  }

  /** `LLMSParser`. */
  class LlmsParser {
    const baseUrl: string
    const sourceUrl: string
    const cacheTtlMinutes: int
    const client: Http.HttpClient
    const engine: Bm25.SearchEngine
    var cache: Option<CacheEntry>
    var searchIndexed: bool

    /**
     * The engine's fields describe the index of its documents; it is marked
     * indexed exactly when the parser says so, and then its documents are
     * the full texts of the cached content's sections.
     */
    ghost predicate Valid()
      reads this, engine
    {
      && engine.Valid()
      && searchIndexed == engine.indexed
      && (cache.Some? ==> cache.value.content.WellCategorised())
      && (searchIndexed ==> cache.Some? && engine.documents == FullTexts(cache.value.content.AllSections()))
    }

    constructor(baseUrl: string, llmsPath: string, cacheTtlMinutes: int, maxRetries: int, retryDelay: real, ln: real -> real)
      requires Bm25.LogPositive(ln)
      ensures Valid() && fresh(client) && fresh(engine)
      ensures this.baseUrl == baseUrl && sourceUrl == baseUrl + llmsPath && this.cacheTtlMinutes == cacheTtlMinutes
      ensures client.maxRetries == maxRetries && client.retryDelay == retryDelay && client.State() == Http.Breaker(0, None)
      ensures engine.ln == ln
      ensures cache.None? && !searchIndexed
    {
      this.baseUrl := baseUrl;
      sourceUrl := baseUrl + llmsPath;
      this.cacheTtlMinutes := cacheTtlMinutes;
      client := new Http.HttpClient(maxRetries, retryDelay);
      engine := new Bm25.SearchEngine(ln);
      cache := None;
      searchIndexed := false;
    }

    /**
     * `_build_search_index`: index the full text of every section of the
     * cached content. It is also what restores `Valid` after a new entry
     * has replaced the one the index was built from.
     */
    method BuildSearchIndex(content: Content)
      requires engine.Valid() && cache.Some? && cache.value.content == content
      requires content.WellCategorised()
      modifies this, engine
      ensures Valid() && searchIndexed && engine.documents == FullTexts(content.AllSections())
      ensures cache == old(cache)
    {
      var documents := FullTexts(content.AllSections());
      engine.Index(documents);
      searchIndexed := true;
    }

    /** The success path of `get_content`: parse the body, replace the cache entry, rebuild the index. */
    method StoreFetched(raw: string, fetchedAt: int) returns (content: Content)
      requires Valid()
      modifies this, engine
      ensures Valid()
      ensures content == Parse.Parse(raw, baseUrl, sourceUrl, fetchedAt)
      ensures cache == Some(CacheEntry(content, fetchedAt + cacheTtlMinutes * 60))
      ensures searchIndexed && engine.documents == FullTexts(content.AllSections())
    {
      content := ParseSections(raw, baseUrl, sourceUrl, fetchedAt);
      ParseWellCategorised(raw, baseUrl, sourceUrl, fetchedAt);
      cache := Some(CacheEntry(content, fetchedAt + cacheTtlMinutes * 60));
      BuildSearchIndex(content);
    }

    /** `get_content`. */
    method GetContent(forceRefresh: bool, now: int, fetchedAt: int, replies: nat -> Http.Reply)
      returns (r: Result<Content, Http.Failure>)
      requires Valid()
      modifies this, engine, client
      ensures Valid()
      ensures r.Ok? ==> cache.Some? && r.value == cache.value.content
      ensures Fresh(old(cache), forceRefresh, now) ==>
        && r == Ok(old(cache).value.content) && cache == old(cache)
        && client.State() == old(client.State()) && unchanged(engine) && searchIndexed == old(searchIndexed)
      ensures !Fresh(old(cache), forceRefresh, now) ==>
        var call := Http.Call(old(client.State()), client.maxRetries, client.retryDelay, now, fetchedAt, replies);
        var step := AfterFetch(old(cache), call.result, baseUrl, sourceUrl, cacheTtlMinutes, fetchedAt);
        && client.State() == call.breaker
        && r == step.result && cache == step.cache
        && (step.rebuilt ==> searchIndexed && engine.documents == FullTexts(r.value.AllSections()))
        && (!step.rebuilt ==> unchanged(engine) && searchIndexed == old(searchIndexed))
    {
      if !forceRefresh && cache.Some? && !cache.value.IsExpired(now) {
        return Ok(cache.value.content);
      }
      var fetched, delays, attempts := client.Get(now, fetchedAt, replies);
      if fetched.Ok? {
        var content := StoreFetched(fetched.value, fetchedAt);
        r := Ok(content);
      } else if cache.Some? {
        r := Ok(cache.value.content);
      } else {
        r := Err(fetched.error);
      }
    }

    /**
     * `get_content()` with `force_refresh` left false, from the cache entry
     * `cache0` and the breaker `b`: a fresh entry answers on its own;
     * otherwise the body is fetched and handled as `AfterFetch` says.
     */
    function Loaded(cache0: Option<CacheEntry>, b: Http.Breaker, now: int, fetchedAt: int, replies: nat -> Http.Reply): Loading {
      if Fresh(cache0, false, now) then Loading(Ok(cache0.value.content), cache0, b)
      else
        var call := Http.Call(b, client.maxRetries, client.retryDelay, now, fetchedAt, replies);
        var step := AfterFetch(cache0, call.result, baseUrl, sourceUrl, cacheTtlMinutes, fetchedAt);
        Loading(step.result, step.cache, call.breaker)
    }

    /**
     * Which cache entry and breaker a query is left with after loading from
     * `cache0` and `b`: a fresh entry is used as it is; otherwise the breaker
     * is the call's, a failed fetch keeps the entry, and a fetched body
     * becomes a new entry read from that body at that time.
     */
    predicate AnswersFrom(cache0: Option<CacheEntry>, b: Http.Breaker, now: int, fetchedAt: int, replies: nat -> Http.Reply,
                          cache1: Option<CacheEntry>, b1: Http.Breaker) {
      if Fresh(cache0, false, now) then cache1 == cache0 && b1 == b
      else
        var call := Http.Call(b, client.maxRetries, client.retryDelay, now, fetchedAt, replies);
        && b1 == call.breaker
        && (call.result.Err? ==> cache1 == cache0)
        && (call.result.Ok? ==>
              && cache1.Some? && cache1.value.content.rawContent == call.result.value
              && cache1.value.content.fetchedAt == fetchedAt && cache1.value.expiresAt == fetchedAt + cacheTtlMinutes * 60)
    }

    /** The load leaves the cache and the breaker as `AnswersFrom` says. */
    lemma LoadedAnswers(cache0: Option<CacheEntry>, b: Http.Breaker, now: int, fetchedAt: int, replies: nat -> Http.Reply)
      ensures var l := Loaded(cache0, b, now, fetchedAt, replies);
        AnswersFrom(cache0, b, now, fetchedAt, replies, l.cache, l.breaker)
    {
      if !Fresh(cache0, false, now) {
        var call := Http.Call(b, client.maxRetries, client.retryDelay, now, fetchedAt, replies);
        AfterFetchSpec(cache0, call.result, baseUrl, sourceUrl, cacheTtlMinutes, fetchedAt, now);
      }
    }

    /**
     * `get_content()` with `force_refresh` left false, as every query calls
     * it. An error leaves no cache behind and success returns the cached
     * content.
     */
    method Load(now: int, fetchedAt: int, replies: nat -> Http.Reply) returns (r: Result<Content, Http.Failure>)
      requires Valid()
      modifies this, engine, client
      ensures Valid()
      ensures Loading(r, cache, client.State()) == Loaded(old(cache), old(client.State()), now, fetchedAt, replies)
      ensures r.Err? ==> old(cache).None? && cache.None?
      ensures r.Ok? ==> cache.Some? && r.value == cache.value.content
      ensures AnswersFrom(old(cache), old(client.State()), now, fetchedAt, replies, cache, client.State())
    {
      r := GetContent(false, now, fetchedAt, replies);
      LoadedAnswers(old(cache), old(client.State()), now, fetchedAt, replies);
    }

    /** The rest of `search_all` once the content is loaded: build the index if it is missing, rank, pair each hit with its section. */
    method SearchIndexed(query: string, topK: int) returns (results: seq<SearchResult>)
      requires Valid() && cache.Some?
      modifies this, engine
      ensures Valid() && searchIndexed && cache == old(cache)
      ensures var all := cache.value.content.AllSections();
        var hits := Hits(engine.Snapshot(), query, topK, engine.ln);
        && (forall k :: 0 <= k < |hits| ==> hits[k].index < |all|)
        && results == ToResults(all, hits)
        && forall k :: 0 <= k < |hits| ==> results[k].section.FullText() == engine.documents[hits[k].index]
    {
      if !searchIndexed {
        BuildSearchIndex(cache.value.content);
      }
      var hits := engine.Search(query, topK);
      var all := cache.value.content.AllSections();
      ghost var ix := engine.Snapshot();
      assert ix.documents == FullTexts(all);
      Bm25.ConsistentShape(ix);
      assert hits == Hits(ix, query, topK, engine.ln);
      HitsInRange(ix, query, topK, engine.ln);
      results := ToResults(all, hits);
      ResultsText(all, hits, ix.documents);
    }

    /** `search_all`: the engine's ranking, each hit paired with its section of `all_sections`. */
    method SearchAll(query: string, topK: int, now: int, fetchedAt: int, replies: nat -> Http.Reply)
      returns (r: Result<seq<SearchResult>, Http.Failure>)
      requires Valid()
      modifies this, engine, client
      ensures Valid()
      ensures AnswersFrom(old(cache), old(client.State()), now, fetchedAt, replies, cache, client.State())
      ensures r.Err? ==> old(cache).None? && cache.None?
      ensures r.Ok? ==> (cache.Some? && searchIndexed &&
        var all := cache.value.content.AllSections();
        var hits := Hits(engine.Snapshot(), query, topK, engine.ln);
        && (forall k :: 0 <= k < |hits| ==> hits[k].index < |all|)
        && r.value == ToResults(all, hits)
        && forall k :: 0 <= k < |hits| ==> r.value[k].section.FullText() == engine.documents[hits[k].index])
    {
      var got := Load(now, fetchedAt, replies);
      if got.Err? {
        return Err(got.error);
      }
      var results := SearchIndexed(query, topK);
      r := Ok(results);
    }

    /**
     * `search_documentation` (`c` is `Documentation`) and `search_tech_blog`
     * (`c` is `TechBlog`): the best 50 results overall, then the first
     * `top_k` sections of the category among them.
     */
    method SearchCategory(c: Category, query: string, topK: int, now: int, fetchedAt: int, replies: nat -> Http.Reply)
      returns (r: Result<seq<Section>, Http.Failure>)
      requires Valid()
      modifies this, engine, client
      ensures Valid()
      ensures AnswersFrom(old(cache), old(client.State()), now, fetchedAt, replies, cache, client.State())
      ensures r.Err? ==> old(cache).None? && cache.None?
      ensures r.Ok? ==> (cache.Some? && searchIndexed &&
        var all := cache.value.content.AllSections();
        var hits := Hits(engine.Snapshot(), query, 50, engine.ln);
        && (forall k :: 0 <= k < |hits| ==> hits[k].index < |all|)
        && r.value == CategorySearch(ToResults(all, hits), c, topK))
    {
      var results := SearchAll(query, 50, now, fetchedAt, replies);
      if results.Err? {
        return Err(results.error);
      }
      r := Ok(CategorySearch(results.value, c, topK));
    }

    /** `get_posts_by_date`: the category comprehension, the date loop, then the stable sort newest first. */
    method GetPostsByDate(start: Option<Date>, end: Option<Date>, category: Option<string>,
                          now: int, fetchedAt: int, replies: nat -> Http.Reply)
      returns (r: Result<seq<Section>, Http.Failure>)
      requires Valid()
      modifies this, engine, client
      ensures Valid()
      ensures AnswersFrom(old(cache), old(client.State()), now, fetchedAt, replies, cache, client.State())
      ensures r.Err? ==> old(cache).None? && cache.None?
      ensures r.Ok? ==> cache.Some? && r.value == PostsByDate(cache.value.content.AllSections(), start, end, category)
    {
      var got := Load(now, fetchedAt, replies);
      if got.Err? {
        return Err(got.error);
      }
      var sections := NamedCategory(got.value.AllSections(), category);
      var filtered := FilterByDate(sections, start, end);
      r := Ok(SortByDate(filtered));
    }

    /** `get_post_by_title`: the first section of `all_sections` whose title contains the query, ignoring case. */
    method GetPostByTitle(title: string, now: int, fetchedAt: int, replies: nat -> Http.Reply)
      returns (r: Result<Option<Section>, Http.Failure>)
      requires Valid()
      modifies this, engine, client
      ensures Valid()
      ensures AnswersFrom(old(cache), old(client.State()), now, fetchedAt, replies, cache, client.State())
      ensures r.Err? ==> old(cache).None? && cache.None?
      ensures r.Ok? ==> cache.Some? && r.value == FindByTitle(cache.value.content.AllSections(), title)
    {
      var got := Load(now, fetchedAt, replies);
      if got.Err? {
        return Err(got.error);
      }
      var found := FirstByTitle(got.value.AllSections(), title);
      r := Ok(found);
    }

    /** `fetch_post_content`: GET the section's `.md` URL; without one, a `ValueError`. */
    method FetchPostContent(section: Section, now: int, failedAt: int, replies: nat -> Http.Reply)
      returns (r: Result<string, Option<Http.Failure>>)
      modifies client
      ensures !Truthy(section.mdUrl) ==> r == Err(None) && client.State() == old(client.State())
      ensures Truthy(section.mdUrl) ==>
        var call := Http.Call(old(client.State()), client.maxRetries, client.retryDelay, now, failedAt, replies);
        && client.State() == call.breaker
        && r == (if call.result.Ok? then Ok(call.result.value) else Err(Some(call.result.error)))
    {
      if !Truthy(section.mdUrl) {
        return Err(None);
      }
      var fetched, delays, attempts := client.Get(now, failedAt, replies);
      r := if fetched.Ok? then Ok(fetched.value) else Err(Some(fetched.error));
    }

    /**
     * The part of `get_full_post_content` after the title search found
     * `section`: its fetched body, or its title and summary with the note
     * that says why there is no body.
     */
    method ReadPost(section: Section, fetchedAt: int, postReplies: nat -> Http.Reply, describe: Http.Failure -> string)
      returns (text: string, fetched: Option<Result<string, string>>)
      modifies client
      ensures (fetched.Some? <==> Fetches(Some(section))) && Some(text) == FullPost(Some(section), fetched)
      ensures fetched.None? ==> client.State() == old(client.State())
      ensures fetched.Some? ==>
        var call := Http.Call(old(client.State()), client.maxRetries, client.retryDelay, fetchedAt, fetchedAt, postReplies);
        && client.State() == call.breaker
        && fetched.value == (if call.result.Ok? then Ok(call.result.value) else Err(describe(call.result.error)))
    {
      if !Truthy(section.mdUrl) {
        return Fallback(section, NoUrlNote), None;
      }
      var post := FetchPostContent(section, fetchedAt, fetchedAt, postReplies);
      if post.Ok? {
        fetched := Some(Ok(post.value));
        text := post.value;
      } else {
        var message := describe(post.error.value);
        fetched := Some(Err(message));
        text := Fallback(section, FailedNote(message));
      }
    }

    /**
     * `get_full_post_content`: the fetched post, or the title and summary
     * with a note when there is no `.md` URL or the fetch fails. `describe`
     * renders the exception's message; `fetched` reports the post fetch,
     * when one was made, as its body or that message.
     */
    method GetFullPostContent(title: string, now: int, fetchedAt: int, replies: nat -> Http.Reply,
                              postReplies: nat -> Http.Reply, describe: Http.Failure -> string)
      returns (r: Result<Option<string>, Http.Failure>, fetched: Option<Result<string, string>>, ghost loaded: Http.Breaker)
      requires Valid()
      modifies this, engine, client
      ensures Valid()
      ensures r.Err? ==> old(cache).None? && cache.None?
      ensures r.Ok? ==> (cache.Some? &&
        var found := FindByTitle(cache.value.content.AllSections(), title);
        && (fetched.Some? <==> Fetches(found))
        && r.value == FullPost(found, fetched))
      ensures AnswersFrom(old(cache), old(client.State()), now, fetchedAt, replies, cache, loaded)
      ensures fetched.None? ==> client.State() == loaded
      ensures fetched.Some? ==>
        var call := Http.Call(loaded, client.maxRetries, client.retryDelay, fetchedAt, fetchedAt, postReplies);
        && client.State() == call.breaker
        && fetched.value == (if call.result.Ok? then Ok(call.result.value) else Err(describe(call.result.error)))
      ensures fetched.Some? && fetched.value.Ok? ==> client.State() == Http.Breaker(0, None)
    {
      fetched := None;
      var found := GetPostByTitle(title, now, fetchedAt, replies);
      loaded := client.State();
      if found.Err? {
        return Err(found.error), None, loaded;
      }
      if found.value.None? {
        return Ok(None), None, loaded;
      }
      var text;
      text, fetched := ReadPost(found.value.value, fetchedAt, postReplies, describe);
      r := Ok(Some(text));
    }
  }
}
