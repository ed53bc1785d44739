/**
 * The scraping core of CryptoPanicScraper: the cache file name, the Cloudflare
 * challenge gate, the load loop and per-article pass of `collect_data`, and the merge
 * of new records into the cache. Browser observations are inputs: the marker seen at
 * each challenge check, the article elements listed at each load iteration, and for
 * each element the outcomes of its field queries.
 */
module Scraper {
  import opened Wrappers
  import PyStr
  import Fields
  import Seqs

  /** A record as `collect_data` builds it (the nine keys of `article_data`, plus the description added later). */
  datatype ScrapedArticle = ScrapedArticle(
    date: string,
    title: string,
    currencies: seq<string>,
    votes: map<string, int>,
    source: string,
    sourceType: string,
    url: string,
    sentiment: string,
    confidence: int,
    descriptionBody: Option<string>)

  /** What the sentiment analyser returns for a title: a label and a confidence. */
  datatype Sentiment = Sentiment(rating: string, confidence: int)

  /** The observable behaviour of one `div.news-row` element under the queries `collect_data` makes. */
  datatype ArticleElement = ArticleElement(
    titleProbes: nat -> Fields.Probe,
    hrefProbes: nat -> Fields.Probe,
    timeProbes: nat -> Fields.Probe,
    sourceProbes: nat -> Fields.Probe,
    twitterIcon: Fields.Query,
    youtubeIcon: Fields.Query,
    currencyLinks: Fields.Listing<Fields.Read>,
    voteTitles: Fields.Listing<Fields.Probe>)

  type Cache = map<string, ScrapedArticle>

  // ---------------------------------------------------------------------------------
  // The cache file name built in __init__

  const CachePrefix := "cryptopanic"
  const CacheSuffix := "_cache.json"

  /** `"_" + value` when the setting is truthy, nothing otherwise. */
  function NamePart(setting: Option<string>): (r: string)
    ensures PyStr.Truthy(setting) ==> r == "_" + setting.value
    ensures !PyStr.Truthy(setting) ==> r == ""
  {
    if PyStr.Truthy(setting) then "_" + setting.value else ""
  }

  /**
   * A name part is empty or starts with `_`, and it determines the setting up to
   * truthiness: two truthy settings with the same part are the same string.
   */
  lemma NamePartInjective(s1: Option<string>, s2: Option<string>)
    ensures NamePart(s1) == "" || NamePart(s1)[0] == '_'
    ensures NamePart(s1) == "" <==> !PyStr.Truthy(s1)
    ensures NamePart(s1) == NamePart(s2) ==> PyStr.Truthy(s1) == PyStr.Truthy(s2)
    ensures NamePart(s1) == NamePart(s2) && PyStr.Truthy(s1) ==> s1.value == s2.value
  {
    if NamePart(s1) == NamePart(s2) && PyStr.Truthy(s1) {
      assert s1.value == NamePart(s1)[1..] && s2.value == NamePart(s2)[1..];
    }
  }

  /** "cryptopanic", then `_<filter>` and `_<topic>` for the truthy ones, then "_cache.json". */
  function CacheFileName(filter: Option<string>, topic: Option<string>): (r: string)
    ensures |r| >= |CachePrefix| + |CacheSuffix|
    ensures r[..|CachePrefix|] == CachePrefix && r[|r| - |CacheSuffix|..] == CacheSuffix
    ensures r[|CachePrefix|..|r| - |CacheSuffix|] == NamePart(filter) + NamePart(topic)
    ensures !PyStr.Truthy(filter) && !PyStr.Truthy(topic) ==> r == "cryptopanic_cache.json"
  {
    var mid := NamePart(filter) + NamePart(topic);
    var r := CachePrefix + mid + CacheSuffix;
    assert r[|CachePrefix|..|r| - |CacheSuffix|] == mid;
    assert mid == "" ==> r == CachePrefix + CacheSuffix;
    DefaultFileName();
    r
  }

  /** The two fixed pieces of the name, joined. */
  lemma DefaultFileName()
    ensures CachePrefix + CacheSuffix == "cryptopanic_cache.json"
  {
  }

  /** Without a topic, the file name determines the filter: distinct filters never share a cache file. */
  lemma CacheFileNameDeterminesFilter(f1: Option<string>, f2: Option<string>)
    requires CacheFileName(f1, None) == CacheFileName(f2, None)
    ensures PyStr.Truthy(f1) == PyStr.Truthy(f2)
    ensures PyStr.Truthy(f1) ==> f1.value == f2.value
  {
    var n := CacheFileName(f1, None);
    assert NamePart(f1) + NamePart(None) == NamePart(f2) + NamePart(None);
    assert NamePart(f1) + NamePart(None) == NamePart(f1) && NamePart(f2) + NamePart(None) == NamePart(f2);
    if PyStr.Truthy(f1) && PyStr.Truthy(f2) {
      assert f1.value == NamePart(f1)[1..];
    }
  }

  /** With both settings in play the name is ambiguous: filter "a_b" alone and filter "a" with topic "b" share a file. */
  lemma CacheFileNameCollision()
    ensures CacheFileName(Some("a_b"), None) == CacheFileName(Some("a"), Some("b"))
  {
    assert NamePart(Some("a_b")) + NamePart(None) == NamePart(Some("a")) + NamePart(Some("b"));
  }

  /** `os.path.join(directory, name)` for two POSIX path components. */
  function JoinPath(directory: string, name: string): (r: string)
    ensures |r| >= |name| && r[|r| - |name|..] == name
    ensures name != [] && name[0] == '/' ==> r == name
    ensures !(name != [] && name[0] == '/') ==>
              |r| >= |directory| + |name| && r[..|directory|] == directory &&
              r[|directory|..|r| - |name|] == (if directory == "" || directory[|directory| - 1] == '/' then "" else "/")
  {
    if name != [] && name[0] == '/' then name
    else if directory == "" || directory[|directory| - 1] == '/' then directory + name
    else directory + "/" + name
  }

  /** The default `save_path`. */
  const DefaultSavePath := "news_data"

  /** With the default `save_path`, the cache file is `news_data/<file name>`. */
  lemma DefaultCachePath(filter: Option<string>, topic: Option<string>)
    ensures JoinPath(DefaultSavePath, CacheFileName(filter, topic)) == "news_data/" + CacheFileName(filter, topic)
  {
    var name := CacheFileName(filter, topic);
    assert name[0] == name[..|CachePrefix|][0] == 'c';
    assert JoinPath(DefaultSavePath, name) == DefaultSavePath + "/" + name;
    assert DefaultSavePath + "/" == "news_data/";
  }

  // ---------------------------------------------------------------------------------
  // cloudflare_bypass

  const MaxChallengeAttempts := 5

  datatype GateOutcome = Cleared | ChallengeFailed

  /**
   * The challenge gate: while the "Ray ID" marker is on the page, count a solve attempt
   * (`verify_cf`); give up with an exception after the fifth. `markerSeen(k)` is what the
   * k-th check of the marker finds; `checks` counts the checks, `solves` the attempts.
   */
  method CloudflareBypass(markerSeen: nat -> bool) returns (outcome: GateOutcome, checks: nat, solves: nat)
    ensures solves <= MaxChallengeAttempts
    ensures forall j :: 0 <= j < solves ==> markerSeen(j)
    ensures outcome == Cleared <==> exists k :: 0 <= k < MaxChallengeAttempts && !markerSeen(k)
    ensures outcome == Cleared ==> checks == solves + 1 && !markerSeen(solves)
    ensures outcome == ChallengeFailed ==> checks == solves == MaxChallengeAttempts
  {
    var counter: nat := 0;
    checks := 1;
    while markerSeen(checks - 1)
      invariant checks == counter + 1 && counter < MaxChallengeAttempts
      invariant forall j :: 0 <= j < counter ==> markerSeen(j)
      decreases MaxChallengeAttempts - counter
    {
      counter := counter + 1;
      if counter >= MaxChallengeAttempts {
        return ChallengeFailed, checks, counter;
      }
      checks := checks + 1;
    }
    outcome, solves := Cleared, counter;
  }

  // ---------------------------------------------------------------------------------
  // collect_data: the load loop

  /** What the load loop leaves behind: the last listing, the iterations run and the `retries` counter. */
  datatype LoadOutcome = LoadOutcome(articles: seq<ArticleElement>, iterations: nat, retries: nat)

  /**
   * The load loop from the state (`retries`, last listing): it runs while fewer than
   * `limit` elements are loaded and `retries < max_retries`; iteration `retries` lists
   * `pages(retries)` and leaves at once when that reaches `limit`.
   */
  function LoadLoop(pages: nat -> seq<ArticleElement>, limit: int, maxRetries: int,
                    retries: nat, articles: seq<ArticleElement>): LoadOutcome
    decreases maxRetries - retries
  {
    if !(|articles| < limit && retries < maxRetries) then LoadOutcome(articles, retries, retries)
    else if |pages(retries)| >= limit then LoadOutcome(pages(retries), retries + 1, retries)
    else LoadLoop(pages, limit, maxRetries, retries + 1, pages(retries))
  }

  /** The loop started as the source starts it: nothing loaded, no retries. */
  function LoadResult(pages: nat -> seq<ArticleElement>, limit: int, maxRetries: int): LoadOutcome {
    LoadLoop(pages, limit, maxRetries, 0, [])
  }

  /** With `limit <= 0` or `max_retries <= 0` the loop does not run and nothing is loaded. */
  lemma LoadNothing(pages: nat -> seq<ArticleElement>, limit: int, maxRetries: int)
    requires limit <= 0 || maxRetries <= 0
    ensures LoadResult(pages, limit, maxRetries) == LoadOutcome([], 0, 0)
  {
  }

  lemma {:induction false} LoadLoopReaches(pages: nat -> seq<ArticleElement>, limit: int, maxRetries: int,
                                           i: nat, articles: seq<ArticleElement>, k: nat)
    requires i <= k < maxRetries && |articles| < limit
    requires forall j :: i <= j < k ==> |pages(j)| < limit
    ensures |pages(k)| >= limit ==> LoadLoop(pages, limit, maxRetries, i, articles) == LoadOutcome(pages(k), k + 1, k)
    ensures |pages(k)| < limit && k + 1 == maxRetries ==>
              LoadLoop(pages, limit, maxRetries, i, articles) == LoadOutcome(pages(k), k + 1, k + 1)
    decreases k - i
  {
    if i < k {
      LoadLoopReaches(pages, limit, maxRetries, i + 1, pages(i), k);
    }
  }

  /**
   * The loop leaves at the first iteration `k` (within `max_retries`) whose listing
   * reaches `limit`, keeping that listing; `retries` counts the `k` short iterations before it.
   */
  lemma LoadStopsAtLimit(pages: nat -> seq<ArticleElement>, limit: int, maxRetries: int, k: nat)
    requires 0 < limit && k < maxRetries && |pages(k)| >= limit
    requires forall j :: 0 <= j < k ==> |pages(j)| < limit
    ensures LoadResult(pages, limit, maxRetries) == LoadOutcome(pages(k), k + 1, k)
  {
    LoadLoopReaches(pages, limit, maxRetries, 0, [], k);
  }

  /**
   * When no listing reaches `limit`, all `max_retries` iterations run, each one counts
   * as a retry whether or not the count grew, and the last listing is kept.
   */
  lemma LoadExhausted(pages: nat -> seq<ArticleElement>, limit: int, maxRetries: int)
    requires 0 < limit && 0 < maxRetries
    requires forall j :: 0 <= j < maxRetries ==> |pages(j)| < limit
    ensures LoadResult(pages, limit, maxRetries) == LoadOutcome(pages(maxRetries - 1), maxRetries, maxRetries)
  {
    LoadLoopReaches(pages, limit, maxRetries, 0, [], maxRetries - 1);
  }

  /** The load loop of `collect_data`. */
  method LoadArticles(pages: nat -> seq<ArticleElement>, limit: int, maxRetries: int)
    returns (articles: seq<ArticleElement>, iterations: nat, retries: nat)
    ensures LoadOutcome(articles, iterations, retries) == LoadResult(pages, limit, maxRetries)
    ensures iterations <= Fields.Max0(maxRetries)
  {
    retries := 0;
    iterations := 0;
    articles := [];
    var loaded := 0;
    while loaded < limit && retries < maxRetries
      invariant loaded == |articles| && iterations == retries <= Fields.Max0(maxRetries)
      invariant LoadLoop(pages, limit, maxRetries, retries, articles) == LoadResult(pages, limit, maxRetries)
      decreases maxRetries - retries
    {
      articles := pages(retries);
      loaded := |articles|;
      iterations := iterations + 1;
      if loaded >= limit {
        break;
      }
      retries := retries + 1;
    }
  }

  // ---------------------------------------------------------------------------------
  // collect_data: the per-article pass

  /** Python's `s[:n]`. */
  function Take<T>(s: seq<T>, n: int): (r: seq<T>)
    ensures |r| <= |s| && r == s[..|r|]
    ensures 0 <= n ==> |r| == if n < |s| then n else |s|
    ensures n < 0 ==> |r| == if |s| + n < 0 then 0 else |s| + n
  {
    if n >= 0 then (if n < |s| then s[..n] else s)
    else s[..if |s| + n < 0 then 0 else |s| + n]
  }

  const UntitledTitle := "Untitled"
  const MissingValue := "N/A"
  const UnknownSource := "Unknown"

  /** The title, as `retry_fetch_text` reads it with default "Untitled". */
  function TitleOf(e: ArticleElement, maxRetries: int): string {
    Fields.Fetch(e.titleProbes, maxRetries, UntitledTitle)
  }

  /** The URL, as `retry_fetch_attribute` reads `href` with default "N/A". */
  function UrlOf(e: ArticleElement, maxRetries: int): string {
    Fields.Fetch(e.hrefProbes, maxRetries, MissingValue)
  }

  /**
   * One iteration of the per-article loop: skipped (`None`) when the title comes back as
   * "Untitled" or the URL is already cached, else the record of the element's fields.
   */
  function ExtractOne(e: ArticleElement, cache: Cache, maxRetries: int, analyze: string -> Sentiment)
    : (r: Option<ScrapedArticle>)
    ensures r.None? <==> TitleOf(e, maxRetries) == UntitledTitle || UrlOf(e, maxRetries) in cache
    ensures r.Some? ==> r.value.title == TitleOf(e, maxRetries) && r.value.url == UrlOf(e, maxRetries)
    ensures r.Some? ==> r.value.currencies != [] && r.value.descriptionBody.None?
  {
    var title := TitleOf(e, maxRetries);
    if title == UntitledTitle then None
    else
      var url := UrlOf(e, maxRetries);
      if url in cache then None
      else
        var s := analyze(title);
        Some(ScrapedArticle(
          Fields.Fetch(e.timeProbes, maxRetries, MissingValue),
          title,
          Fields.Currencies(e.currencyLinks),
          Fields.Votes(e.voteTitles),
          Fields.Fetch(e.sourceProbes, maxRetries, UnknownSource),
          Fields.SourceTypeOf(e.twitterIcon, e.youtubeIcon),
          url,
          s.rating,
          s.confidence,
          None))
  }

  /** The body of the per-article loop, with the field extractors run as the source runs them. */
  method ExtractArticle(e: ArticleElement, cache: Cache, maxRetries: int, analyze: string -> Sentiment)
    returns (r: Option<ScrapedArticle>)
    ensures r == ExtractOne(e, cache, maxRetries, analyze)
  {
    var title, _ := Fields.RetryFetch(e.titleProbes, maxRetries, UntitledTitle);
    if title == UntitledTitle {
      return None;
    }
    var url, _ := Fields.RetryFetch(e.hrefProbes, maxRetries, MissingValue);
    if url in cache {
      return None;
    }
    var date, _ := Fields.RetryFetch(e.timeProbes, maxRetries, MissingValue);
    var source, _ := Fields.RetryFetch(e.sourceProbes, maxRetries, UnknownSource);
    var sourceType := Fields.SourceTypeOf(e.twitterIcon, e.youtubeIcon);
    var currencies := Fields.Currencies(e.currencyLinks);
    var votes := Fields.GetVotes(e.voteTitles);
    var s := analyze(title);
    r := Some(ScrapedArticle(date, title, currencies, votes, source, sourceType, url, s.rating, s.confidence, None));
  }

  /** The records the per-article loop appends for a batch of elements, in element order. */
  function Harvest(elements: seq<ArticleElement>, cache: Cache, maxRetries: int, analyze: string -> Sentiment)
    : (r: seq<ScrapedArticle>)
    ensures |r| <= |elements|
  {
    if elements == [] then []
    else Harvest(elements[..|elements| - 1], cache, maxRetries, analyze)
         + Kept(elements[|elements| - 1], cache, maxRetries, analyze)
  }

  /** What one element adds to `self.data`: its record, or nothing when it is skipped. */
  function Kept(e: ArticleElement, cache: Cache, maxRetries: int, analyze: string -> Sentiment)
    : (r: seq<ScrapedArticle>)
    ensures |r| <= 1
  {
    match ExtractOne(e, cache, maxRetries, analyze)
    case None => []
    case Some(a) => [a]
  }

  /** The pass treats elements independently: harvesting a concatenation concatenates the harvests. */
  lemma {:induction false} HarvestAppend(a: seq<ArticleElement>, b: seq<ArticleElement>, cache: Cache,
                                         maxRetries: int, analyze: string -> Sentiment)
    ensures Harvest(a + b, cache, maxRetries, analyze)
            == Harvest(a, cache, maxRetries, analyze) + Harvest(b, cache, maxRetries, analyze)
    decreases |b|
  {
    if b == [] {
      assert a + b == a;
    } else {
      var s := a + b;
      var bInit := b[..|b| - 1];
      assert s[..|s| - 1] == a + bInit;
      assert s[|s| - 1] == b[|b| - 1];
      HarvestSnoc(s, cache, maxRetries, analyze);
      HarvestSnoc(b, cache, maxRetries, analyze);
      HarvestAppend(a, bInit, cache, maxRetries, analyze);
      Seqs.ConcatAssoc(Harvest(a, cache, maxRetries, analyze), Harvest(bInit, cache, maxRetries, analyze),
                  Kept(b[|b| - 1], cache, maxRetries, analyze));
    }
  }

  /** Unfolding `Harvest` once at the last element. */
  lemma HarvestSnoc(s: seq<ArticleElement>, cache: Cache, maxRetries: int, analyze: string -> Sentiment)
    requires s != []
    ensures Harvest(s, cache, maxRetries, analyze)
            == Harvest(s[..|s| - 1], cache, maxRetries, analyze) + Kept(s[|s| - 1], cache, maxRetries, analyze)
  {
  }

  /** The pass over one more element of a batch appends what that element yields. */
  lemma HarvestPrefixStep(batch: seq<ArticleElement>, i: nat, cache: Cache, maxRetries: int,
                          analyze: string -> Sentiment, r: Option<ScrapedArticle>)
    requires i < |batch| && r == ExtractOne(batch[i], cache, maxRetries, analyze)
    ensures Harvest(batch[..i + 1], cache, maxRetries, analyze)
            == Harvest(batch[..i], cache, maxRetries, analyze) + (if r.Some? then [r.value] else [])
  {
    Seqs.PrefixOfPrefix(batch, i);
    HarvestSnoc(batch[..i + 1], cache, maxRetries, analyze);
  }

  /** Every element that passes both checks contributes its record. */
  lemma {:induction false} HarvestComplete(elements: seq<ArticleElement>, cache: Cache, maxRetries: int,
                                           analyze: string -> Sentiment, i: nat)
    requires i < |elements| && ExtractOne(elements[i], cache, maxRetries, analyze).Some?
    ensures ExtractOne(elements[i], cache, maxRetries, analyze).value in Harvest(elements, cache, maxRetries, analyze)
    decreases |elements|
  {
    var init := elements[..|elements| - 1];
    if i < |elements| - 1 {
      assert init[i] == elements[i];
      HarvestComplete(init, cache, maxRetries, analyze, i);
    }
  }

  /** Every record comes from some element of the batch. */
  lemma {:induction false} HarvestSound(elements: seq<ArticleElement>, cache: Cache, maxRetries: int,
                                        analyze: string -> Sentiment, k: nat)
    requires k < |Harvest(elements, cache, maxRetries, analyze)|
    ensures exists i :: 0 <= i < |elements| &&
              ExtractOne(elements[i], cache, maxRetries, analyze) == Some(Harvest(elements, cache, maxRetries, analyze)[k])
    decreases |elements|
  {
    var init := elements[..|elements| - 1];
    var h := Harvest(init, cache, maxRetries, analyze);
    if k < |h| {
      HarvestSound(init, cache, maxRetries, analyze, k);
      var i :| 0 <= i < |init| && ExtractOne(init[i], cache, maxRetries, analyze) == Some(h[k]);
      assert elements[i] == init[i];
    } else {
      assert ExtractOne(elements[|elements| - 1], cache, maxRetries, analyze)
             == Some(Harvest(elements, cache, maxRetries, analyze)[k]);
    }
  }

  /** No record of the pass is titled "Untitled" or has a URL already in the cache. */
  lemma HarvestFiltered(elements: seq<ArticleElement>, cache: Cache, maxRetries: int, analyze: string -> Sentiment)
    ensures forall a :: a in Harvest(elements, cache, maxRetries, analyze) ==> a.title != UntitledTitle && a.url !in cache
  {
    var h := Harvest(elements, cache, maxRetries, analyze);
    forall a | a in h ensures a.title != UntitledTitle && a.url !in cache {
      var k :| 0 <= k < |h| && h[k] == a;
      HarvestSound(elements, cache, maxRetries, analyze, k);
    }
  }

  /** Nothing in the pass looks at records already appended: an element listed twice is recorded twice. */
  lemma DuplicatesNotFiltered(e: ArticleElement, cache: Cache, maxRetries: int, analyze: string -> Sentiment)
    requires ExtractOne(e, cache, maxRetries, analyze).Some?
    ensures var a := ExtractOne(e, cache, maxRetries, analyze).value;
            Harvest([e, e], cache, maxRetries, analyze) == [a, a]
  {
    assert [e, e][..1] == [e] && [e][..0] == [];
  }

  /** A batch in which every element is skipped yields nothing. */
  lemma {:induction false} HarvestNone(elements: seq<ArticleElement>, cache: Cache, maxRetries: int,
                                       analyze: string -> Sentiment)
    requires forall i :: 0 <= i < |elements| ==> ExtractOne(elements[i], cache, maxRetries, analyze).None?
    ensures Harvest(elements, cache, maxRetries, analyze) == []
    decreases |elements|
  {
    if elements != [] {
      var init := elements[..|elements| - 1];
      assert forall i :: 0 <= i < |init| ==> init[i] == elements[i];
      HarvestNone(init, cache, maxRetries, analyze);
    }
  }

  /**
   * The records `collect_data` appends: nothing when the final listing is empty (this
   * includes a loop that never ran), otherwise the pass over its first `limit` elements.
   */
  function Collected(pages: nat -> seq<ArticleElement>, cache: Cache, limit: int, maxRetries: int,
                     analyze: string -> Sentiment): seq<ScrapedArticle>
  {
    var articles := LoadResult(pages, limit, maxRetries).articles;
    if |articles| == 0 then []
    else Harvest(Take(articles, limit), cache, maxRetries, analyze)
  }

  /**
   * What one `collect_data` contributes: nothing when `limit` or `max_retries` is not
   * positive; otherwise at most `limit` records, none titled "Untitled" and none with
   * a URL already in the cache.
   */
  lemma CollectedBounds(pages: nat -> seq<ArticleElement>, cache: Cache, limit: int, maxRetries: int,
                        analyze: string -> Sentiment)
    ensures limit <= 0 || maxRetries <= 0 ==> Collected(pages, cache, limit, maxRetries, analyze) == []
    ensures |Collected(pages, cache, limit, maxRetries, analyze)| <= Fields.Max0(limit)
    ensures forall a :: a in Collected(pages, cache, limit, maxRetries, analyze) ==>
              a.title != UntitledTitle && a.url !in cache
  {
    if limit <= 0 || maxRetries <= 0 {
      LoadNothing(pages, limit, maxRetries);
    }
    var articles := LoadResult(pages, limit, maxRetries).articles;
    if |articles| != 0 {
      HarvestFiltered(Take(articles, limit), cache, maxRetries, analyze);
    }
  }

  // ---------------------------------------------------------------------------------
  // merge_data

  function Urls(arts: seq<ScrapedArticle>): set<string> {
    set i | 0 <= i < |arts| :: arts[i].url
  }

  /**
   * `cached_data[article['URL']] = article` for each new record in order: the keys are
   * the old ones plus the new URLs, a URL occurring several times maps to its last
   * record, and every other key keeps its old record.
   */
  function MergeInto(cache: Cache, arts: seq<ScrapedArticle>): (r: Cache)
    ensures r.Keys == cache.Keys + Urls(arts)
  {
    if arts == [] then cache
    else
      var init := arts[..|arts| - 1];
      var last := arts[|arts| - 1];
      assert Urls(arts) == Urls(init) + {last.url} by {
        assert forall i :: 0 <= i < |init| ==> init[i] == arts[i];
      }
      MergeInto(cache, init)[last.url := last]
  }

  /** A URL occurring several times maps to its last record. */
  lemma {:induction false} MergeLastWins(cache: Cache, arts: seq<ScrapedArticle>, i: nat)
    requires i < |arts| && forall j :: i < j < |arts| ==> arts[j].url != arts[i].url
    ensures arts[i].url in MergeInto(cache, arts) && MergeInto(cache, arts)[arts[i].url] == arts[i]
    decreases |arts|
  {
    var init := arts[..|arts| - 1];
    if i < |arts| - 1 {
      assert init[i] == arts[i];
      MergeLastWins(cache, init, i);
    }
  }

  /** A key no new record has keeps its old record. */
  lemma {:induction false} MergeKeepsOthers(cache: Cache, arts: seq<ScrapedArticle>, k: string)
    requires k in cache && k !in Urls(arts)
    ensures MergeInto(cache, arts)[k] == cache[k]
    decreases |arts|
  {
    if arts != [] {
      var init := arts[..|arts| - 1];
      assert Urls(arts) == Urls(init) + {arts[|arts| - 1].url} by {
        assert forall i :: 0 <= i < |init| ==> init[i] == arts[i];
      }
      MergeKeepsOthers(cache, init, k);
    }
  }

  /** After merging a pass's records, the same elements yield nothing new: every kept URL is now cached. */
  lemma HarvestAfterMerge(elements: seq<ArticleElement>, cache: Cache, maxRetries: int, analyze: string -> Sentiment)
    ensures var added := Harvest(elements, cache, maxRetries, analyze);
            Harvest(elements, MergeInto(cache, added), maxRetries, analyze) == []
  {
    var added := Harvest(elements, cache, maxRetries, analyze);
    var merged := MergeInto(cache, added);
    forall i | 0 <= i < |elements| ensures ExtractOne(elements[i], merged, maxRetries, analyze).None? {
      var e := elements[i];
      if TitleOf(e, maxRetries) != UntitledTitle && UrlOf(e, maxRetries) !in cache {
        HarvestComplete(elements, cache, maxRetries, analyze, i);
        var a := ExtractOne(e, cache, maxRetries, analyze).value;
        var k :| 0 <= k < |added| && added[k] == a;
        assert UrlOf(e, maxRetries) in Urls(added);
      }
    }
    HarvestNone(elements, merged, maxRetries, analyze);
  }

  // ---------------------------------------------------------------------------------
  // The scraper object

  class CryptoPanicScraper {
    const filter: Option<string>
    const limit: int
    const topic: Option<string>
    const savePath: string
    const apiKey: Option<string>
    const maxRetries: int
    const fileName: string
    const filePath: string
    var data: seq<ScrapedArticle>
    var cachedData: Cache

    /** `__init__`; `cache` stands for what `load_cached_data` reads from `file_path`. */
    constructor(filter: Option<string>, limit: int, topic: Option<string>, savePath: string,
                apiKey: Option<string>, maxRetries: int, cache: Cache)
      ensures this.filter == filter && this.limit == limit && this.topic == topic
      ensures this.savePath == savePath && this.apiKey == apiKey && this.maxRetries == maxRetries
      ensures fileName == CacheFileName(filter, topic) && filePath == JoinPath(savePath, fileName)
      ensures data == [] && cachedData == cache
    {
      this.filter := filter;
      this.limit := limit;
      this.topic := topic;
      this.savePath := savePath;
      this.apiKey := apiKey;
      this.maxRetries := maxRetries;
      var name := CacheFileName(filter, topic);
      fileName := name;
      filePath := JoinPath(savePath, name);
      data := [];
      cachedData := cache;
    }

    /**
     * `collect_data`: run the load loop, then append a record for each of the first
     * `limit` listed elements that is titled and not yet cached. The cache is only read.
     */
    method CollectData(pages: nat -> seq<ArticleElement>, analyze: string -> Sentiment)
      modifies this
      ensures data == old(data) + Collected(pages, old(cachedData), limit, maxRetries, analyze)
      ensures cachedData == old(cachedData)
    {
      var articles, iterations, retries := LoadArticles(pages, limit, maxRetries);
      ghost var expected := Collected(pages, cachedData, limit, maxRetries, analyze);
      assert articles == LoadResult(pages, limit, maxRetries).articles;
      if |articles| == 0 {
        assert expected == [];
        return;
      }
      var batch := Take(articles, limit);
      assert expected == Harvest(batch, cachedData, maxRetries, analyze);
      AppendRecords(batch, analyze);
    }

    /** The per-article loop of `collect_data` over the first `limit` listed elements. */
    method AppendRecords(batch: seq<ArticleElement>, analyze: string -> Sentiment)
      modifies this
      ensures data == old(data) + Harvest(batch, old(cachedData), maxRetries, analyze)
      ensures cachedData == old(cachedData)
    {
      var i := 0;
      while i < |batch|
        invariant 0 <= i <= |batch|
        invariant cachedData == old(cachedData)
        invariant data == old(data) + Harvest(batch[..i], cachedData, maxRetries, analyze)
      {
        var r := ExtractArticle(batch[i], cachedData, maxRetries, analyze);
        HarvestPrefixStep(batch, i, cachedData, maxRetries, analyze, r);
        if r.Some? {
          Seqs.ConcatAssoc(old(data), Harvest(batch[..i], cachedData, maxRetries, analyze), [r.value]);
          data := data + [r.value];
        }
        i := i + 1;
      }
      Seqs.PrefixFull(batch);
    }

    /** `merge_data`: store every collected record in the cache under its URL, in order. */
    method MergeData()
      modifies this
      ensures data == old(data)
      ensures cachedData == MergeInto(old(cachedData), data)
    {
      var i := 0;
      while i < |data|
        invariant 0 <= i <= |data|
        invariant data == old(data)
        invariant cachedData == MergeInto(old(cachedData), data[..i])
      {
        Seqs.PrefixOfPrefix(data, i);
        cachedData := cachedData[data[i].url := data[i]];
        i := i + 1;
      }
      Seqs.PrefixFull(data);
    }
  }
}
