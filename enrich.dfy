/**
 * Description enrichment: the reader-service request of `fetch_description_body_jina`
 * (its URL and headers), the selection of records that still need a description in
 * `async_update_descriptions`, and the per-attempt retry decisions of
 * `async_fetch_description_body`, driven by the observed outcome of each page load.
 */
module Enrich {
  import opened Wrappers
  import PyStr
  import Fields
  import Scraper
  import Seqs

  // ---------------------------------------------------------------------------------
  // fetch_description_body_jina: URL and headers

  const ReaderPrefix := "https://r.jina.ai/https://cryptopanic.com"

  /** The reader-service URL for a site-relative article URL. */
  function ReaderUrl(url: string): (r: string)
    ensures |r| == |ReaderPrefix| + |url|
    ensures r[..|ReaderPrefix|] == ReaderPrefix && r[|ReaderPrefix|..] == url
  {
    ReaderPrefix + url
  }

  /** Distinct article URLs are requested at distinct reader URLs. */
  lemma ReaderUrlInjective(u1: string, u2: string)
    requires ReaderUrl(u1) == ReaderUrl(u2)
    ensures u1 == u2
  {
    assert u1 == ReaderUrl(u1)[|ReaderPrefix|..];
  }

  const AuthorizationHeader := "Authorization"

  /**
   * The request headers: JSON accepted, the direct engine, text returned, and a bearer
   * token exactly when an API key is set (truthy).
   */
  function ReaderHeaders(apiKey: Option<string>): (h: map<string, string>)
    ensures "Accept" in h && h["Accept"] == "application/json"
    ensures "X-Engine" in h && h["X-Engine"] == "direct"
    ensures "X-Return-Format" in h && h["X-Return-Format"] == "text"
    ensures AuthorizationHeader in h <==> PyStr.Truthy(apiKey)
    ensures AuthorizationHeader in h ==> h[AuthorizationHeader] == "Bearer " + apiKey.value
    ensures |h.Keys| == if PyStr.Truthy(apiKey) then 4 else 3
  {
    var base := map["Accept" := "application/json", "X-Engine" := "direct", "X-Return-Format" := "text"];
    assert base.Keys == {"Accept", "X-Engine", "X-Return-Format"};
    if PyStr.Truthy(apiKey) then base[AuthorizationHeader := "Bearer " + apiKey.value] else base
  }

  // ---------------------------------------------------------------------------------
  // async_update_descriptions: which records are fetched

  /** No description yet (key absent or falsy), and not a Twitter or YouTube post. */
  predicate NeedsDescription(a: Scraper.ScrapedArticle) {
    && (a.descriptionBody.None? || a.descriptionBody.value == "")
    && a.sourceType != "twitter" && a.sourceType != "youtube"
  }

  /** The list comprehension selecting `articles_to_update`, in the records' order. */
  function ArticlesToUpdate(data: seq<Scraper.ScrapedArticle>): (r: seq<Scraper.ScrapedArticle>)
    ensures |r| <= |data|
  {
    if data == [] then []
    else
      var last := data[|data| - 1];
      ArticlesToUpdate(data[..|data| - 1]) + (if NeedsDescription(last) then [last] else [])
  }

  /** Every selected record is one of the input records and needs a description. */
  lemma {:induction false} ArticlesToUpdateSound(data: seq<Scraper.ScrapedArticle>)
    ensures forall a :: a in ArticlesToUpdate(data) ==> a in data && NeedsDescription(a)
    decreases |data|
  {
    if data != [] {
      var init := data[..|data| - 1];
      ArticlesToUpdateSound(init);
      assert forall a :: a in init ==> a in data;
    }
  }

  /** Every input record that needs a description is selected. */
  lemma {:induction false} ArticlesToUpdateComplete(data: seq<Scraper.ScrapedArticle>)
    ensures forall i :: 0 <= i < |data| && NeedsDescription(data[i]) ==> data[i] in ArticlesToUpdate(data)
    decreases |data|
  {
    if data != [] {
      var init := data[..|data| - 1];
      ArticlesToUpdateComplete(init);
      assert forall i :: 0 <= i < |init| ==> init[i] == data[i];
    }
  }

  /** A list of records that all need a description is selected whole. */
  lemma {:induction false} ArticlesToUpdateAll(data: seq<Scraper.ScrapedArticle>)
    requires forall i :: 0 <= i < |data| ==> NeedsDescription(data[i])
    ensures ArticlesToUpdate(data) == data
    decreases |data|
  {
    if data != [] {
      var init := data[..|data| - 1];
      assert forall i :: 0 <= i < |init| ==> NeedsDescription(init[i]);
      ArticlesToUpdateAll(init);
      Seqs.SnocLast(data);
    }
  }

  /** The selection of a concatenation is the concatenation of the selections: order and repeats are kept. */
  lemma {:induction false} ArticlesToUpdateAppend(a: seq<Scraper.ScrapedArticle>, b: seq<Scraper.ScrapedArticle>)
    ensures ArticlesToUpdate(a + b) == ArticlesToUpdate(a) + ArticlesToUpdate(b)
    decreases |b|
  {
    if b == [] {
      assert a + b == a;
    } else {
      var init := b[..|b| - 1];
      var last := b[|b| - 1];
      ArticlesToUpdateAppend(a, init);
      var ab := a + b;
      assert ab[..|ab| - 1] == a + init && ab[|ab| - 1] == last;
      Seqs.ConcatAssoc(ArticlesToUpdate(a), ArticlesToUpdate(init), if NeedsDescription(last) then [last] else []);
    }
  }

  /** A record that needs no description is dropped. */
  lemma ArticlesToUpdateSkips(x: Scraper.ScrapedArticle)
    requires !NeedsDescription(x)
    ensures ArticlesToUpdate([x]) == []
  {
    assert [x][..0] == [];
  }

  /** Selecting again changes nothing. */
  lemma ArticlesToUpdateIdempotent(data: seq<Scraper.ScrapedArticle>)
    ensures ArticlesToUpdate(ArticlesToUpdate(data)) == ArticlesToUpdate(data)
  {
    var r := ArticlesToUpdate(data);
    ArticlesToUpdateSound(data);
    assert forall i :: 0 <= i < |r| ==> r[i] in r;
    ArticlesToUpdateAll(r);
  }

  /** A record given a non-empty description is no longer selected. */
  lemma DescribedNotSelected(a: Scraper.ScrapedArticle, body: string)
    requires body != ""
    ensures !NeedsDescription(a.(descriptionBody := Some(body)))
  {
  }

  // ---------------------------------------------------------------------------------
  // async_fetch_description_body: the retry loop

  /** What one `page.goto` attempt observes. */
  datatype PageOutcome =
    | RateLimited                 // status 429
    | BadGateway                  // status 502
    | Maintenance                 // the maintenance text or table-flip banner is visible
    | Failed(message: string)     // an exception (navigation, selector timeout, ...)
    | Loaded(content: string)     // the text of `div.description-body`

  const DefaultDescriptionRetries := 5

  const FetchErrorPrefix := "Error fetching content: "

  const ExhaustedPrefix := "Error: Failed after "
  const ExhaustedSuffix := " retries"

  /** The message returned when every attempt was retried. */
  function ExhaustedMessage(maxRetries: int): string {
    ExhaustedPrefix + PyStr.IntToString(maxRetries) + ExhaustedSuffix
  }

  /** The number in the exhaustion message reads back as `max_retries`. */
  lemma ExhaustedMessageCount(maxRetries: int)
    ensures var m := ExhaustedMessage(maxRetries);
            |ExhaustedPrefix| + |ExhaustedSuffix| < |m| &&
            m[..|ExhaustedPrefix|] == ExhaustedPrefix && m[|m| - |ExhaustedSuffix|..] == ExhaustedSuffix &&
            PyStr.ParseInt(m[|ExhaustedPrefix|..|m| - |ExhaustedSuffix|]) == Some(maxRetries)
  {
    var n := PyStr.IntToString(maxRetries);
    var m := ExhaustedMessage(maxRetries);
    assert m[|ExhaustedPrefix|..|m| - |ExhaustedSuffix|] == n;
    PyStr.IntToStringRoundTrip(maxRetries);
  }

  /** With the default of five attempts, the exhaustion message says "5". */
  lemma DefaultExhaustedMessage()
    ensures ExhaustedMessage(DefaultDescriptionRetries) == "Error: Failed after 5 retries"
  {
    assert PyStr.IntToString(DefaultDescriptionRetries) == "5";
  }

  /**
   * The result from attempt `attempt` on: content is returned at once; 429, 502 and
   * maintenance are retried; an exception is retried except on the last attempt, where
   * its message is returned; running out of attempts gives the exhaustion message.
   */
  function DescriptionFrom(outcomes: nat -> PageOutcome, attempt: nat, maxRetries: int): string
    decreases maxRetries - attempt
  {
    if attempt >= maxRetries then ExhaustedMessage(maxRetries)
    else
      match outcomes(attempt)
      case Loaded(content) => content
      case Failed(message) =>
        if attempt < maxRetries - 1 then DescriptionFrom(outcomes, attempt + 1, maxRetries)
        else FetchErrorPrefix + message
      case _ => DescriptionFrom(outcomes, attempt + 1, maxRetries)
  }

  function Description(outcomes: nat -> PageOutcome, maxRetries: int): string {
    DescriptionFrom(outcomes, 0, maxRetries)
  }

  /** An attempt after which the loop goes on: anything but content, and an exception only before the last attempt. */
  predicate Retried(o: PageOutcome, attempt: nat, maxRetries: int) {
    !o.Loaded? && (o.Failed? ==> attempt < maxRetries - 1)
  }

  lemma {:induction false} DescriptionFromReaches(outcomes: nat -> PageOutcome, i: nat, k: nat, maxRetries: int)
    requires i <= k <= maxRetries
    requires forall j :: i <= j < k ==> Retried(outcomes(j), j, maxRetries)
    ensures DescriptionFrom(outcomes, i, maxRetries) == DescriptionFrom(outcomes, k, maxRetries)
    decreases k - i
  {
    if i < k {
      DescriptionFromReaches(outcomes, i + 1, k, maxRetries);
    }
  }

  /** The first content loaded within `max_retries` attempts is the description. */
  lemma DescriptionFirstContent(outcomes: nat -> PageOutcome, maxRetries: int, k: nat)
    requires k < maxRetries && outcomes(k).Loaded?
    requires forall j :: 0 <= j < k ==> !outcomes(j).Loaded?
    ensures Description(outcomes, maxRetries) == outcomes(k).content
  {
    DescriptionFromReaches(outcomes, 0, k, maxRetries);
  }

  /** An exception on the last attempt, with no content before it, is reported with its message. */
  lemma DescriptionLastFailure(outcomes: nat -> PageOutcome, maxRetries: int)
    requires 0 < maxRetries && outcomes(maxRetries - 1).Failed?
    requires forall j :: 0 <= j < maxRetries ==> !outcomes(j).Loaded?
    ensures Description(outcomes, maxRetries) == FetchErrorPrefix + outcomes(maxRetries - 1).message
  {
    DescriptionFromReaches(outcomes, 0, maxRetries - 1, maxRetries);
  }

  /** Without content, and with the last attempt rate-limited, a bad gateway or maintenance, the loop runs out. */
  lemma DescriptionExhausted(outcomes: nat -> PageOutcome, maxRetries: int)
    requires forall j :: 0 <= j < maxRetries ==> !outcomes(j).Loaded?
    requires 0 < maxRetries ==> !outcomes(maxRetries - 1).Failed?
    ensures Description(outcomes, maxRetries) == ExhaustedMessage(maxRetries)
  {
    if 0 < maxRetries {
      DescriptionFromReaches(outcomes, 0, maxRetries, maxRetries);
    }
  }

  /** When no attempt loads content, the returned text is an error message. */
  lemma DescriptionErrorWithoutContent(outcomes: nat -> PageOutcome, maxRetries: int)
    requires forall j :: 0 <= j < maxRetries ==> !outcomes(j).Loaded?
    ensures var d := Description(outcomes, maxRetries); |d| >= 5 && d[..5] == "Error"
  {
    if 0 < maxRetries && outcomes(maxRetries - 1).Failed? {
      DescriptionLastFailure(outcomes, maxRetries);
    } else {
      DescriptionExhausted(outcomes, maxRetries);
    }
  }

  /**
   * The attempt loop. `waits[j]` is the back-off after attempt `j`, in units of
   * `minimum_time`: it grows linearly, `j + 1`; an attempt that returns does not wait.
   */
  method FetchDescriptionBody(outcomes: nat -> PageOutcome, maxRetries: int)
    returns (body: string, attempts: nat, waits: seq<nat>)
    ensures body == Description(outcomes, maxRetries)
    ensures attempts <= Fields.Max0(maxRetries)
    ensures forall j :: 0 <= j < |waits| ==> waits[j] == j + 1 && Retried(outcomes(j), j, maxRetries)
    ensures |waits| == attempts ==> body == ExhaustedMessage(maxRetries)
    ensures |waits| != attempts ==> |waits| == attempts - 1 && !Retried(outcomes(|waits|), |waits|, maxRetries)
  {
    waits := [];
    var attempt: nat := 0;
    while attempt < maxRetries
      invariant attempt <= Fields.Max0(maxRetries) && |waits| == attempt
      invariant forall j :: 0 <= j < attempt ==> waits[j] == j + 1 && Retried(outcomes(j), j, maxRetries)
      invariant DescriptionFrom(outcomes, attempt, maxRetries) == Description(outcomes, maxRetries)
      decreases maxRetries - attempt
    {
      match outcomes(attempt) {
        case Loaded(content) =>
          return content, attempt + 1, waits;
        case Failed(message) =>
          if attempt < maxRetries - 1 {
            waits := waits + [attempt + 1];
          } else {
            return FetchErrorPrefix + message, attempt + 1, waits;
          }
        case _ =>
          waits := waits + [attempt + 1];
      }
      attempt := attempt + 1;
    }
    body, attempts := ExhaustedMessage(maxRetries), attempt;
  }
}
