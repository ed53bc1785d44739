/**
 * The `ArticleData` record of news_scraper.py: eight fields, with the shapes its
 * documentation gives them (`url` is `/news/<id>/<slug>`, `redirect_url` is
 * `/news/click/<id>/` for the same numeric id, `source_type` is one of three names,
 * `date` is an ISO datetime string).
 */
module Article {
  import opened Wrappers
  import PyStr

  datatype SourceType = Link | Twitter | Youtube

  /** The string a `source_type` field holds for each kind. */
  function SourceTypeName(t: SourceType): (s: string)
    ensures ParseSourceType(s) == Some(t)
  {
    match t
    case Link => "link"
    case Twitter => "twitter"
    case Youtube => "youtube"
  }

  /** Reads a `source_type` string; exactly the three documented names are accepted. */
  function ParseSourceType(s: string): (r: Option<SourceType>)
    ensures r.Some? <==> s == "link" || s == "twitter" || s == "youtube"
  {
    if s == "link" then Some(Link)
    else if s == "twitter" then Some(Twitter)
    else if s == "youtube" then Some(Youtube)
    else None
  }

  lemma ParseSourceTypeInverse(s: string)
    requires ParseSourceType(s).Some?
    ensures SourceTypeName(ParseSourceType(s).value) == s
  {
  }

  /** One scraped news item, the eight fields of the record type. */
  datatype ArticleData = ArticleData(
    title: string,
    url: string,
    redirectUrl: string,
    source: string,
    sourceType: SourceType,
    date: string,
    currencies: seq<string>,
    votes: map<string, int>)

  predicate IsNumericId(id: string) {
    id != [] && PyStr.AllDigits(id)
  }

  function ArticlePath(id: string, slug: string): string {
    "/news/" + id + "/" + slug
  }

  function RedirectPath(id: string): string {
    "/news/click/" + id + "/"
  }

  /** The numeric id of a `/news/<id>/<slug>` path, read from its `/`-separated pieces. */
  function ArticleId(url: string): (r: Option<string>)
    ensures r.Some? ==> IsNumericId(r.value)
  {
    var parts := PyStr.Split(url, '/');
    if |parts| == 4 && parts[0] == "" && parts[1] == "news" && IsNumericId(parts[2]) && parts[3] != ""
    then Some(parts[2])
    else None
  }

  /** The numeric id of a `/news/click/<id>/` path. */
  function RedirectId(redirect: string): (r: Option<string>)
    ensures r.Some? ==> IsNumericId(r.value)
  {
    var parts := PyStr.Split(redirect, '/');
    if |parts| == 5 && parts[0] == "" && parts[1] == "news" && parts[2] == "click"
       && IsNumericId(parts[3]) && parts[4] == ""
    then Some(parts[3])
    else None
  }

  /** Every `/news/<id>/<slug>` path (slug non-empty, without `/`) has id `<id>`. */
  lemma ArticleIdOfPath(id: string, slug: string)
    requires IsNumericId(id) && slug != "" && '/' !in slug
    ensures ArticleId(ArticlePath(id, slug)) == Some(id)
  {
    PyStr.DigitsHaveNoSlash(id);
    PyStr.SplitWithoutSep(slug, '/');
    PyStr.SplitAtSep(id, '/', slug);
    PyStr.SplitAtSep("news", '/', id + "/" + slug);
    PyStr.SplitAtSep("", '/', "news/" + id + "/" + slug);
    assert ArticlePath(id, slug) == "" + ['/'] + ("news" + ['/'] + (id + ['/'] + slug));
  }

  /** Conversely, a URL with an id is exactly such a path. */
  lemma ArticleIdOnlyOfPaths(url: string)
    requires ArticleId(url).Some?
    ensures exists slug :: slug != "" && '/' !in slug && url == ArticlePath(ArticleId(url).value, slug)
  {
    var parts := PyStr.Split(url, '/');
    PyStr.JoinSplit(url, '/');
    assert PyStr.Join(parts[3..], '/') == parts[3];
    assert parts[2..][1..] == parts[3..];
    assert PyStr.Join(parts[2..], '/') == parts[2] + ['/'] + parts[3];
    assert parts[1..][1..] == parts[2..];
    assert PyStr.Join(parts[1..], '/') == parts[1] + ['/'] + (parts[2] + ['/'] + parts[3]);
    assert PyStr.Join(parts, '/') == parts[0] + ['/'] + (parts[1] + ['/'] + (parts[2] + ['/'] + parts[3]));
    assert url == ArticlePath(parts[2], parts[3]);
  }

  lemma RedirectIdOfPath(id: string)
    requires IsNumericId(id)
    ensures RedirectId(RedirectPath(id)) == Some(id)
  {
    PyStr.DigitsHaveNoSlash(id);
    RedirectPathPieces(id);
    var t1 := id + ['/'] + "";
    var t2 := "click" + ['/'] + t1;
    var t3 := "news" + ['/'] + t2;
    PyStr.SplitAtSep(id, '/', "");
    PyStr.SplitAtSep("click", '/', t1);
    PyStr.SplitAtSep("news", '/', t2);
    PyStr.SplitAtSep("", '/', t3);
  }

  /** The redirect path as its `/`-separated pieces. */
  lemma RedirectPathPieces(id: string)
    ensures RedirectPath(id) == "" + ['/'] + ("news" + ['/'] + ("click" + ['/'] + (id + ['/'] + "")))
  {
    assert id + ['/'] + "" == id + "/";
    assert "click" + ['/'] + (id + "/") == "click/" + id + "/";
    assert "news" + ['/'] + ("click/" + id + "/") == "news/click/" + id + "/";
  }

  /** `YYYY-MM-DDTHH:MM:SS`, digits where the pattern has `d`; a fraction or zone may follow. */
  const IsoPattern := "dddd-dd-ddTdd:dd:dd"

  predicate IsIsoDateTime(s: string) {
    |s| >= |IsoPattern|
    && forall i :: 0 <= i < |IsoPattern| ==>
         if IsoPattern[i] == 'd' then PyStr.IsDigit(s[i]) else s[i] == IsoPattern[i]
  }

  /** The documented field invariants of a record. */
  predicate WellFormed(a: ArticleData) {
    && ArticleId(a.url).Some?
    && a.redirectUrl == RedirectPath(ArticleId(a.url).value)
    && IsIsoDateTime(a.date)
  }

  /** Builds a record, deriving `redirect_url` from the id in `url`; `None` for a URL without one. */
  function MakeArticle(title: string, url: string, source: string, sourceType: SourceType,
                       date: string, currencies: seq<string>, votes: map<string, int>): (r: Option<ArticleData>)
    ensures r.Some? <==> ArticleId(url).Some? && IsIsoDateTime(date)
    ensures r.Some? ==> WellFormed(r.value) && r.value.url == url && r.value.title == title
  {
    match ArticleId(url)
    case Some(id) =>
      if IsIsoDateTime(date)
      then Some(ArticleData(title, url, RedirectPath(id), source, sourceType, date, currencies, votes))
      else None
    case None => None
  }

  /** In a well-formed record the redirect carries the same numeric id as the article URL. */
  lemma SameIdInRedirect(a: ArticleData)
    requires WellFormed(a)
    ensures RedirectId(a.redirectUrl) == ArticleId(a.url)
  {
    RedirectIdOfPath(ArticleId(a.url).value);
  }
}
