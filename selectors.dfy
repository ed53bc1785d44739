/**
 * The two column expressions of test_selectors.py: one sample row per distinct source
 * (`drop_duplicates()` on the Source column, keeping first occurrences, then `.loc`),
 * and the click-through redirect built from the id segment of each URL.
 */
module Selectors {
  import opened Wrappers
  import PyStr
  import Article

  const SiteBase := "https://cryptopanic.com"
  const ClickBase := "https://cryptopanic.com/news/click/"

  /** The two columns of a cached row that lines 9-10 read. */
  datatype CachedRow = CachedRow(source: string, url: string)

  /**
   * `ClickBase + url.split('/')[2] + '/'`. A URL with fewer than three pieces has no
   * element 2, so pandas yields a missing value (here `None`).
   */
  function NewsRedirect(url: string): (r: Option<string>)
    ensures r.Some? <==> |PyStr.Split(url, '/')| > 2
    ensures r.Some? ==> |r.value| > |ClickBase| && r.value[..|ClickBase|] == ClickBase
  {
    var parts := PyStr.Split(url, '/');
    if |parts| > 2 then Some(ClickBase + parts[2] + "/") else None
  }

  /** For `/news/<id>/<slug>` the segment used is exactly `<id>`. */
  lemma NewsRedirectOfPath(id: string, slug: string)
    requires '/' !in id && '/' !in slug
    ensures NewsRedirect(Article.ArticlePath(id, slug)) == Some(ClickBase + id + "/")
  {
    PyStr.SplitWithoutSep(slug, '/');
    PyStr.SplitAtSep(id, '/', slug);
    PyStr.SplitAtSep("news", '/', id + "/" + slug);
    PyStr.SplitAtSep("", '/', "news/" + id + "/" + slug);
    assert Article.ArticlePath(id, slug) == "" + ['/'] + ("news" + ['/'] + (id + ['/'] + slug));
  }

  /**
   * For a well-formed record this construction agrees with the record's own
   * `redirect_url`: the same id, on the site's absolute URL.
   */
  lemma NewsRedirectOfArticle(a: Article.ArticleData)
    requires Article.WellFormed(a)
    ensures NewsRedirect(a.url) == Some(SiteBase + a.redirectUrl)
  {
    Article.ArticleIdOnlyOfPaths(a.url);
    var id := Article.ArticleId(a.url).value;
    var slug :| slug != "" && '/' !in slug && a.url == Article.ArticlePath(id, slug);
    PyStr.DigitsHaveNoSlash(id);
    NewsRedirectOfPath(id, slug);
    assert SiteBase + a.redirectUrl == ClickBase + id + "/";
  }

  /** Row `i` holds the first occurrence of its value in `col`. */
  predicate IsFirst(col: seq<string>, i: nat)
    requires i < |col|
  {
    forall j :: 0 <= j < i ==> col[j] != col[i]
  }

  /**
   * The index labels `drop_duplicates()` keeps among the first `n` rows: those holding the
   * first occurrence of their value, in increasing order.
   */
  function FirstIndices(col: seq<string>, n: nat): (r: seq<nat>)
    requires n <= |col|
    ensures forall k :: 0 <= k < |r| ==> r[k] < n && IsFirst(col, r[k])
    ensures forall i :: 0 <= i < n && IsFirst(col, i) ==> i in r
    ensures forall k, l :: 0 <= k < l < |r| ==> r[k] < r[l]
  {
    if n == 0 then []
    else FirstIndices(col, n - 1) + (if IsFirst(col, n - 1) then [n - 1] else [])
  }

  function Sources(rows: seq<CachedRow>): (col: seq<string>)
    ensures |col| == |rows| && forall i :: 0 <= i < |rows| ==> col[i] == rows[i].source
  {
    seq(|rows|, i requires 0 <= i < |rows| => rows[i].source)
  }

  /** Line 9: the rows at the kept index labels, in their original order. */
  function UniqueSourceRows(rows: seq<CachedRow>): (r: seq<CachedRow>)
    ensures |r| <= |rows|
  {
    var idx := FirstIndices(Sources(rows), |rows|);
    assert forall k :: 0 <= k < |idx| ==> idx[k] < |rows|;
    assert |idx| <= |rows| by { IncreasingBounded(idx, |rows|); }
    seq(|idx|, k requires 0 <= k < |idx| => rows[idx[k]])
  }

  /** A strictly increasing sequence of naturals below `n` has at most `n` elements. */
  lemma {:induction false} IncreasingBounded(idx: seq<nat>, n: nat)
    requires forall k :: 0 <= k < |idx| ==> idx[k] < n
    requires forall k, l :: 0 <= k < l < |idx| ==> idx[k] < idx[l]
    ensures |idx| <= n
    decreases n
  {
    if idx != [] {
      var m := idx[|idx| - 1];
      IncreasingBounded(idx[..|idx| - 1], m);
    }
  }

  /** Every value has a first occurrence at or before any of its occurrences. */
  lemma {:induction false} FirstOccurrenceExists(col: seq<string>, i: nat)
    requires i < |col|
    ensures exists j :: 0 <= j <= i && col[j] == col[i] && IsFirst(col, j)
    decreases i
  {
    if !IsFirst(col, i) {
      var j :| 0 <= j < i && col[j] == col[i];
      FirstOccurrenceExists(col, j);
    }
  }

  /** Exactly one kept row per distinct source value. */
  lemma UniqueSourceOnePerSource(rows: seq<CachedRow>)
    ensures forall k, l :: 0 <= k < l < |UniqueSourceRows(rows)| ==>
              UniqueSourceRows(rows)[k].source != UniqueSourceRows(rows)[l].source
    ensures forall i :: 0 <= i < |rows| ==>
              exists k :: 0 <= k < |UniqueSourceRows(rows)| && UniqueSourceRows(rows)[k].source == rows[i].source
  {
    var col := Sources(rows);
    var idx := FirstIndices(col, |rows|);
    var r := UniqueSourceRows(rows);
    assert |r| == |idx| && forall k :: 0 <= k < |r| ==> r[k] == rows[idx[k]];
    forall k, l | 0 <= k < l < |r| ensures r[k].source != r[l].source {
      assert idx[k] < idx[l] && IsFirst(col, idx[l]);
      assert col[idx[k]] != col[idx[l]];
    }
    forall i | 0 <= i < |rows| ensures exists k :: 0 <= k < |r| && r[k].source == rows[i].source {
      FirstOccurrenceExists(col, i);
      var j :| 0 <= j <= i && col[j] == col[i] && IsFirst(col, j);
      var k :| 0 <= k < |idx| && idx[k] == j;
      assert r[k].source == rows[i].source;
    }
  }

  /**
   * The kept rows are first occurrences, taken in their original order: row `k` of the
   * result is row `idx[k]` of the input, with `idx` strictly increasing and no earlier
   * row sharing its source.
   */
  lemma UniqueSourceFirstInOrder(rows: seq<CachedRow>)
    ensures exists idx: seq<nat> ::
              && |idx| == |UniqueSourceRows(rows)|
              && (forall k :: 0 <= k < |idx| ==> idx[k] < |rows| && UniqueSourceRows(rows)[k] == rows[idx[k]])
              && (forall k :: 0 <= k < |idx| ==> forall j :: 0 <= j < idx[k] ==> rows[j].source != rows[idx[k]].source)
              && (forall k, l :: 0 <= k < l < |idx| ==> idx[k] < idx[l])
  {
    var col := Sources(rows);
    var idx := FirstIndices(col, |rows|);
    forall k | 0 <= k < |idx| ensures forall j :: 0 <= j < idx[k] ==> rows[j].source != rows[idx[k]].source {
      assert IsFirst(col, idx[k]);
    }
  }
}
