/** crawling/step1/crawler_step1.py: the first, single-page link collector.
    It reads the one results page that `driver.get(url)` shows (no readiness
    check, no "next" button), keeps every link that contains the blog host,
    and always writes a links table.  Its title selectors live in
    `step1.selectors_step1`, which is not part of this model: they are a
    parameter here. */
module CrawlerStep1 {
  import opened Base
  import opened Calendar
  import opened Dedup
  import opened Lists
  import opened Common
  import opened Page
  import opened SearchUrl
  import opened Harvest

  /** The fixed parameters before `query`. */
  const LEAD := ["where=blog"]

  // ---------------------------------------------------------------------------
  // build_search_url

  /** `build_search_url(keyword, day)`. */
  function BuildSearchUrl(keyword: string, day: Date): string
  {
    Compose(LEAD, keyword, day)
  }

  lemma LeadIsPlain()
    ensures PlainLead(LEAD)
  {
    PlainParam(LEAD[0]);
  }

  lemma SearchWhere(keyword: string, day: Date)
    ensures ParamValue(BuildSearchUrl(keyword, day), "where") == Some("blog")
  {
    LeadIsPlain();
    ComposeLead(LEAD, keyword, day, "where", "blog", 0);
  }

  /** The URL asks for blog results, the keyword as quoted, and the one-day
      window of `day` on both sides. */
  lemma BuildSearchUrlParams(keyword: string, day: Date)
    ensures ParamValue(BuildSearchUrl(keyword, day), "where") == Some("blog")
    ensures ParamValue(BuildSearchUrl(keyword, day), "query") == Some(Quote(keyword))
    ensures Unquote(Quote(keyword)) == Some(keyword)
    ensures ParamValue(BuildSearchUrl(keyword, day), "nso") == Some(Nso(day))
    ensures Valid(day) ==> DayWindow(Nso(day)) == Some((Ymd(day), Ymd(day)))
  {
    LeadIsPlain();
    ComposeParams(LEAD, keyword, day);
    SearchWhere(keyword, day);
    if Valid(day) {
      NsoWindow(day);
    }
  }

  // ---------------------------------------------------------------------------
  // collect_links_for_day

  /** `"blog.naver.com" in link`. */
  predicate IsBlogLink(link: string)
  {
    Contains(link, BLOG_HOST)
  }

  /** The title is the cleaned anchor text; there is no "next" to click, so
      the display check is never asked. */
  function StyleOf(titles: seq<string>): Style
  {
    Style(titles, IsBlogLink, false, false)
  }

  /** The rows of the page: of the anchors of the first title selector that
      matches, those with a blog link, each link once, first seen first.  With
      no selectors at all `anchors` is never bound. */
  function LinksOfPage(s: Screen, titles: seq<string>, day: Date): Result<seq<LinkRow>>
  {
    if titles == [] then Err("UnboundLocalError")
    else Ok(DedupBy(Filter(PageRows(s, StyleOf(titles), IsoDay(day), None), Accepted(IsBlogLink)), LinkOf))
  }

  /** `f"links_{sanitize_for_fname(keyword)}_{day:%Y%m%d}.csv"`. */
  function FileName(keyword: string, day: Date): string
  {
    DatedName("links_", SanitizeForFname(keyword), Ymd(day))
  }

  /** What `collect_links_for_day` writes: the path and the rows, or the
      exception that ends it before anything is written. */
  function Collected(search: string -> Screen, titles: seq<string>, keyword: string, day: Date, saveDir: string): Result<(string, seq<LinkRow>)>
  {
    var rows := LinksOfPage(search(BuildSearchUrl(keyword, day)), titles, day);
    if rows.Err? then Err(rows.fault) else Ok((PathJoin(saveDir, FileName(keyword, day)), rows.value))
  }

  /** `collect_links_for_day(keyword, day, save_dir)` without the browser's
      lifetime, the scrolling and the file I/O. */
  method CollectLinksForDay(search: string -> Screen, titles: seq<string>, keyword: string, day: Date, saveDir: string)
    returns (r: Result<(string, seq<LinkRow>)>)
    ensures r == Collected(search, titles, keyword, day, saveDir)
  {
    var url := BuildSearchUrl(keyword, day);
    var s := search(url);
    if titles == [] {
      return Err("UnboundLocalError");
    }
    var style := StyleOf(titles);
    var anchors := FindAnchors(s.doc, titles);
    var seen, rows := AddAnchors(anchors, style, IsoDay(day), None, {}, []);
    var savePath := PathJoin(saveDir, FileName(keyword, day));
    return Ok((savePath, rows));
  }

  lemma LinksName(slug: string, stamp: string)
    ensures DatedName("links_", slug, stamp) == "links_" + slug + "_" + stamp + ".csv"
  {
  }

  /** The run fails exactly when there are no title selectors; otherwise a
      table is written, to `links_{keyword}_{YYYYMMDD}.csv` in `saveDir`, even
      when it has no rows. */
  lemma CollectedWrites(search: string -> Screen, titles: seq<string>, keyword: string, day: Date, saveDir: string)
    ensures var r := Collected(search, titles, keyword, day, saveDir);
      (r.Err? <==> titles == []) &&
      (r.Err? ==> r.fault == "UnboundLocalError") &&
      (r.Ok? ==> EndsWith(r.value.0, "links_" + SanitizeForFname(keyword) + "_" + Ymd(day) + ".csv"))
  {
    LinksName(SanitizeForFname(keyword), Ymd(day));
  }

  /** Only the first title selector that matches anything is used. */
  lemma FirstSelectorOnly(s: Screen, titles: seq<string>, day: Date, k: nat)
    requires k < |titles| && s.doc.css(titles[k]) != []
    requires forall j :: 0 <= j < k ==> s.doc.css(titles[j]) == []
    ensures LinksOfPage(s, titles, day) ==
      Ok(DedupBy(Filter(RowsOf(s.doc.css(titles[k]), IsoDay(day), None, false), Accepted(IsBlogLink)), LinkOf))
  {
    AnchorsFirst(s.doc, titles, k);
  }

  /** An anchor's row carries that anchor's link and cleaned text. */
  predicate FromAnchor(r: LinkRow, anchors: seq<Elem>)
  {
    exists m :: 0 <= m < |anchors| && Href(anchors[m]) == r.link && r.title == Clean(anchors[m].text)
  }

  lemma CandidateFromAnchor(anchors: seq<Elem>, date: string, c: LinkRow)
    requires c in RowsOf(anchors, date, None, false)
    ensures c.date == date && c.dong.None? && FromAnchor(c, anchors)
  {
    var cands := RowsOf(anchors, date, None, false);
    var m :| 0 <= m < |cands| && cands[m] == c;
  }

  lemma AnchorGivesCandidate(anchors: seq<Elem>, date: string, m: nat)
    requires m < |anchors|
    ensures Href(anchors[m]) in KeysOf(RowsOf(anchors, date, None, false), LinkOf)
  {
    var cands := RowsOf(anchors, date, None, false);
    assert KeysOf(cands, LinkOf)[m] == LinkOf(cands[m]);
  }

  lemma BlogAnchorKept(anchors: seq<Elem>, date: string, m: nat)
    requires m < |anchors| && Contains(Href(anchors[m]), BLOG_HOST)
    ensures Href(anchors[m]) in KeysOf(DedupBy(Filter(RowsOf(anchors, date, None, false), Accepted(IsBlogLink)), LinkOf), LinkOf)
  {
    var cands := RowsOf(anchors, date, None, false);
    GatheredFacts(cands, IsBlogLink);
    assert cands[m] in cands;
  }

  /** A kept row has the day, no neighbourhood, and the link and cleaned
      text of some anchor. */
  lemma KeptRowFrom(anchors: seq<Elem>, date: string, r: LinkRow)
    requires r in DedupBy(Filter(RowsOf(anchors, date, None, false), Accepted(IsBlogLink)), LinkOf)
    ensures r.date == date && r.dong.None? && FromAnchor(r, anchors)
  {
    var cands := RowsOf(anchors, date, None, false);
    GatheredFacts(cands, IsBlogLink);
    var rows := DedupBy(Filter(cands, Accepted(IsBlogLink)), LinkOf);
    var i :| 0 <= i < |rows| && rows[i] == r;
    CandidateFromAnchor(anchors, date, r);
  }

  /** The same, for every kept row at once. */
  lemma AnchorRowsFrom(anchors: seq<Elem>, date: string)
    ensures var rows := DedupBy(Filter(RowsOf(anchors, date, None, false), Accepted(IsBlogLink)), LinkOf);
      forall i :: 0 <= i < |rows| ==> rows[i].date == date && rows[i].dong.None? && FromAnchor(rows[i], anchors)
  {
    var rows := DedupBy(Filter(RowsOf(anchors, date, None, false), Accepted(IsBlogLink)), LinkOf);
    forall i | 0 <= i < |rows|
      ensures rows[i].date == date && rows[i].dong.None? && FromAnchor(rows[i], anchors)
    {
      KeptRowFrom(anchors, date, rows[i]);
    }
  }

  /** Every blog link of the anchors is kept. */
  lemma AnchorRowsCover(anchors: seq<Elem>, date: string)
    ensures var rows := DedupBy(Filter(RowsOf(anchors, date, None, false), Accepted(IsBlogLink)), LinkOf);
      forall a :: a in anchors && Contains(Href(a), BLOG_HOST) ==> Href(a) in KeysOf(rows, LinkOf)
  {
    var rows := DedupBy(Filter(RowsOf(anchors, date, None, false), Accepted(IsBlogLink)), LinkOf);
    forall a | a in anchors && Contains(Href(a), BLOG_HOST)
      ensures Href(a) in KeysOf(rows, LinkOf)
    {
      var m :| 0 <= m < |anchors| && anchors[m] == a;
      BlogAnchorKept(anchors, date, m);
    }
  }

  /** Of the rows of some anchors, those with a blog link, each link once:
      each comes from an anchor with that link and that cleaned text, and
      every blog link of the anchors is among them. */
  lemma AnchorRowsFacts(anchors: seq<Elem>, date: string)
    ensures var rows := DedupBy(Filter(RowsOf(anchors, date, None, false), Accepted(IsBlogLink)), LinkOf);
      (forall i :: 0 <= i < |rows| ==>
        rows[i].date == date && rows[i].dong.None? && Contains(rows[i].link, BLOG_HOST) && FromAnchor(rows[i], anchors)) &&
      (forall i, j :: 0 <= i < j < |rows| ==> rows[i].link != rows[j].link) &&
      (forall a :: a in anchors && Contains(Href(a), BLOG_HOST) ==> Href(a) in KeysOf(rows, LinkOf))
  {
    GatheredFacts(RowsOf(anchors, date, None, false), IsBlogLink);
    AnchorRowsFrom(anchors, date);
    AnchorRowsCover(anchors, date);
  }

  /** Every row has the day and a blog link, its title is the cleaned text of
      an anchor of the page with that link, and no link is written twice;
      every blog link of the page's anchors is written. */
  lemma LinksOfPageFacts(s: Screen, titles: seq<string>, day: Date)
    requires titles != []
    ensures var rows := LinksOfPage(s, titles, day).value;
      var anchors := Anchors(s.doc, titles);
      (forall i :: 0 <= i < |rows| ==>
        rows[i].date == IsoDay(day) && rows[i].dong.None? && Contains(rows[i].link, BLOG_HOST) &&
        FromAnchor(rows[i], anchors)) &&
      (forall i, j :: 0 <= i < j < |rows| ==> rows[i].link != rows[j].link) &&
      (forall a :: a in anchors && Contains(Href(a), BLOG_HOST) ==> Href(a) in KeysOf(rows, LinkOf))
  {
    assert LinksOfPage(s, titles, day).value ==
      DedupBy(Filter(RowsOf(Anchors(s.doc, titles), IsoDay(day), None, false), Accepted(IsBlogLink)), LinkOf);
    AnchorRowsFacts(Anchors(s.doc, titles), IsoDay(day));
  }

  /** Each row is the first candidate with its link, and rows appear in the
      order their links first appear among the page's candidates. */
  lemma LinksOfPageOrder(s: Screen, titles: seq<string>, day: Date)
    requires titles != []
    ensures var rows := LinksOfPage(s, titles, day).value;
      var kept := Filter(PageRows(s, StyleOf(titles), IsoDay(day), None), Accepted(IsBlogLink));
      (forall j :: 0 <= j < |rows| ==> rows[j].link in KeysOf(kept, LinkOf) && rows[j] == kept[FirstIndex(kept, LinkOf, rows[j].link)]) &&
      (forall i, j :: 0 <= i < j < |rows| ==> FirstIndex(kept, LinkOf, rows[i].link) < FirstIndex(kept, LinkOf, rows[j].link))
  {
    DedupByFirstSeen(Filter(PageRows(s, StyleOf(titles), IsoDay(day), None), Accepted(IsBlogLink)), LinkOf);
  }

  /** Reading the one page is the harvest of a session that shows that page
      alone, with the same style. */
  lemma OnePageIsHarvest(s: Screen, titles: seq<string>, day: Date)
    requires titles != []
    ensures LinksOfPage(s, titles, day) == Ok(Harvested([s], StyleOf(titles), IsoDay(day), None))
  {
    var style := StyleOf(titles);
    assert [s][1..] == [];
    var n := Visited([s], style.mustDisplay);
    assert n == 1;
    assert [s][..n] == [s];
    assert PagesRows([s], style, IsoDay(day), None) == PageRows(s, style, IsoDay(day), None) by {
      assert [s][..0] == [];
    }
  }
}
