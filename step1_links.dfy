/** step1_links.py: for each neighbourhood keyword, the blog search results
    of one day, page after page, written to one links table per keyword.
    The browser is given: `search(url)` is the sequence of results pages a
    session shows after `driver.get(url)` (see `Harvest`). */
module Step1Links {
  import opened Base
  import opened Calendar
  import opened Dedup
  import opened Common
  import opened Page
  import opened SearchUrl
  import opened PostUrl
  import opened Harvest
  import opened Lists

  /** The (search query, neighbourhood) pairs, in the order they are run. */
  const KEYWORDS: seq<(string, string)> := [
    ("성수동 명소", "성수동"), ("연남동 명소", "연남동"), ("익선동 명소", "익선동"),
    ("을지로 명소", "을지로"), ("신사동 명소", "신사동"), ("공릉동 명소", "공릉동"),
    ("한남동 명소", "한남동")]

  /** The text of a results page without results. */
  const NO_RESULTS := "검색결과가 없습니다"

  /** The fixed parameters before `query`. */
  const LEAD := ["ssc=tab.blog.all", "sm=tab_jum"]

  // ---------------------------------------------------------------------------
  // build_search_url

  /** `build_search_url(q, day)`. */
  function BuildSearchUrl(q: string, day: Date): string
  {
    Compose(LEAD, q, day)
  }

  lemma LeadIsPlain()
    ensures PlainLead(LEAD)
  {
    PlainParam(LEAD[0]);
    PlainParam(LEAD[1]);
  }

  lemma SearchSsc(q: string, day: Date)
    ensures ParamValue(BuildSearchUrl(q, day), "ssc") == Some("tab.blog.all")
  {
    LeadIsPlain();
    ComposeLead(LEAD, q, day, "ssc", "tab.blog.all", 0);
  }

  lemma SearchSm(q: string, day: Date)
    ensures ParamValue(BuildSearchUrl(q, day), "sm") == Some("tab_jum")
  {
    LeadIsPlain();
    DiffersAt(LEAD[0], "sm" + "=", 1);
    ComposeLead(LEAD, q, day, "sm", "tab_jum", 1);
  }

  lemma SearchTab(q: string, day: Date)
    ensures ParamValue(BuildSearchUrl(q, day), "ssc") == Some("tab.blog.all")
    ensures ParamValue(BuildSearchUrl(q, day), "sm") == Some("tab_jum")
  {
    SearchSsc(q, day);
    SearchSm(q, day);
  }

  /** The URL asks for the blog tab, the query as quoted (and unquoting
      gives it back), and the one-day window of `day` on both sides. */
  lemma BuildSearchUrlParams(q: string, day: Date)
    ensures ParamValue(BuildSearchUrl(q, day), "ssc") == Some("tab.blog.all")
    ensures ParamValue(BuildSearchUrl(q, day), "sm") == Some("tab_jum")
    ensures ParamValue(BuildSearchUrl(q, day), "query") == Some(Quote(q))
    ensures Unquote(Quote(q)) == Some(q)
    ensures ParamValue(BuildSearchUrl(q, day), "nso") == Some(Nso(day))
    ensures Valid(day) ==> DayWindow(Nso(day)) == Some((Ymd(day), Ymd(day)))
  {
    LeadIsPlain();
    ComposeParams(LEAD, q, day);
    SearchTab(q, day);
    if Valid(day) {
      NsoWindow(day);
    }
  }

  // ---------------------------------------------------------------------------
  // ensure_results_ready

  /** `ensure_results_ready(driver)`: the document completes loading, and
      then some title selector matches or the page says there are no
      results; otherwise a wait times out and the check is False. */
  predicate Ready(s: Screen)
  {
    s.complete && (Anchors(s.doc, TITLE_SELECTORS) != [] || Contains(s.source, NO_RESULTS))
  }

  /** Ready exactly when loading completed and some title selector matches
      or the no-results text is shown. */
  lemma ReadyIff(s: Screen)
    ensures Ready(s) <==> (s.complete &&
      ((exists j :: 0 <= j < |TITLE_SELECTORS| && s.doc.css(TITLE_SELECTORS[j]) != []) || Contains(s.source, NO_RESULTS)))
  {
    AnchorsNone(s.doc, TITLE_SELECTORS);
  }

  method EnsureResultsReady(s: Screen) returns (ok: bool)
    ensures ok == Ready(s)
  {
    if !s.complete {
      return false;
    }
    var anchors := FindAnchors(s.doc, TITLE_SELECTORS);
    ok := anchors != [] || Contains(s.source, NO_RESULTS);
  }

  // ---------------------------------------------------------------------------
  // list_seeds_for_day

  /** An `href` is kept when it is not empty and names the desktop or the
      mobile blog host. */
  predicate Accepts(href: string)
  {
    href != "" && (Contains(href, BLOG_HOST) || Contains(href, MOBILE_BLOG_HOST))
  }

  /** The empty test and the mobile host test add nothing: a link is kept
      exactly when it contains the desktop blog host. */
  lemma AcceptsIsBlogHost(href: string)
    ensures Accepts(href) <==> Contains(href, BLOG_HOST)
  {
    if Contains(href, MOBILE_BLOG_HOST) {
      MobileHostIsBlogHost(href);
    }
    if href == "" {
      assert !StartsWith(href, BLOG_HOST);
    }
  }

  /** Title fallback to the `title` attribute, displayed next buttons only. */
  const STYLE := Style(TITLE_SELECTORS, Accepts, true, true)

  /** `list_seeds_for_day(driver, query, day, save_dir, dong_slug)`: nothing
      when the first page is not ready, else the harvest of the session.  A
      session that shows no page at all is taken as not ready. */
  function SeedsForDay(search: string -> seq<Screen>, query: string, day: Date): seq<LinkRow>
  {
    var pages := search(BuildSearchUrl(query, day));
    if pages == [] || !Ready(pages[0]) then [] else Harvested(pages, STYLE, IsoDay(day), None)
  }

  method ListSeedsForDay(search: string -> seq<Screen>, query: string, day: Date) returns (seeds: seq<LinkRow>)
    ensures seeds == SeedsForDay(search, query, day)
  {
    var url := BuildSearchUrl(query, day);
    var pages := search(url);
    if pages == [] {
      return [];
    }
    var ready := EnsureResultsReady(pages[0]);
    if !ready {
      return [];
    }
    seeds := HarvestPages(pages, STYLE, IsoDay(day), None);
  }

  /** Every row has the day as `%Y-%m-%d`, a cleaned title and a non-empty
      link on the blog host; no link appears twice; and every blog link of
      the pages read is among them. */
  lemma SeedsForDayFacts(search: string -> seq<Screen>, query: string, day: Date)
    ensures var rows := SeedsForDay(search, query, day);
      (forall i :: 0 <= i < |rows| ==>
        rows[i].date == IsoDay(day) && rows[i].dong.None? && IsClean(rows[i].title) &&
        rows[i].link != "" && Contains(rows[i].link, BLOG_HOST)) &&
      UniqueBy(rows, LinkOf)
    ensures var pages := search(BuildSearchUrl(query, day));
      pages != [] && Ready(pages[0]) ==>
        forall c :: c in PagesRows(pages[..Visited(pages, true)], STYLE, IsoDay(day), None) && Contains(c.link, BLOG_HOST) ==>
          c.link in KeysOf(SeedsForDay(search, query, day), LinkOf)
  {
    var pages := search(BuildSearchUrl(query, day));
    if pages != [] && Ready(pages[0]) {
      var cands := PagesRows(pages[..Visited(pages, true)], STYLE, IsoDay(day), None);
      HarvestedFacts(pages, STYLE, IsoDay(day), None);
      PagesRowsFacts(pages[..Visited(pages, true)], STYLE, IsoDay(day), None);
      forall c | c in cands
        ensures Accepts(c.link) <==> Contains(c.link, BLOG_HOST)
      {
        AcceptsIsBlogHost(c.link);
      }
    }
  }

  // ---------------------------------------------------------------------------
  // save_csv and run_step1

  /** `save_csv(rows, dong_slug, day, save_dir)` without the file I/O:
      nothing for no rows, else the path and the rows written. */
  function SaveCsv(rows: seq<LinkRow>, slug: string, day: Date, saveDir: string): (r: Option<(string, seq<LinkRow>)>)
    ensures r.None? <==> rows == []
    ensures r.Some? ==> r.value.0 == PathJoin(saveDir, DatedName("links_", slug, Ymd(day)))
  {
    if rows == [] then None
    else Some((PathJoin(saveDir, DatedName("links_", slug, Ymd(day))), DedupBy(rows, LinkOf)))
  }

  /** The table written has one row per distinct link of the input, the
      first row with that link, in order of first appearance. */
  lemma SaveCsvFirstRow(rows: seq<LinkRow>, slug: string, day: Date, saveDir: string)
    requires rows != []
    ensures var w := SaveCsv(rows, slug, day, saveDir).value.1;
      UniqueBy(w, LinkOf) &&
      (forall k :: k in KeysOf(w, LinkOf) <==> k in KeysOf(rows, LinkOf)) &&
      (forall j :: 0 <= j < |w| ==> w[j].link in KeysOf(rows, LinkOf) && w[j] == rows[FirstIndex(rows, LinkOf, w[j].link)])
  {
    DedupByFacts(rows, LinkOf);
    DedupByFirstSeen(rows, LinkOf);
  }

  /** The harvest has no duplicate links, so the table gets all of it. */
  lemma SaveCsvOfSeeds(search: string -> seq<Screen>, query: string, day: Date, slug: string, saveDir: string)
    requires SeedsForDay(search, query, day) != []
    ensures SaveCsv(SeedsForDay(search, query, day), slug, day, saveDir).value.1 == SeedsForDay(search, query, day)
  {
    SeedsForDayFacts(search, query, day);
    DedupByUnique(SeedsForDay(search, query, day), LinkOf);
  }

  /** `f"{dong}_명소"`. */
  function Slug(dong: string): string
  {
    dong + "_명소"
  }

  /** `f"./data_html/{dong_slug}/{year_str}/links"`. */
  function SaveDir(dong: string, day: Date): string
  {
    "./data_html/" + Slug(dong) + "/" + YearText(day) + "/links"
  }

  /** What the run does for one keyword: harvest, then save. */
  function KeywordRun(search: string -> seq<Screen>, day: Date, kw: (string, string)): Option<(string, seq<LinkRow>)>
  {
    SaveCsv(SeedsForDay(search, kw.0, day), Slug(kw.1), day, SaveDir(kw.1, day))
  }

  /** The file of a keyword's links is the one the module header promises,
      `./data_html/{동네}_명소/{YYYY}/links/links_{동네}_명소_{YYYYMMDD}.csv`. */
  lemma LinksPath(dong: string, day: Date)
    ensures PathJoin(SaveDir(dong, day), DatedName("links_", Slug(dong), Ymd(day))) ==
      "./data_html/" + Slug(dong) + "/" + YearText(day) + "/links" + "/" + "links_" + Slug(dong) + "_" + Ymd(day) + ".csv"
  {
    var dir := SaveDir(dong, day);
    assert dir == ("./data_html/" + Slug(dong) + "/" + YearText(day)) + "/links";
    assert dir[|dir| - 1] == 's';
    JoinDated(dir, "links_", Slug(dong), Ymd(day));
  }

  /** What each keyword writes, when it writes anything, goes to that file. */
  lemma KeywordRunPath(search: string -> seq<Screen>, day: Date, kw: (string, string))
    requires KeywordRun(search, day, kw).Some?
    ensures KeywordRun(search, day, kw).value.0 ==
      "./data_html/" + Slug(kw.1) + "/" + YearText(day) + "/links" + "/" + "links_" + Slug(kw.1) + "_" + Ymd(day) + ".csv"
  {
    LinksPath(kw.1, day);
  }

  /** The body of the `run_step1` loop for one keyword. */
  method RunKeyword(search: string -> seq<Screen>, day: Date, kw: (string, string)) returns (w: Option<(string, seq<LinkRow>)>)
    ensures w == KeywordRun(search, day, kw)
  {
    var (query, dong) := kw;
    var slug := dong + "_명소";
    var saveDir := "./data_html/" + slug + "/" + YearText(day) + "/links";
    var rows := ListSeedsForDay(search, query, day);
    w := SaveCsv(rows, slug, day, saveDir);
  }

  /** What the run does for one keyword, as a function of the keyword. */
  function RunOf(search: string -> seq<Screen>, day: Date): ((string, string)) -> Option<(string, seq<LinkRow>)>
  {
    kw => KeywordRun(search, day, kw)
  }

  /** The `run_step1` loop over a list of keywords. */
  method RunKeywords(search: string -> seq<Screen>, day: Date, kws: seq<(string, string)>) returns (written: seq<Option<(string, seq<LinkRow>)>>)
    ensures written == Map(RunOf(search, day), kws)
  {
    written := [];
    for k := 0 to |kws|
      invariant written == Map(RunOf(search, day), kws[..k])
    {
      var w := RunKeyword(search, day, kws[k]);
      MapStep(RunOf(search, day), kws, k, written, w);
      written := written + [w];
    }
    assert kws[..|kws|] == kws;
  }

  /** `run_step1(target_day)` without the driver's lifetime: what each
      keyword writes, in `KEYWORDS` order, for the given day or else the day
      before `today`. */
  method RunStep1(search: string -> seq<Screen>, given: Option<Date>, today: Date) returns (written: seq<Option<(string, seq<LinkRow>)>>)
    requires Valid(today) && today != FIRST
    ensures |written| == |KEYWORDS|
    ensures forall k :: 0 <= k < |KEYWORDS| ==> written[k] == KeywordRun(search, TargetDay(given, today), KEYWORDS[k])
  {
    var day := TargetDay(given, today);
    written := RunKeywords(search, day, KEYWORDS);
  }
}
