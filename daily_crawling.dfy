/** daily_crawling.py: the one-file daily run.  For each keyword it harvests
    the day's links (as the stage-1 collectors do, but clicking "next"
    without asking whether the button is displayed) and then crawls every
    link its case-sensitive post recogniser accepts.  Its `crawl_post` calls
    an `extract_ids` that the file never defines, so every post whose page
    loads ends in a NameError. */
module DailyCrawling {
  import opened Base
  import opened Calendar
  import opened Dedup
  import opened Lists
  import opened Common
  import opened Page
  import opened SearchUrl
  import opened PostUrl
  import opened Harvest
  import PostCrawl
  import Step1Links

  /** The fixed parameters before `query`. */
  const LEAD := ["where=blog", "sm=tab_opt", "ssc=tab.blog.all"]

  // ---------------------------------------------------------------------------
  // build_search_url

  /** `build_search_url(q, day)`. */
  function BuildSearchUrl(q: string, day: Date): string
  {
    Compose(LEAD, q, day)
  }

  lemma LeadIsPlain()
    ensures PlainLead(LEAD)
  {
    PlainParam(LEAD[0]);
    PlainParam(LEAD[1]);
    PlainParam(LEAD[2]);
  }

  lemma SearchWhere(q: string, day: Date)
    ensures ParamValue(BuildSearchUrl(q, day), "where") == Some("blog")
  {
    LeadIsPlain();
    ComposeLead(LEAD, q, day, "where", "blog", 0);
  }

  lemma SearchSm(q: string, day: Date)
    ensures ParamValue(BuildSearchUrl(q, day), "sm") == Some("tab_opt")
  {
    LeadIsPlain();
    DiffersAt(LEAD[0], "sm=", 0);
    ComposeLead(LEAD, q, day, "sm", "tab_opt", 1);
  }

  lemma LeadBeforeSsc()
    ensures forall j :: 0 <= j < 2 ==> !StartsWith(LEAD[j], "ssc" + "=")
  {
    DiffersAt(LEAD[0], "ssc" + "=", 0);
    DiffersAt(LEAD[1], "ssc" + "=", 1);
  }

  lemma SearchSsc(q: string, day: Date)
    ensures ParamValue(BuildSearchUrl(q, day), "ssc") == Some("tab.blog.all")
  {
    LeadIsPlain();
    LeadBeforeSsc();
    assert LEAD[2] == "ssc" + "=" + "tab.blog.all";
    ComposeLead(LEAD, q, day, "ssc", "tab.blog.all", 2);
  }

  /** The URL asks for blog results, the query as quoted, and the one-day
      window of `day` on both sides. */
  lemma BuildSearchUrlParams(q: string, day: Date)
    ensures ParamValue(BuildSearchUrl(q, day), "where") == Some("blog")
    ensures ParamValue(BuildSearchUrl(q, day), "sm") == Some("tab_opt")
    ensures ParamValue(BuildSearchUrl(q, day), "ssc") == Some("tab.blog.all")
    ensures ParamValue(BuildSearchUrl(q, day), "query") == Some(Quote(q))
    ensures Unquote(Quote(q)) == Some(q)
    ensures ParamValue(BuildSearchUrl(q, day), "nso") == Some(Nso(day))
    ensures Valid(day) ==> DayWindow(Nso(day)) == Some((Ymd(day), Ymd(day)))
  {
    LeadIsPlain();
    ComposeParams(LEAD, q, day);
    SearchWhere(q, day);
    SearchSm(q, day);
    SearchSsc(q, day);
    if Valid(day) {
      NsoWindow(day);
    }
  }

  // ---------------------------------------------------------------------------
  // crawl_day_links

  /** `ensure_results_ready(driver)`: the document completes loading and
      some title selector matches; a page without results never becomes
      ready. */
  predicate Ready(s: Screen)
  {
    s.complete && Anchors(s.doc, TITLE_SELECTORS) != []
  }

  lemma ReadyIff(s: Screen)
    ensures Ready(s) <==> (s.complete && exists j :: 0 <= j < |TITLE_SELECTORS| && s.doc.css(TITLE_SELECTORS[j]) != [])
  {
    AnchorsNone(s.doc, TITLE_SELECTORS);
  }

  method EnsureResultsReady(s: Screen) returns (ok: bool)
    ensures ok == Ready(s)
  {
    if !s.complete {
      return false;
    }
    var anchors := FindAnchors(s.doc, TITLE_SELECTORS);
    ok := anchors != [];
  }

  /** An `href` is kept when it names the desktop or the mobile blog host. */
  predicate Accepts(href: string)
  {
    Contains(href, BLOG_HOST) || Contains(href, MOBILE_BLOG_HOST)
  }

  lemma AcceptsIsBlogHost(href: string)
    ensures Accepts(href) <==> Contains(href, BLOG_HOST)
  {
    if Contains(href, MOBILE_BLOG_HOST) {
      MobileHostIsBlogHost(href);
    }
  }

  /** Title fallback to the `title` attribute; "next" is clicked whether or
      not it is displayed. */
  const STYLE := Style(TITLE_SELECTORS, Accepts, true, false)

  /** `crawl_day_links(driver, keyword, target_day)`. */
  function DayLinks(search: string -> seq<Screen>, keyword: string, day: Date): seq<LinkRow>
  {
    var pages := search(BuildSearchUrl(keyword, day));
    if pages == [] || !Ready(pages[0]) then [] else Harvested(pages, STYLE, IsoDay(day), None)
  }

  method CrawlDayLinks(search: string -> seq<Screen>, keyword: string, day: Date) returns (seeds: seq<LinkRow>)
    ensures seeds == DayLinks(search, keyword, day)
  {
    var url := BuildSearchUrl(keyword, day);
    var pages := search(url);
    if pages == [] {
      return [];
    }
    var ready := EnsureResultsReady(pages[0]);
    if !ready {
      return [];
    }
    seeds := HarvestPages(pages, STYLE, IsoDay(day), None);
  }

  /** Every row has the day, a cleaned title and a link on the blog host, no
      link twice; the pages read are at least those the display-checking
      collectors would read of the same session. */
  lemma DayLinksFacts(search: string -> seq<Screen>, keyword: string, day: Date)
    ensures var rows := DayLinks(search, keyword, day);
      (forall i :: 0 <= i < |rows| ==>
        rows[i].date == IsoDay(day) && rows[i].dong.None? && IsClean(rows[i].title) &&
        Contains(rows[i].link, BLOG_HOST)) &&
      UniqueBy(rows, LinkOf)
    ensures Visited(search(BuildSearchUrl(keyword, day)), true) <= Visited(search(BuildSearchUrl(keyword, day)), false)
  {
    var pages := search(BuildSearchUrl(keyword, day));
    SessionRowsFacts(pages, IsoDay(day));
    DisplayCheckReadsFewer(pages);
  }

  /** The same facts for the rows of any session, dated `date`. */
  lemma SessionRowsFacts(pages: seq<Screen>, date: string)
    ensures var rows := if pages == [] || !Ready(pages[0]) then [] else Harvested(pages, STYLE, date, None);
      (forall i :: 0 <= i < |rows| ==>
        rows[i].date == date && rows[i].dong.None? && IsClean(rows[i].title) &&
        Contains(rows[i].link, BLOG_HOST)) &&
      UniqueBy(rows, LinkOf)
  {
    if pages != [] && Ready(pages[0]) {
      var cands := PagesRows(pages[..Visited(pages, false)], STYLE, date, None);
      HarvestedFacts(pages, STYLE, date, None);
      PagesRowsFacts(pages[..Visited(pages, false)], STYLE, date, None);
      forall c | c in cands
        ensures Accepts(c.link) <==> Contains(c.link, BLOG_HOST)
      {
        AcceptsIsBlogHost(c.link);
      }
    }
  }

  // ---------------------------------------------------------------------------
  // is_post_url and crawl_post

  /** `is_post_url(u)`: the post pattern without IGNORECASE. */
  predicate IsPostLink(u: string)
  {
    IsPostUrl(u, false)
  }

  /** Every link this recogniser accepts the case-insensitive one accepts too. */
  lemma IsPostLinkIgnoringCase(u: string)
    requires IsPostLink(u)
    ensures IsPostUrl(u, true)
  {
    CaseSensitiveImpliesIgnoringCase(u);
  }

  /** An upper-case `HTTPS://` scheme. */
  lemma UpperScheme(u: string)
    requires |u| >= 8 && u[..8] == "HTTPS://"
    ensures SchemeEnd(u, true) == Some(8) && SchemeEnd(u, false).None?
  {
    assert u[0] == 'H' && u[1] == 'T' && u[2] == 'T' && u[3] == 'P' && u[4] == 'S';
    assert u[5] == ':' && u[6] == '/' && u[7] == '/';
    assert !CharMatch("http"[0], u[0], false);
    forall k | 0 <= k < 4
      ensures CharMatch("http"[k], u[k], true)
    {
    }
    forall k | 0 <= k < 4
      ensures CharMatch("s://"[k], u[4 + k], true)
    {
    }
  }

  const UPPER_SCHEME := "HTTPS://" + HOST + "a/1"

  /** An upper-case scheme is a post address only to the case-insensitive
      recogniser of the stage-2 crawlers. */
  lemma CaseMatters()
    ensures IsPostUrl(UPPER_SCHEME, true) && !IsPostLink(UPPER_SCHEME)
  {
    var u := UPPER_SCHEME;
    assert u[..8] == "HTTPS://";
    UpperScheme(u);
    assert u[8..] == HOST + "a/1";
    LitPrefix(u, 8, HOST, "a/1", true);
    assert u[8 + |HOST|..] == "a" + ("/" + ("1" + ""));
    assert NoChar("a", '/') && AllDigits("1");
    SegmentDigits(u, 8 + |HOST|, "a", "1", "");
    DesktopBlogPath(u, 8, true);
    IsPostUrlAt(u, 8, true);
  }

  /** The status literals of this file. */
  const SKIP := "skip"
  const NAME_ERROR := "NameError"

  /** `crawl_post(driver, row, dong)`.  A link that is not a post address is
      skipped.  Otherwise the navigation of `goto_post_view` either raises
      (its own frame handling swallows every later fault), or the call to
      the undefined `extract_ids` raises NameError; either way nothing but
      the status is filled in. */
  function CrawledPost(browser: string -> Nav, row: LinkRow, dong: string): (i: PostCrawl.Info)
    ensures i == PostCrawl.Blank(PostCrawl.Row(row.title, row.link, ""), dong).(status := i.status)
    ensures i.status == SKIP <==> !IsPostLink(row.link)
    ensures IsPostLink(row.link) ==> StartsWith(i.status, PostCrawl.ERROR)
    ensures IsPostLink(row.link) && browser(row.link).fault.None? ==> i.status == "error:NameError"
    ensures IsPostLink(row.link) && browser(row.link).fault.Some? ==> i.status == "error:" + browser(row.link).fault.value
  {
    var info := PostCrawl.Blank(PostCrawl.Row(row.title, row.link, ""), dong);
    if !IsPostLink(row.link) then info.(status := SKIP)
    else
      var fault := if browser(row.link).fault.Some? then browser(row.link).fault.value else NAME_ERROR;
      PostCrawl.ErrorStatus(fault);
      assert SKIP[0] == 's';
      info.(status := PostCrawl.ERROR + fault)
  }

  /** `valid_links = [r for r in links if is_post_url(r["link"])]`. */
  predicate IsPostRow(r: LinkRow)
  {
    IsPostLink(r.link)
  }

  /** `crawl_post` of one link under the keyword's neighbourhood. */
  function CrawlOf(browser: string -> Nav, dong: string): LinkRow -> PostCrawl.Info
  {
    row => CrawledPost(browser, row, dong)
  }

  /** The post loop of `run_daily`: one record per valid link, in order. */
  method CrawlPosts(browser: string -> Nav, links: seq<LinkRow>, dong: string) returns (out: seq<PostCrawl.Info>)
    ensures out == Map(CrawlOf(browser, dong), links)
  {
    out := [];
    for k := 0 to |links|
      invariant out == Map(CrawlOf(browser, dong), links[..k])
    {
      MapStep(CrawlOf(browser, dong), links, k, out, CrawledPost(browser, links[k], dong));
      out := out + [CrawledPost(browser, links[k], dong)];
    }
    assert links[..|links|] == links;
  }

  // ---------------------------------------------------------------------------
  // run_daily

  /** What `run_daily` writes for one keyword: the links table and the posts
      table, each with its path. */
  datatype DayOutput = DayOutput(linksPath: string, links: seq<LinkRow>, postsPath: string, posts: seq<PostCrawl.Info>)

  /** `f"./data_html/{sanitize_for_fname(query)}/{target_day:%Y}/"`. */
  function BaseDir(query: string, day: Date): string
  {
    "./data_html/" + SanitizeForFname(query) + "/" + YearText(day) + "/"
  }

  /** `os.path.join(os.path.join(base_dir, sub), f"{prefix}{slug}_{YYYYMMDD}.csv")`. */
  function OutPath(query: string, day: Date, sub: string, prefix: string): string
  {
    PathJoin(PathJoin(BaseDir(query, day), sub), DatedName(prefix, SanitizeForFname(query), Ymd(day)))
  }

  /** A folder, then a sub-folder, then a file name. */
  lemma JoinUnderDir(base: string, sub: string, name: string)
    requires base != "" && base[|base| - 1] == '/'
    requires sub != "" && sub[0] != '/' && sub[|sub| - 1] != '/'
    requires name != "" && name[0] != '/'
    ensures PathJoin(PathJoin(base, sub), name) == base + sub + "/" + name
  {
    assert EndsWith(base, "/") && !StartsWith(sub, "/");
    var dir := base + sub;
    assert dir[|dir| - 1] == sub[|sub| - 1];
    PathJoinUnder(dir, name);
  }

  lemma OutPathPieces(san: string, year: string, stamp: string, sub: string, prefix: string)
    requires sub != "" && sub[0] != '/' && sub[|sub| - 1] != '/'
    requires prefix != "" && prefix[0] != '/'
    ensures PathJoin(PathJoin("./data_html/" + san + "/" + year + "/", sub), DatedName(prefix, san, stamp)) ==
      "./data_html/" + san + "/" + year + "/" + sub + "/" + prefix + san + "_" + stamp + ".csv"
  {
    var base := "./data_html/" + san + "/" + year + "/";
    assert base[|base| - 1] == '/';
    var dir := base + sub;
    assert PathJoin(base, sub) == dir by {
      assert EndsWith(base, "/");
      DiffersAt(sub, "/", 0);
    }
    assert dir[|dir| - 1] == sub[|sub| - 1];
    JoinDated(dir, prefix, san, stamp);
  }

  /** The tables land in `day_links` and `day_posts` under the keyword's
      folder for the year, named after the keyword and the day. */
  lemma OutPathShape(query: string, day: Date, sub: string, prefix: string)
    requires sub != "" && sub[0] != '/' && sub[|sub| - 1] != '/'
    requires prefix != "" && prefix[0] != '/'
    ensures OutPath(query, day, sub, prefix) ==
      "./data_html/" + SanitizeForFname(query) + "/" + YearText(day) + "/" + sub + "/" + prefix + SanitizeForFname(query) + "_" + Ymd(day) + ".csv"
  {
    OutPathPieces(SanitizeForFname(query), YearText(day), Ymd(day), sub, prefix);
  }

  /** One keyword of `run_daily`. */
  function KeywordDay(search: string -> seq<Screen>, browser: string -> Nav, day: Date, kw: (string, string)): DayOutput
  {
    var links := DayLinks(search, kw.0, day);
    var valid := Filter(links, IsPostRow);
    DayOutput(
      OutPath(kw.0, day, "day_links", "links_"), links,
      OutPath(kw.0, day, "day_posts", "posts_"),
      Map(CrawlOf(browser, kw.1), valid))
  }

  /** No record of a run is "ok" or "skip": every post that is crawled ends
      in an error, NameError when its page loads. */
  lemma NoRecordSucceeds(search: string -> seq<Screen>, browser: string -> Nav, day: Date, kw: (string, string))
    ensures var posts := KeywordDay(search, browser, day, kw).posts;
      forall k :: 0 <= k < |posts| ==>
        posts[k].status != "ok" && posts[k].status != SKIP && StartsWith(posts[k].status, PostCrawl.ERROR)
  {
    var valid := Filter(DayLinks(search, kw.0, day), IsPostRow);
    forall k | 0 <= k < |valid|
      ensures var i := CrawledPost(browser, valid[k], kw.1);
        i.status != "ok" && i.status != SKIP && StartsWith(i.status, PostCrawl.ERROR)
    {
      assert IsPostRow(valid[k]);
      var i := CrawledPost(browser, valid[k], kw.1);
      assert i.status[..6] == PostCrawl.ERROR;
      assert i.status[0] == 'e';
    }
  }

  /** The posts table has one record per harvested post address, in order,
      and carries the keyword's neighbourhood. */
  lemma PostsFollowLinks(search: string -> seq<Screen>, browser: string -> Nav, day: Date, kw: (string, string))
    ensures var out := KeywordDay(search, browser, day, kw);
      |out.posts| == |Filter(out.links, IsPostRow)| &&
      forall k :: 0 <= k < |out.posts| ==>
        out.posts[k].link == Filter(out.links, IsPostRow)[k].link && out.posts[k].dong == kw.1 &&
        IsPostLink(out.posts[k].link)
  {
    var out := KeywordDay(search, browser, day, kw);
    var valid := Filter(out.links, IsPostRow);
    assert out.posts == Map(CrawlOf(browser, kw.1), valid);
    forall k | 0 <= k < |out.posts|
      ensures out.posts[k].link == valid[k].link && out.posts[k].dong == kw.1 && IsPostLink(out.posts[k].link)
    {
      assert IsPostRow(valid[k]);
      CrawledPostRow(browser, valid[k], kw.1);
    }
  }

  /** A crawled record names the row's address and the neighbourhood it was crawled for. */
  lemma CrawledPostRow(browser: string -> Nav, row: LinkRow, dong: string)
    ensures CrawledPost(browser, row, dong).link == row.link && CrawledPost(browser, row, dong).dong == dong
  {
  }

  /** The body of the `run_daily` loop. */
  method RunKeyword(search: string -> seq<Screen>, browser: string -> Nav, day: Date, kw: (string, string)) returns (out: DayOutput)
    ensures out == KeywordDay(search, browser, day, kw)
  {
    var (query, dong) := kw;
    var links := CrawlDayLinks(search, query, day);
    var linksPath := OutPath(query, day, "day_links", "links_");
    var valid := Filter(links, IsPostRow);
    var posts := CrawlPosts(browser, valid, dong);
    var postsPath := OutPath(query, day, "day_posts", "posts_");
    out := DayOutput(linksPath, links, postsPath, posts);
  }

  /** One keyword of `run_daily`, as a function of the keyword. */
  function DayRun(search: string -> seq<Screen>, browser: string -> Nav, day: Date): ((string, string)) -> DayOutput
  {
    (kw: (string, string)) => KeywordDay(search, browser, day, kw)
  }

  /** The loop of `run_daily` over a list of keywords. */
  method RunKeywords(search: string -> seq<Screen>, browser: string -> Nav, day: Date, kws: seq<(string, string)>) returns (outs: seq<DayOutput>)
    ensures outs == Map(DayRun(search, browser, day), kws)
  {
    outs := [];
    for k := 0 to |kws|
      invariant outs == Map(DayRun(search, browser, day), kws[..k])
    {
      var out := RunKeyword(search, browser, day, kws[k]);
      MapStep(DayRun(search, browser, day), kws, k, outs, out);
      outs := outs + [out];
    }
    assert kws[..|kws|] == kws;
  }

  /** `run_daily()`: the day before `today`, one output per keyword, in
      `KEYWORDS` order. */
  method RunDaily(search: string -> seq<Screen>, browser: string -> Nav, today: Date) returns (outs: seq<DayOutput>)
    requires Valid(today) && today != FIRST
    ensures |outs| == |Step1Links.KEYWORDS|
    ensures forall k :: 0 <= k < |outs| ==>
      outs[k] == KeywordDay(search, browser, TargetDay(None, today), Step1Links.KEYWORDS[k])
  {
    var day := TargetDay(None, today);
    outs := RunKeywords(search, browser, day, Step1Links.KEYWORDS);
  }
}
