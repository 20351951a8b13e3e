/** crawling/daily/step1_links.py: the single-file version of the link
    harvest.  Its search URL, keywords and title selectors are those of
    step1_links.py; it differs in readiness (document loaded, nothing
    more), in keeping every link that contains the blog host, in taking the
    title from the anchor text only, in tagging rows with the keyword's
    neighbourhood, and in writing all keywords' rows to one file. */
module DailyStep1Links {
  import opened Base
  import opened Calendar
  import opened Dedup
  import opened Lists
  import opened Common
  import opened Page
  import opened Harvest
  import Step1Links

  // ---------------------------------------------------------------------------
  // list_seeds_for_day

  /** `"blog.naver.com" in href`. */
  predicate IsBlogLink(href: string)
  {
    Contains(href, BLOG_HOST)
  }

  /** No title fallback, displayed next buttons only. */
  const STYLE := Style(TITLE_SELECTORS, IsBlogLink, false, true)

  /** `list_seeds_for_day(driver, query, day, administrative_dong)`: nothing
      when the document does not finish loading (a session showing no page
      counts as that), else the harvest of the session with the
      neighbourhood on every row. */
  function SeedsForDay(search: string -> seq<Screen>, query: string, day: Date, dong: string): seq<LinkRow>
  {
    var pages := search(Step1Links.BuildSearchUrl(query, day));
    if pages == [] || !pages[0].complete then [] else Harvested(pages, STYLE, IsoDay(day), Some(dong))
  }

  method ListSeedsForDay(search: string -> seq<Screen>, query: string, day: Date, dong: string) returns (rows: seq<LinkRow>)
    ensures rows == SeedsForDay(search, query, day, dong)
  {
    var url := Step1Links.BuildSearchUrl(query, day);
    var pages := search(url);
    if pages == [] || !pages[0].complete {
      return [];
    }
    rows := HarvestPages(pages, STYLE, IsoDay(day), Some(dong));
  }

  /** Every row carries the neighbourhood and the day, a cleaned title and a
      link on the blog host; no link appears twice within a keyword; and
      every blog link of the pages read is among them. */
  lemma SeedsForDayFacts(search: string -> seq<Screen>, query: string, day: Date, dong: string)
    ensures var rows := SeedsForDay(search, query, day, dong);
      (forall i :: 0 <= i < |rows| ==>
        rows[i].dong == Some(dong) && rows[i].date == IsoDay(day) && IsClean(rows[i].title) &&
        Contains(rows[i].link, BLOG_HOST)) &&
      UniqueBy(rows, LinkOf)
    ensures var pages := search(Step1Links.BuildSearchUrl(query, day));
      pages != [] && pages[0].complete ==>
        forall c :: c in PagesRows(pages[..Visited(pages, true)], STYLE, IsoDay(day), Some(dong)) && Contains(c.link, BLOG_HOST) ==>
          c.link in KeysOf(SeedsForDay(search, query, day, dong), LinkOf)
  {
    var pages := search(Step1Links.BuildSearchUrl(query, day));
    if pages != [] && pages[0].complete {
      HarvestedFacts(pages, STYLE, IsoDay(day), Some(dong));
      PagesRowsFacts(pages[..Visited(pages, true)], STYLE, IsoDay(day), Some(dong));
    }
  }

  /** The title is the cleaned anchor text, never the `title` attribute. */
  lemma TitleIsAnchorText(a: Elem)
    ensures TitleOf(a, STYLE.titleFallback) == Clean(a.text)
  {
  }

  // ---------------------------------------------------------------------------
  // run_step1 and save_single_file

  /** The rows of one keyword of the run. */
  function KeywordRows(search: string -> seq<Screen>, day: Date): ((string, string)) -> seq<LinkRow>
  {
    (kw: (string, string)) => SeedsForDay(search, kw.0, day, kw.1)
  }

  /** `all_rows` after the loop of `run_step1`: each keyword's rows in turn. */
  function AllRows(search: string -> seq<Screen>, day: Date): seq<LinkRow>
  {
    FlatMap(KeywordRows(search, day), Step1Links.KEYWORDS)
  }

  /** The loop of `run_step1`. */
  method CollectAll(search: string -> seq<Screen>, day: Date) returns (all: seq<LinkRow>)
    ensures all == AllRows(search, day)
  {
    all := CollectKeywords(search, day, Step1Links.KEYWORDS);
  }

  /** The body of that loop, over any list of keywords. */
  method CollectKeywords(search: string -> seq<Screen>, day: Date, kws: seq<(string, string)>) returns (all: seq<LinkRow>)
    ensures all == FlatMap(KeywordRows(search, day), kws)
  {
    all := [];
    for k := 0 to |kws|
      invariant all == FlatMap(KeywordRows(search, day), kws[..k])
    {
      var (query, dong) := kws[k];
      var rows := ListSeedsForDay(search, query, day, dong);
      FlatMapStep(KeywordRows(search, day), kws, k, all, rows);
      all := all + rows;
    }
    assert kws[..|kws|] == kws;
  }

  /** `save_single_file(all_rows, target_day)` without the file I/O: nothing
      for no rows, else the path and the rows written, the first row of each
      link. */
  function SaveSingleFile(all: seq<LinkRow>, day: Date): (r: Option<(string, seq<LinkRow>)>)
    ensures r.None? <==> all == []
    ensures r.Some? ==> r.value.0 == "./data_html/" + YearText(day) + "/links" + "/links_all_" + Ymd(day) + ".csv"
  {
    if all == [] then None
    else
      var saveDir := "./data_html/" + YearText(day) + "/links";
      Some((saveDir + "/links_all_" + Ymd(day) + ".csv", DedupBy(all, LinkOf)))
  }

  /** The written table has each link of the run once, as the first row
      that carried it. */
  lemma SaveSingleFileFacts(all: seq<LinkRow>, day: Date)
    requires all != []
    ensures var w := SaveSingleFile(all, day).value.1;
      UniqueBy(w, LinkOf) &&
      (forall k :: k in KeysOf(w, LinkOf) <==> k in KeysOf(all, LinkOf)) &&
      (forall j :: 0 <= j < |w| ==> w[j].link in KeysOf(all, LinkOf) && w[j] == all[FirstIndex(all, LinkOf, w[j].link)])
  {
    DedupByFacts(all, LinkOf);
    DedupByFirstSeen(all, LinkOf);
  }

  /** `run_step1(target_day)` without the driver's lifetime: what is
      written, if anything, for the given day or else the day before `today`. */
  method RunStep1(search: string -> seq<Screen>, given: Option<Date>, today: Date) returns (r: Option<(string, seq<LinkRow>)>)
    requires Valid(today) && today != FIRST
    ensures r == SaveSingleFile(AllRows(search, TargetDay(given, today)), TargetDay(given, today))
  {
    var day := TargetDay(given, today);
    var all := CollectAll(search, day);
    r := SaveSingleFile(all, day);
  }

  /** Nothing is written exactly when no keyword yields a row. */
  lemma RunWritesNothing(search: string -> seq<Screen>, day: Date)
    ensures SaveSingleFile(AllRows(search, day), day).None? <==>
      forall k :: 0 <= k < |Step1Links.KEYWORDS| ==>
        SeedsForDay(search, Step1Links.KEYWORDS[k].0, day, Step1Links.KEYWORDS[k].1) == []
  {
    FlatMapEmpty(KeywordRows(search, day), Step1Links.KEYWORDS);
  }

  /** Of the rows of several keywords taken in turn, the row kept for a
      link comes from the first keyword whose rows have that link. */
  lemma FirstKeywordDecides(f: ((string, string)) -> seq<LinkRow>, kws: seq<(string, string)>, i: nat, link: string)
    requires i < |kws|
    requires link in KeysOf(f(kws[i]), LinkOf)
    requires link !in KeysOf(FlatMap(f, kws[..i]), LinkOf)
    ensures forall y :: y in DedupBy(FlatMap(f, kws), LinkOf) && y.link == link ==> y in f(kws[i])
  {
    FlatMapAround(f, kws, i);
    DedupByFirstBlock(FlatMap(f, kws[..i]), f(kws[i]), FlatMap(f, kws[i + 1..]), LinkOf, link);
  }

  /** A link that several keywords found is written once, with the
      neighbourhood of the first keyword (in `KEYWORDS` order) that found it. */
  lemma SharedLinkKeepsFirstKeyword(search: string -> seq<Screen>, day: Date, i: nat, link: string)
    requires i < |Step1Links.KEYWORDS|
    requires link in KeysOf(KeywordRows(search, day)(Step1Links.KEYWORDS[i]), LinkOf)
    requires link !in KeysOf(FlatMap(KeywordRows(search, day), Step1Links.KEYWORDS[..i]), LinkOf)
    ensures AllRows(search, day) != []
    ensures forall y :: y in SaveSingleFile(AllRows(search, day), day).value.1 && y.link == link ==>
      y.dong == Some(Step1Links.KEYWORDS[i].1)
  {
    var f, kws := KeywordRows(search, day), Step1Links.KEYWORDS;
    FirstKeywordDecides(f, kws, i, link);
    FlatMapEmpty(f, kws);
    SeedsForDayFacts(search, kws[i].0, day, kws[i].1);
  }
}
