/** step2/crawler_step2.py: the per-day detail crawl.  It keeps every link the
    substring test accepts (duplicates included), takes the ids by path index,
    reads body, tags, images and videos from the parsed page source, and lets
    the LAST selector whose count text parses decide each count.  The like and
    comment selectors come from a module that is not part of this model, so
    they are parameters. */
module CrawlerStep2 {
  import opened Base
  import opened Common
  import opened Calendar
  import opened Lists
  import opened TextParse
  import opened PostUrl
  import opened Page
  import opened Extraction
  import opened PostCrawl
  import opened Extractor

  // ---------------------------------------------------------------------------
  // The count loops

  /** `int(els[0].text.replace(",", ""))` for the elements `css` matches; None
      when nothing matches or when `int` raises (the bare `except` swallows it). */
  function SelectorInt(page: Elem, css: string): Option<int>
  {
    var els := page.css(css);
    if |els| == 0 then None else PyInt(RemoveChar(els[0].text, ','))
  }

  /** The value a loop over `xs` ends with when each element whose `f` is
      not None overwrites the value before. */
  function LastSome<A, B>(f: A -> Option<B>, xs: seq<A>): Option<B>
    decreases |xs|
  {
    if xs == [] then None
    else
      var v := f(xs[|xs| - 1]);
      if v.Some? then v else LastSome(f, xs[..|xs| - 1])
  }

  lemma {:induction false} LastSomeLast<A, B>(f: A -> Option<B>, xs: seq<A>, k: nat)
    requires k < |xs| && f(xs[k]).Some?
    requires forall j :: k < j < |xs| ==> f(xs[j]).None?
    ensures LastSome(f, xs) == f(xs[k])
    decreases |xs|
  {
    var n := |xs| - 1;
    if k < n {
      assert forall j :: k < j < n ==> xs[..n][j] == xs[j];
      LastSomeLast(f, xs[..n], k);
    }
  }

  lemma {:induction false} LastSomeNone<A, B>(f: A -> Option<B>, xs: seq<A>)
    ensures LastSome(f, xs).None? <==> forall j :: 0 <= j < |xs| ==> f(xs[j]).None?
    decreases |xs|
  {
    if xs != [] {
      var n := |xs| - 1;
      LastSomeNone(f, xs[..n]);
      assert forall j :: 0 <= j < n ==> xs[..n][j] == xs[j];
    }
  }

  /** The count of each selector, for one page. */
  function SelectorIntOf(page: Elem): string -> Option<int>
  {
    css => SelectorInt(page, css)
  }

  /** The count once every selector has been tried: each one that yields a
      number overwrites the one before. */
  function LastWins(page: Elem, sels: seq<string>): Option<int>
  {
    LastSome(SelectorIntOf(page), sels)
  }

  /** The selector that decides is the last one yielding a number. */
  lemma LastWinsLast(page: Elem, sels: seq<string>, k: nat)
    requires k < |sels| && SelectorInt(page, sels[k]).Some?
    requires forall j :: k < j < |sels| ==> SelectorInt(page, sels[j]).None?
    ensures LastWins(page, sels) == SelectorInt(page, sels[k])
  {
    LastSomeLast(SelectorIntOf(page), sels, k);
  }

  /** The count stays None exactly when no selector yields a number. */
  lemma LastWinsNone(page: Elem, sels: seq<string>)
    ensures LastWins(page, sels).None? <==> forall j :: 0 <= j < |sels| ==> SelectorInt(page, sels[j]).None?
  {
    LastSomeNone(SelectorIntOf(page), sels);
  }

  /** Unlike the first-wins readers of the other crawlers, a later selector
      overrides an earlier one. */
  lemma LastWinsOverrides(page: Elem, first: string, second: string)
    requires SelectorInt(page, first).Some? && SelectorInt(page, second).Some?
    ensures LastWins(page, [first, second]) == SelectorInt(page, second)
  {
    LastWinsLast(page, [first, second], 1);
  }

  /** `for css in SELECTORS: ...` as `crawl_one` runs it. */
  method ReadCount(page: Elem, sels: seq<string>) returns (r: Option<int>)
    ensures r == LastWins(page, sels)
  {
    r := None;
    for i := 0 to |sels|
      invariant r == LastWins(page, sels[..i])
    {
      assert sels[..i + 1][..i] == sels[..i];
      var els := page.css(sels[i]);
      if |els| > 0 {
        var v := PyInt(RemoveChar(els[0].text, ','));
        if v.Some? {
          r := v;
        }
      }
    }
    assert sels[..|sels|] == sels;
  }

  // ---------------------------------------------------------------------------
  // crawl_one

  /** What a crawl observes: the browser, the parse of a page's source, and
      the like and comment selectors. */
  datatype Site = Site(browser: string -> Nav, soupOf: Elem -> Soup, likeSels: seq<string>, commentSels: seq<string>)

  /** `crawl_one(driver, row, keyword)`.  The neighbourhood is the keyword's
      first word, taken before the `try`, so a blank keyword raises
      IndexError out of the call.  `goto_post_view` only navigates; a fault
      there gives "error:<type>".  `soupOf` is the parse of a page's source. */
  function Crawled(site: Site, row: Row, keyword: string): (r: Result<Info>)
    ensures r.Err? <==> Words(keyword) == []
    ensures r.Err? ==> r.fault == "IndexError"
    ensures r.Ok? ==> r.value.platform == "blog" && r.value.dong == Words(keyword)[0]
    ensures r.Ok? ==> r.value.title == row.title && r.value.link == row.link
    ensures r.Ok? ==> (r.value.status == "ok" <==> site.browser(row.link).fault.None?)
    ensures r.Ok? && r.value.status != "ok" ==>
      r.value == Blank(row, Words(keyword)[0]).(status := ERROR + site.browser(row.link).fault.value)
    ensures r.Ok? && r.value.status == "ok" ==>
      (r.value.authorId, r.value.postId) == ExtractIdsByIndex(site.browser(row.link).at)
    ensures r.Ok? && r.value.status == "ok" ==>
      StartsWith(r.value.bloggerlink, BLOG_PREFIX) && r.value.bloggerlink[|BLOG_PREFIX|..] == r.value.authorId
    ensures r.Ok? && r.value.status == "ok" ==> |r.value.content| <= BODY_LIMIT
    ensures r.Ok? && r.value.status == "ok" ==>
      r.value.like == LastWins(site.browser(row.link).page, site.likeSels) &&
      r.value.comment == LastWins(site.browser(row.link).page, site.commentSels)
  {
    var words := Words(keyword);
    if words == [] then Err("IndexError")
    else
      var info := Blank(row, words[0]);
      var nav := site.browser(row.link);
      if nav.fault.Some? then ErrorStatus(nav.fault.value); Ok(info.(status := ERROR + nav.fault.value))
      else
        var ids := ExtractIdsByIndex(nav.at);
        var soup := site.soupOf(nav.page);
        Ok(info.(
          authorId := ids.0, postId := ids.1, bloggerlink := BLOG_PREFIX + ids.0,
          content := ExtractBody(soup),
          hashtags := Join(TagTexts(soup.select(TAG_SELECTOR)), "|"),
          images := Join(HttpSrcs(soup.select("img")), "|"),
          videos := Join(VideoSrcs(soup.select("iframe")), "|"),
          like := LastWins(nav.page, site.likeSels),
          comment := LastWins(nav.page, site.commentSels)))
  }

  /** A reached post whose address carries no author id still gets the bare
      blog prefix as its blog link. */
  lemma BlogLinkWithoutId(site: Site, row: Row, keyword: string)
    requires Crawled(site, row, keyword).Ok?
    requires Crawled(site, row, keyword).value.status == "ok"
    requires ExtractIdsByIndex(site.browser(row.link).at).0 == ""
    ensures Crawled(site, row, keyword).value.bloggerlink == BLOG_PREFIX
  {
    var i := Crawled(site, row, keyword).value;
    assert i.bloggerlink[..|BLOG_PREFIX|] == BLOG_PREFIX;
    assert i.bloggerlink == i.bloggerlink[..|BLOG_PREFIX|] + i.bloggerlink[|BLOG_PREFIX|..];
  }

  /** `crawl_one` as written: the record filled field by field. */
  method CrawlOne(site: Site, row: Row, keyword: string) returns (r: Result<Info>)
    ensures r == Crawled(site, row, keyword)
  {
    var words := Words(keyword);
    if words == [] {
      return Err("IndexError");
    }
    var info := Blank(row, words[0]);
    var nav := site.browser(row.link);
    if nav.fault.Some? {
      info := info.(status := ERROR + nav.fault.value);
      return Ok(info);
    }
    var ids := ExtractIdsByIndex(nav.at);
    info := info.(authorId := ids.0, postId := ids.1, bloggerlink := BLOG_PREFIX + ids.0);
    var soup := site.soupOf(nav.page);
    info := info.(content := ExtractBody(soup));
    var tags := ExtractTags(soup);
    var imgs := ExtractImages(soup);
    var vids := ExtractVideos(soup);
    info := info.(hashtags := tags, images := imgs, videos := vids);
    var like := ReadCount(nav.page, site.likeSels);
    info := info.(like := like);
    var comment := ReadCount(nav.page, site.commentSels);
    info := info.(comment := comment);
    return Ok(info);
  }

  // ---------------------------------------------------------------------------
  // run_step2_for_day

  predicate IsSeed(r: Row)
  {
    LooseIsPostUrl(r.link)
  }

  /** `blog_{sanitize_for_fname(keyword)}_{YYYYMMDD}.csv`. */
  function FileName(keyword: string, day: Date): (f: string)
    ensures StartsWith(f, "blog_") && EndsWith(f, ".csv") && |f| == 18 + |SanitizeForFname(keyword)|
    ensures f[5..|f| - 13] == SanitizeForFname(keyword)
    ensures f[|f| - 12..|f| - 4] == Ymd(day)
  {
    var slug, stamp := SanitizeForFname(keyword), Ymd(day);
    var f := DatedName("blog_", slug, stamp);
    assert |f| - 13 == 5 + |slug| && |f| - 12 == |f| - 4 - |stamp|;
    f
  }

  /** `[f(x) for x in xs]` where `f` may raise: the results in order, or
      the first exception, which ends the loop. */
  function MapResult<T, U>(f: T -> Result<U>, xs: seq<T>): Result<seq<U>>
    decreases |xs|
  {
    if xs == [] then Ok([])
    else
      var before := MapResult(f, xs[..|xs| - 1]);
      var last := f(xs[|xs| - 1]);
      if before.Err? then before
      else if last.Err? then Err(last.fault)
      else Ok(before.value + [last.value])
  }

  /** The loop fails exactly when some call raises, with the exception of
      the first such call; otherwise it yields one result per input, in order. */
  lemma {:induction false} MapResultFacts<T, U>(f: T -> Result<U>, xs: seq<T>)
    ensures MapResult(f, xs).Err? <==> exists k :: 0 <= k < |xs| && f(xs[k]).Err?
    ensures MapResult(f, xs).Err? ==> exists k :: (0 <= k < |xs| && f(xs[k]).Err? &&
      MapResult(f, xs).fault == f(xs[k]).fault && forall j :: 0 <= j < k ==> f(xs[j]).Ok?)
    ensures MapResult(f, xs).Ok? ==> |MapResult(f, xs).value| == |xs|
    ensures MapResult(f, xs).Ok? ==> forall k :: 0 <= k < |xs| ==> f(xs[k]) == Ok(MapResult(f, xs).value[k])
    decreases |xs|
  {
    if xs != [] {
      var n := |xs| - 1;
      MapResultFacts(f, xs[..n]);
      assert forall k :: 0 <= k < n ==> xs[..n][k] == xs[k];
    }
  }

  /** `crawl_one` of one seed under the run's keyword. */
  function CrawlOf(site: Site, keyword: string): Row -> Result<Info>
  {
    row => Crawled(site, row, keyword)
  }

  /** The records of the crawl loop of `run_step2_for_day`: IndexError
      exactly when the keyword is blank and there is a seed, else one record
      per seed, in order. */
  lemma CrawlLoopFacts(site: Site, seeds: seq<Row>, keyword: string)
    ensures MapResult(CrawlOf(site, keyword), seeds).Err? <==> seeds != [] && Words(keyword) == []
    ensures MapResult(CrawlOf(site, keyword), seeds).Err? ==> MapResult(CrawlOf(site, keyword), seeds).fault == "IndexError"
    ensures MapResult(CrawlOf(site, keyword), seeds).Ok? ==>
      |MapResult(CrawlOf(site, keyword), seeds).value| == |seeds|
    ensures MapResult(CrawlOf(site, keyword), seeds).Ok? ==> forall k :: 0 <= k < |seeds| ==>
      Crawled(site, seeds[k], keyword) == Ok(MapResult(CrawlOf(site, keyword), seeds).value[k])
  {
    var f := CrawlOf(site, keyword);
    MapResultFacts(f, seeds);
    if seeds != [] && Words(keyword) == [] {
      assert f(seeds[0]).Err?;
    }
  }

  /** The crawl loop of `run_step2_for_day`. */
  method CrawlAll(site: Site, seeds: seq<Row>, keyword: string) returns (r: Result<seq<Info>>)
    ensures r == MapResult(CrawlOf(site, keyword), seeds)
  {
    var out: seq<Info> := [];
    for k := 0 to |seeds|
      invariant MapResult(CrawlOf(site, keyword), seeds[..k]) == Ok(out)
    {
      assert seeds[..k + 1][..k] == seeds[..k];
      var info := CrawlOne(site, seeds[k], keyword);
      if info.Err? {
        CrawlLoopFacts(site, seeds, keyword);
        return Err(info.fault);
      }
      out := out + [info.value];
    }
    assert seeds[..|seeds|] == seeds;
    return Ok(out);
  }

  /** `run_step2_for_day(keyword, link_csv_path, save_dir, day)` without the
      file I/O: the path written and the rows written there, or the
      exception that ends the run before anything is written. */
  method RunStep2ForDay(site: Site, keyword: string, rows: seq<Row>, saveDir: string, day: Date)
    returns (r: Result<(string, seq<Info>)>)
    ensures r.Err? <==> Filter(rows, IsSeed) != [] && Words(keyword) == []
    ensures r.Ok? ==> r.value.0 == PathJoin(saveDir, FileName(keyword, day))
    ensures r.Ok? ==> |r.value.1| == |Filter(rows, IsSeed)|
    ensures r.Ok? ==> forall k :: 0 <= k < |r.value.1| ==>
      Crawled(site, Filter(rows, IsSeed)[k], keyword) == Ok(r.value.1[k])
  {
    var seeds := Filter(rows, IsSeed);
    var out := CrawlAll(site, seeds, keyword);
    CrawlLoopFacts(site, seeds, keyword);
    if out.Err? {
      return Err(out.fault);
    }
    var path := PathJoin(saveDir, FileName(keyword, day));
    return Ok((path, out.value));
  }

  /** Nothing is deduplicated: a link listed twice is crawled twice. */
  lemma SeedsKeepRepeats(r: Row)
    requires IsSeed(r)
    ensures Filter([r, r], IsSeed) == [r, r]
  {
    FilterAll([r, r], IsSeed);
  }
}
