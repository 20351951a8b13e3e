/** crawling/daily/step2_posts.py: the single-file detail crawl.  It tries
    fewer selectors than step2_posts.py, takes the neighbourhood from each
    row, and reads the counts by selector only, without a `try`: a count text
    such as "," raises a ValueError that ends the crawl of the post. */
module DailyStep2Posts {
  import opened Base
  import opened PostUrl
  import opened Page
  import opened Extraction
  import opened Counts
  import opened PostCrawl
  import opened Lists

  const ROOTS := [
    "div.se-main-container", "div.se_component_wrap", "#postViewArea", "div#content-area",
    "div#viewTypeSelector", "div#_post_content", "div.se_textView", "article"]
  const TAG_SELECTORS := ["span.se_hashtag", "a.link_tag", ".tag_area a", ".post_tag a", "a[href*='query=%23']"]
  const VIDEO_KEYS := ["youtube", "tv.naver", "vimeo"]
  const NAME_SELECTORS := ["#nickNameArea", "strong#nickNameArea", "a.link.pcol2", "span.nick", "em.nick", "div.bloger > a"]
  const DATE_SELECTORS := ["span.se_publishDate", "span#post_date"]
  const LIKE_SELECTORS := ["span.u_likeit_text._count.num", "span.u_likeit_list_count._count"]
  const COMMENT_SELECTORS := ["span.u_cnt._commentCount", "#commentCount", "span.u_cbox_count"]

  const VARIANT := Variant(NAME_SELECTORS, DATE_SELECTORS, Profile(ROOTS, TAG_SELECTORS, false, VIDEO_KEYS, false))

  /** The counts of a reached post: the like count is stored before the
      comment count is read, so it survives a ValueError there. */
  function WithCounts(info: Info, page: Elem): (r: Info)
    ensures r.link == info.link && r.dong == info.dong && r.content == info.content
    ensures r.status == info.status || r.status == ERROR + "ValueError"
    ensures r.comment != info.comment ==> r.status == info.status
  {
    var like := IntBySelectorsStrict(page, LIKE_SELECTORS);
    if like.Err? then info.(status := ERROR + like.fault)
    else
      var comment := IntBySelectorsStrict(page, COMMENT_SELECTORS);
      if comment.Err? then info.(like := Widen(like.value), status := ERROR + comment.fault)
      else info.(like := Widen(like.value), comment := Widen(comment.value))
  }

  /** `crawl_one(driver, row)`. */
  function Crawled(browser: string -> Nav, row: Row): (i: Info)
    ensures i.platform == "blog" && i.dong == row.dong && i.title == row.title && i.link == row.link
    ensures i.comment.Some? ==> i.status == "ok"
  {
    Counted(VisitOf(browser, VARIANT, row, row.dong))
  }

  /** The record of a visit, with the counts read where it reached the post. */
  function Counted(v: Visit): (i: Info)
    requires v.Reached? <==> v.info.status == "ok"
    requires v.info.comment.None?
    ensures i.platform == v.info.platform && i.dong == v.info.dong && i.title == v.info.title && i.link == v.info.link
    ensures i.comment.Some? ==> i.status == "ok"
  {
    if v.Stopped? then v.info else WithCounts(v.info, v.page)
  }

  /** The post is skipped exactly when its address is not a post address. */
  lemma CrawledSkip(browser: string -> Nav, row: Row)
    ensures Crawled(browser, row).status == SKIP <==> !IsPostUrl(row.link, true)
  {
    ErrorStatus("ValueError");
  }

  /** Where neither count raises, the counts are those the tolerant reader of
      step2_posts.py finds by selector. */
  lemma CountsAgree(info: Info, page: Elem)
    requires WithCounts(info, page).status == "ok"
    ensures WithCounts(info, page).like == Widen(IntBySelectors(page, LIKE_SELECTORS))
    ensures WithCounts(info, page).comment == Widen(IntBySelectors(page, COMMENT_SELECTORS))
  {
    StrictAgrees(page, LIKE_SELECTORS);
    StrictAgrees(page, COMMENT_SELECTORS);
  }

  /** A comment count that raises leaves the like count already read, and
      records the error. */
  lemma CommentErrorKeepsLike(info: Info, page: Elem)
    requires info.comment.None?
    requires IntBySelectorsStrict(page, LIKE_SELECTORS).Ok?
    requires IntBySelectorsStrict(page, COMMENT_SELECTORS).Err?
    ensures WithCounts(info, page).status == ERROR + "ValueError"
    ensures WithCounts(info, page).like == Widen(IntBySelectorsStrict(page, LIKE_SELECTORS).value)
    ensures WithCounts(info, page).comment.None?
  {
  }

  method ReadCounts(info: Info, page: Elem) returns (r: Info)
    ensures r == WithCounts(info, page)
  {
    r := info;
    var like := GetIntBySelectorsStrict(page, LIKE_SELECTORS);
    if like.Err? {
      r := r.(status := ERROR + like.fault);
      return;
    }
    r := r.(like := Widen(like.value));
    var comment := GetIntBySelectorsStrict(page, COMMENT_SELECTORS);
    if comment.Err? {
      r := r.(status := ERROR + comment.fault);
      return;
    }
    r := r.(comment := Widen(comment.value));
  }

  method CrawlOne(browser: string -> Nav, row: Row) returns (i: Info)
    ensures i == Crawled(browser, row)
  {
    var v := VisitPost(browser, VARIANT, row, row.dong);
    if v.Stopped? {
      return v.info;
    }
    i := ReadCounts(v.info, v.page);
  }

  /** `crawl_one` as a function of the row. */
  function CrawlOf(browser: string -> Nav): Row -> Info
  {
    row => Crawled(browser, row)
  }

  /** The crawl loop of `run_step2_single`: one record per seed, in order. */
  method CrawlAll(browser: string -> Nav, seeds: seq<Row>) returns (out: seq<Info>)
    ensures out == Map(CrawlOf(browser), seeds)
  {
    out := [];
    for k := 0 to |seeds|
      invariant out == Map(CrawlOf(browser), seeds[..k])
    {
      var info := CrawlOne(browser, seeds[k]);
      MapStep(CrawlOf(browser), seeds, k, out, info);
      out := out + [info];
    }
    assert seeds[..|seeds|] == seeds;
  }

  /** `run_step2_single(links_csv_path, save_path)` without the file I/O. */
  method RunStep2Single(browser: string -> Nav, rows: seq<Row>) returns (out: seq<Info>)
    ensures |out| == |Seeds(rows)|
    ensures forall k :: 0 <= k < |out| ==> out[k] == Crawled(browser, Seeds(rows)[k])
  {
    out := CrawlAll(browser, Seeds(rows));
  }

  /** No seed of a run is skipped. */
  lemma RunNeverSkips(browser: string -> Nav, rows: seq<Row>)
    ensures forall k :: 0 <= k < |Seeds(rows)| ==> Crawled(browser, Seeds(rows)[k]).status != SKIP
  {
    SeedsArePosts(rows);
    forall k | 0 <= k < |Seeds(rows)|
      ensures Crawled(browser, Seeds(rows)[k]).status != SKIP
    {
      CrawledSkip(browser, Seeds(rows)[k]);
    }
  }
}
