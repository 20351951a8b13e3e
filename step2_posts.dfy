/** step2_posts.py: the detail crawl of each post link of a links table, with
    like and comment counts read by selector, then by keyword, and a comment
    count of 0 inferred from an empty comment section. */
module Step2Posts {
  import opened Base
  import opened Dedup
  import opened Lists
  import opened PostUrl
  import opened Page
  import opened Extraction
  import opened Counts
  import opened PostCrawl

  const ROOTS := [
    "div.se-main-container", "div.se_component_wrap", "#postViewArea", "#postListBody",
    "div#content-area", "div#viewTypeSelector", "div#_post_content", "div.se_textView", "article"]
  const TAG_SELECTORS := [
    "span.se_hashtag", "a.link_tag", "a[href*='query=%23']", ".se_component a",
    "i.pcol2b", "a.pcol2b", ".tag_area a", ".post_tag a"]
  const VIDEO_KEYS := ["youtube.com", "tv.naver.com", "serviceapi.rmcnmv.naver.com", "player.vimeo.com"]
  const NAME_SELECTORS := [
    "#nickNameArea", "strong#nickNameArea", "a.link.pcol2", "a.link_name", "a#gnb_name",
    "span.nick", "span.nick_name", "em.nick", "div.se_profile a", "div.bloger > a"]
  const DATE_SELECTORS := [
    "span.se_publishDate", "span.se_date", "span#post_date", "p.date", "span.se_publishDate._postAddDate"]
  const LIKE_SELECTORS := [
    "span.u_likeit_text._count.num", "span.u_likeit_list_count._count",
    "button.u_likeit_list_btn span.u_cnt", "span._count._sympathyCount", "em.u_cnt._count"]
  const COMMENT_SELECTORS := [
    "span.u_cnt._commentCount", "a#CommentCount", "a#naverCommentCount", "#commentCount",
    "span#commentCount", "a[href*='comment'] span.num", "span.u_cbox_count", "em.u_cbox_count",
    "#floating_bottom_commentCount", "em#floating_bottom_commentCount"]
  const LIKE_KEYWORDS := ["공감"]
  const COMMENT_KEYWORDS := ["댓글"]

  const VARIANT := Variant(NAME_SELECTORS, DATE_SELECTORS, Profile(ROOTS, TAG_SELECTORS, true, VIDEO_KEYS, true))

  /** `get_int_by_selectors(...) or get_count_by_keyword_fallback(...)`: a
      selector count of 0 is falsy, so the keyword count replaces it. */
  function LikeCount(page: Elem): (r: Option<nat>)
    ensures var s := IntBySelectors(page, LIKE_SELECTORS);
      (s.Some? && s.value != 0 ==> r == s) &&
      (s.None? || s.value == 0 ==> r == KeywordCount(page, LIKE_KEYWORDS))
  {
    var s := IntBySelectors(page, LIKE_SELECTORS);
    if s.Some? && s.value != 0 then s else KeywordCount(page, LIKE_KEYWORDS)
  }

  /** The comment count: selectors, then the keyword, then 0 for an empty
      comment section. */
  function CommentCount(page: Elem): (r: Option<nat>)
    ensures IntBySelectors(page, COMMENT_SELECTORS).Some? ==> r == IntBySelectors(page, COMMENT_SELECTORS)
    ensures r.None? <==>
      IntBySelectors(page, COMMENT_SELECTORS).None? && KeywordCount(page, COMMENT_KEYWORDS).None? && !ZeroCommentUi(page)
    ensures r == Some(0) && IntBySelectors(page, COMMENT_SELECTORS).None? && KeywordCount(page, COMMENT_KEYWORDS).None? ==>
      ZeroCommentUi(page)
  {
    var s := IntBySelectors(page, COMMENT_SELECTORS);
    if s.Some? then s
    else
      var k := KeywordCount(page, COMMENT_KEYWORDS);
      if k.Some? then k
      else if ZeroCommentUi(page) then Some(0)
      else None
  }

  /** A like count of 0 read by selector is lost when no node names the
      keyword, while a comment count of 0 is kept. */
  lemma ZeroLikeLost(page: Elem)
    requires IntBySelectors(page, LIKE_SELECTORS) == Some(0)
    requires IntBySelectors(page, COMMENT_SELECTORS) == Some(0)
    requires forall i :: 0 <= i < |page.xpath(ALL_NODES)| ==> !Mentions(page.xpath(ALL_NODES)[i], LIKE_KEYWORDS)
    ensures LikeCount(page) == None
    ensures CommentCount(page) == Some(0)
  {
    NodeScanQuiet(page.xpath(ALL_NODES), LIKE_KEYWORDS);
  }

  /** `crawl_one(driver, row, administrative_dong)`. */
  function Crawled(browser: string -> Nav, row: Row, dong: string): (i: Info)
    ensures i.platform == "blog" && i.dong == dong && i.title == row.title && i.link == row.link
    ensures i.status == SKIP <==> !IsPostUrl(row.link, true)
    ensures i.status != "ok" ==> i.like.None? && i.comment.None?
  {
    var v := VisitOf(browser, VARIANT, row, dong);
    if v.Stopped? then v.info else v.info.(like := Widen(LikeCount(v.page)), comment := Widen(CommentCount(v.page)))
  }

  /** A crawled post carries the counts of the page the visit reached. */
  lemma CrawledCounts(browser: string -> Nav, row: Row, dong: string)
    requires Crawled(browser, row, dong).status == "ok"
    ensures var v := VisitOf(browser, VARIANT, row, dong);
      var i := Crawled(browser, row, dong);
      v.Reached? && i == v.info.(like := Widen(LikeCount(v.page)), comment := Widen(CommentCount(v.page)))
  {
  }

  method ReadLike(page: Elem) returns (r: Option<nat>)
    ensures r == LikeCount(page)
  {
    r := GetIntBySelectors(page, LIKE_SELECTORS);
    if r.None? || r.value == 0 {
      r := KeywordFallback(page, LIKE_KEYWORDS);
    }
  }

  method ReadComment(page: Elem) returns (r: Option<nat>)
    ensures r == CommentCount(page)
  {
    r := GetIntBySelectors(page, COMMENT_SELECTORS);
    if r.None? {
      r := KeywordFallback(page, COMMENT_KEYWORDS);
    }
    if r.None? {
      var zero := HasZeroCommentUi(page);
      if zero {
        r := Some(0);
      }
    }
  }

  method CrawlOne(browser: string -> Nav, row: Row, dong: string) returns (i: Info)
    ensures i == Crawled(browser, row, dong)
  {
    var v := VisitPost(browser, VARIANT, row, dong);
    if v.Stopped? {
      return v.info;
    }
    var like := ReadLike(v.page);
    var comment := ReadComment(v.page);
    i := v.info.(like := Widen(like), comment := Widen(comment));
  }

  /** `crawl_one` under the run's neighbourhood, as a function of the row. */
  function CrawlOf(browser: string -> Nav, dong: string): Row -> Info
  {
    row => Crawled(browser, row, dong)
  }

  /** The crawl loop of `run_step2`: one record per seed, in order. */
  method CrawlAll(browser: string -> Nav, seeds: seq<Row>, dong: string) returns (out: seq<Info>)
    ensures out == Map(CrawlOf(browser, dong), seeds)
  {
    out := [];
    for k := 0 to |seeds|
      invariant out == Map(CrawlOf(browser, dong), seeds[..k])
    {
      var info := CrawlOne(browser, seeds[k], dong);
      MapStep(CrawlOf(browser, dong), seeds, k, out, info);
      out := out + [info];
    }
    assert seeds[..|seeds|] == seeds;
  }

  /** `run_step2(links_csv_path, save_path, administrative_dong)` without the
      file I/O. */
  method RunStep2(browser: string -> Nav, rows: seq<Row>, dong: string) returns (out: seq<Info>)
    ensures |out| == |Seeds(rows)|
    ensures forall k :: 0 <= k < |out| ==> out[k] == Crawled(browser, Seeds(rows)[k], dong)
  {
    out := CrawlAll(browser, Seeds(rows), dong);
  }

  /** No seed of a run is skipped, and every record carries the run's
      neighbourhood. */
  lemma RunNeverSkips(browser: string -> Nav, rows: seq<Row>, dong: string)
    ensures forall k :: 0 <= k < |Seeds(rows)| ==>
      Crawled(browser, Seeds(rows)[k], dong).status != SKIP && Crawled(browser, Seeds(rows)[k], dong).dong == dong
  {
    SeedsArePosts(rows);
  }
}
