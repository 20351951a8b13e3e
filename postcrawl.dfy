/** What `crawl_one` and the run around it do identically in step2_posts.py
    and crawling/daily/step2_posts.py: the output record, the seeds taken from
    the links table, and the visit of one post up to (not including) its like
    and comment counts.  The selectors the two versions try differ and are a
    `Variant`. */
module PostCrawl {
  import opened Base
  import opened Common
  import opened TextParse
  import opened Dedup
  import opened Lists
  import opened PostUrl
  import opened Page
  import opened Extraction

  /** A row of the links table; a missing column reads as "". */
  datatype Row = Row(title: string, link: string, dong: string)

  /** One output record (the `crawled_at` clock column is not modelled). */
  datatype Info = Info(
    platform: string,
    dong: string,
    title: string,
    link: string,
    bloggername: string,
    bloggerlink: string,
    postdate: string,
    content: string,
    hashtags: string,
    images: string,
    videos: string,
    like: Option<int>,
    comment: Option<int>,
    authorId: string,
    postId: string,
    status: string)

  /** The selectors a version tries. */
  datatype Variant = Variant(names: seq<string>, dates: seq<string>, profile: Profile)

  const BLOG_PREFIX := "https://blog.naver.com/"
  const SKIP := "skip_non_post_url"
  const FAILED_GOTO := "failed_goto_view"
  const ERROR := "error:"

  /** The record before the crawl starts. */
  function Blank(row: Row, dong: string): (i: Info)
    ensures i.status == "ok" && i.platform == "blog"
    ensures i.dong == dong && i.title == row.title && i.link == row.link
    ensures i.like.None? && i.comment.None?
  {
    Info("blog", dong, row.title, row.link, "", "", "", "", "", "", "", None, None, "", "", "ok")
  }

  /** `bloggerlink`: set only when the author id is known. */
  function BlogLink(aid: string): (r: string)
    ensures r == "" <==> aid == ""
    ensures aid != "" ==> StartsWith(r, BLOG_PREFIX) && r[|BLOG_PREFIX|..] == aid
  {
    if aid != "" then BLOG_PREFIX + aid else ""
  }

  /** `extract_bloggername(driver, aid)`: the first name shown, else the id. */
  function BloggerName(page: Elem, names: seq<string>, aid: string): (r: string)
    ensures r == "" <==> FirstText(page, names) == "" && aid == ""
    ensures FirstText(page, names) == "" ==> r == aid
  {
    var name := FirstText(page, names);
    if name != "" then name else aid
  }

  /** An "error:" status is none of the others. */
  lemma ErrorStatus(fault: string)
    ensures var s := ERROR + fault; StartsWith(s, ERROR) && s != "ok" && s != SKIP && s != FAILED_GOTO
  {
    var s := ERROR + fault;
    assert s[0] == 'e' && s[..|ERROR|] == ERROR;
  }

  /** How far a visit got: stopped with a final record, or on the post page
      with everything but the counts filled in. */
  datatype Visit = Stopped(info: Info) | Reached(info: Info, page: Elem)

  /** `crawl_one` up to the counts. */
  function VisitOf(browser: string -> Nav, v: Variant, row: Row, dong: string): (r: Visit)
    ensures r.info.platform == "blog" && r.info.dong == dong && r.info.title == row.title && r.info.link == row.link
    ensures r.info.like.None? && r.info.comment.None?
    ensures r.info.status == SKIP <==> !IsPostUrl(row.link, true)
    ensures r.info.status == FAILED_GOTO <==>
      IsPostUrl(row.link, true) && GotoPostView(browser, row.link).Ok? && !GotoPostView(browser, row.link).value.ok
    ensures r.Reached? <==> r.info.status == "ok"
    ensures r.Stopped? && r.info.status != SKIP && r.info.status != FAILED_GOTO ==> StartsWith(r.info.status, ERROR)
  {
    var info := Blank(row, dong);
    if !IsPostUrl(row.link, true) then Stopped(info.(status := SKIP))
    else
      var g := GotoPostView(browser, row.link);
      if g.Err? then ErrorStatus(g.fault); Stopped(info.(status := ERROR + g.fault))
      else if !g.value.ok then Stopped(info.(status := FAILED_GOTO))
      else
        var page := g.value.page;
        var ids := ExtractIds(g.value.at);
        var named := info.(
          authorId := ids.0, postId := ids.1, bloggerlink := BlogLink(ids.0),
          bloggername := BloggerName(page, v.names, ids.0),
          postdate := PostDate(FirstText(page, v.dates)));
        var ex := Extract(page, v.profile);
        if ex.Err? then ErrorStatus(ex.fault); Stopped(named.(status := ERROR + ex.fault))
        else
          var e := ex.value;
          Reached(named.(
            content := e.body, hashtags := Join(Dedup.Dedup(e.tags), "|"),
            images := Join(e.imgs, "|"), videos := Join(e.vids, "|")), page)
  }

  /** A visit that reaches the post took the ids from the address the browser
      landed at, and filled the record from that page. */
  lemma VisitReached(browser: string -> Nav, v: Variant, row: Row, dong: string)
    requires VisitOf(browser, v, row, dong).Reached?
    ensures var r := VisitOf(browser, v, row, dong);
      var g := GotoPostView(browser, row.link);
      var ex := Extract(r.page, v.profile);
      IsPostUrl(row.link, true) && g.Ok? && g.value.ok && r.page == g.value.page &&
      (r.info.authorId, r.info.postId) == ExtractIds(g.value.at) &&
      (r.info.bloggerlink == "" <==> r.info.authorId == "") &&
      (r.info.postdate == "" || (|r.info.postdate| == 8 && AllDigits(r.info.postdate))) &&
      ex.Ok? && |r.info.content| <= BODY_LIMIT && r.info.content == ex.value.body &&
      r.info.hashtags == Join(ex.value.tags, "|") &&
      r.info.images == Join(ex.value.imgs, "|") && r.info.videos == Join(ex.value.vids, "|")
  {
    var r := VisitOf(browser, v, row, dong);
    ExtractFacts(r.page, v.profile);
    var tags := Extract(r.page, v.profile).value.tags;
    KeysOfId(tags);
    DedupByUnique(tags, Id);
  }

  /** An exception raised while reading the post page keeps what was
      already recorded: ids, blog link, name and date, but no content. */
  lemma VisitRootsMissing(browser: string -> Nav, v: Variant, row: Row, dong: string)
    requires IsPostUrl(row.link, true)
    requires GotoPostView(browser, row.link).Ok? && GotoPostView(browser, row.link).value.ok
    requires Extract(GotoPostView(browser, row.link).value.page, v.profile).Err?
    ensures var r := VisitOf(browser, v, row, dong);
      var g := GotoPostView(browser, row.link).value;
      r.Stopped? && r.info.status == ERROR + NO_SUCH_ELEMENT &&
      (r.info.authorId, r.info.postId) == ExtractIds(g.at) &&
      r.info.bloggername == BloggerName(g.page, v.names, r.info.authorId) &&
      r.info.content == "" && r.info.hashtags == ""
  {
  }

  /** The visit, as `crawl_one` performs it. */
  method VisitPost(browser: string -> Nav, v: Variant, row: Row, dong: string) returns (r: Visit)
    ensures r == VisitOf(browser, v, row, dong)
  {
    var info := Blank(row, dong);
    if !IsPostUrl(row.link, true) {
      info := info.(status := SKIP);
      return Stopped(info);
    }
    var g := GotoPostView(browser, row.link);
    if g.Err? {
      info := info.(status := ERROR + g.fault);
      return Stopped(info);
    }
    if !g.value.ok {
      info := info.(status := FAILED_GOTO);
      return Stopped(info);
    }
    var page := g.value.page;
    var ids := ExtractIds(g.value.at);
    info := info.(authorId := ids.0, postId := ids.1);
    if ids.0 != "" {
      info := info.(bloggerlink := BLOG_PREFIX + ids.0);
    }
    var name := GetFirstText(page, v.names);
    info := info.(bloggername := if name != "" then name else ids.0);
    var rawDate := GetFirstText(page, v.dates);
    info := info.(postdate := PostDate(rawDate));
    var ex := ExtractBodyTagsImgsVideos(page, v.profile);
    if ex.Err? {
      info := info.(status := ERROR + ex.fault);
      return Stopped(info);
    }
    info := info.(content := ex.value.body, hashtags := Join(Dedup.Dedup(ex.value.tags), "|"));
    info := info.(images := Join(ex.value.imgs, "|"), videos := Join(ex.value.vids, "|"));
    return Reached(info, page);
  }

  // ---------------------------------------------------------------------------
  // The seeds of a run

  predicate IsPostRow(r: Row)
  {
    IsPostUrl(r.link, true)
  }

  function LinkOf(r: Row): string
  {
    r.link
  }

  /** `df[df["link"].apply(is_post_url)].drop_duplicates(subset=["link"])`. */
  function Seeds(rows: seq<Row>): seq<Row>
  {
    DedupBy(Filter(rows, IsPostRow), LinkOf)
  }

  /** Every seed has a post address. */
  lemma SeedsArePosts(rows: seq<Row>)
    ensures forall k :: 0 <= k < |Seeds(rows)| ==> IsPostUrl(Seeds(rows)[k].link, true)
  {
    SeedsFacts(rows);
  }

  /** The seeds are rows of the table with post addresses and distinct links,
      and every post address of the table is among their links. */
  lemma SeedsFacts(rows: seq<Row>)
    ensures var s := Seeds(rows);
      (forall k :: 0 <= k < |s| ==> s[k] in rows && IsPostUrl(s[k].link, true)) &&
      (forall i, j :: 0 <= i < j < |s| ==> s[i].link != s[j].link) &&
      (forall r :: r in rows && IsPostUrl(r.link, true) ==> r.link in KeysOf(s, LinkOf))
  {
    var f := Filter(rows, IsPostRow);
    var s := Seeds(rows);
    DedupByFacts(f, LinkOf);
    forall k | 0 <= k < |s|
      ensures s[k] in rows && IsPostUrl(s[k].link, true)
    {
      assert s[k] in f;
      var i :| 0 <= i < |f| && f[i] == s[k];
    }
    forall r | r in rows && IsPostUrl(r.link, true)
      ensures r.link in KeysOf(Seeds(rows), LinkOf)
    {
      FilterKeeps(rows, IsPostRow, r);
      var i :| 0 <= i < |f| && f[i] == r;
      assert KeysOf(f, LinkOf)[i] == r.link;
    }
  }
}
