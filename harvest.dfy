/** The link harvest of the stage-1 collectors (step1_links.py,
    crawling/daily/step1_links.py, daily_crawling.py and
    crawling/step1/crawler_step1.py).

    On each results page the anchors come from the first title selector that
    matches anything; each anchor's `href` is kept when the collector accepts
    it and it is not yet in the `seen` set, as a row with the day, the
    cleaned title and the link.  Then `click_next` is tried, and the harvest
    goes on to the next page exactly when it succeeds.  The pages a session
    shows are given as a sequence: the page after `driver.get(url)`, then the
    page after each successful click. */
module Harvest {
  import opened Base
  import opened Common
  import opened Dedup
  import opened Lists
  import opened Page

  const BLOG_HOST := "blog.naver.com"
  const MOBILE_BLOG_HOST := "m.blog.naver.com"

  /** The title selectors of step1_links.py, crawling/daily/step1_links.py and
      daily_crawling.py, tried in this order. */
  const TITLE_SELECTORS := [
    "a.api_txt_lines.total_tit", "a.total_tit", "a.title_link",
    "div.total_wrap a[href*='blog.naver.com']", "a[href*='blog.naver.com']"]

  /** The "next page" buttons `click_next` looks for, in this order. */
  const NEXT_SELECTORS := ["a.btn_next", "a.pg_next", "a.sc_page_next", "a[aria-label='다음']"]

  /** One results page: the document, whether `document.readyState` reached
      "complete" within the wait, the page source, and for each element
      whether Selenium reports it displayed and whether `click()` goes
      through without raising. */
  datatype Screen = Screen(doc: Elem, complete: bool, source: string, displayed: Elem -> bool, clicks: Elem -> bool)

  /** A row of a links table.  `dong` is the `administrative_dong` column,
      which only crawling/daily/step1_links.py writes. */
  datatype LinkRow = LinkRow(date: string, dong: Option<string>, title: string, link: string)

  /** What differs between the collectors: the title selectors, which links
      they accept, whether a blank title falls back to the `title`
      attribute, and whether `click_next` insists on a displayed button. */
  datatype Style = Style(titles: seq<string>, accept: string -> bool, titleFallback: bool, mustDisplay: bool)

  // ---------------------------------------------------------------------------
  // The anchors of a page

  /** `anchors = []; for sel in sels: anchors = find(sel); if anchors: break`:
      the matches of the first selector that matches anything, else []. */
  function Anchors(doc: Elem, sels: seq<string>): seq<Elem>
    decreases |sels|
  {
    if sels == [] then []
    else if doc.css(sels[0]) != [] then doc.css(sels[0])
    else Anchors(doc, sels[1..])
  }

  /** Later selectors are not consulted once one matches. */
  lemma {:induction false} AnchorsFirst(doc: Elem, sels: seq<string>, k: nat)
    requires k < |sels| && doc.css(sels[k]) != []
    requires forall j :: 0 <= j < k ==> doc.css(sels[j]) == []
    ensures Anchors(doc, sels) == doc.css(sels[k])
    decreases k
  {
    if k > 0 {
      AnchorsFirst(doc, sels[1..], k - 1);
    }
  }

  /** There are no anchors exactly when no selector matches. */
  lemma {:induction false} AnchorsNone(doc: Elem, sels: seq<string>)
    ensures Anchors(doc, sels) == [] <==> forall j :: 0 <= j < |sels| ==> doc.css(sels[j]) == []
    decreases |sels|
  {
    if sels != [] {
      AnchorsNone(doc, sels[1..]);
      assert forall j :: 1 <= j < |sels| ==> sels[j] == sels[1..][j - 1];
    }
  }

  method FindAnchors(doc: Elem, sels: seq<string>) returns (anchors: seq<Elem>)
    ensures anchors == Anchors(doc, sels)
  {
    anchors := [];
    var i := 0;
    while i < |sels|
      invariant 0 <= i <= |sels|
      invariant anchors == []
      invariant Anchors(doc, sels) == Anchors(doc, sels[i..])
    {
      anchors := doc.css(sels[i]);
      if anchors != [] {
        return;
      }
      assert sels[i..][1..] == sels[i + 1..];
      i := i + 1;
    }
  }

  // ---------------------------------------------------------------------------
  // click_next

  /** The first button `sel` finds is there (and displayed, when that is
      checked) and clicking it does not raise. */
  predicate ClicksAt(s: Screen, sel: string, mustDisplay: bool)
  {
    var btns := s.doc.css(sel);
    btns != [] && (!mustDisplay || s.displayed(btns[0])) && s.clicks(btns[0])
  }

  /** `click_next(driver)`: tries the selectors in order and returns True at
      the first click that goes through. */
  predicate ClickNext(s: Screen, sels: seq<string>, mustDisplay: bool)
    decreases |sels|
  {
    sels != [] && (ClicksAt(s, sels[0], mustDisplay) || ClickNext(s, sels[1..], mustDisplay))
  }

  /** `click_next` is True exactly when some selector's first button clicks. */
  lemma {:induction false} ClickNextSome(s: Screen, sels: seq<string>, mustDisplay: bool)
    ensures ClickNext(s, sels, mustDisplay) <==> exists k :: 0 <= k < |sels| && ClicksAt(s, sels[k], mustDisplay)
    decreases |sels|
  {
    if sels != [] {
      ClickNextSome(s, sels[1..], mustDisplay);
      assert forall k :: 1 <= k < |sels| ==> sels[k] == sels[1..][k - 1];
      if ClickNext(s, sels[1..], mustDisplay) {
        var k :| 0 <= k < |sels[1..]| && ClicksAt(s, sels[1..][k], mustDisplay);
        assert ClicksAt(s, sels[k + 1], mustDisplay);
      }
    }
  }

  /** Checking that the button is displayed can only turn a click down. */
  lemma {:induction false} DisplayCheckOnlyRefuses(s: Screen, sels: seq<string>)
    ensures ClickNext(s, sels, true) ==> ClickNext(s, sels, false)
    decreases |sels|
  {
    if sels != [] {
      DisplayCheckOnlyRefuses(s, sels[1..]);
    }
  }

  method TryNext(s: Screen, sels: seq<string>, mustDisplay: bool) returns (b: bool)
    ensures b == ClickNext(s, sels, mustDisplay)
  {
    var i := 0;
    while i < |sels|
      invariant 0 <= i <= |sels|
      invariant ClickNext(s, sels, mustDisplay) == ClickNext(s, sels[i..], mustDisplay)
    {
      var btns := s.doc.css(sels[i]);
      if btns != [] && (!mustDisplay || s.displayed(btns[0])) {
        if s.clicks(btns[0]) {
          return true;
        }
      }
      assert sels[i..][1..] == sels[i + 1..];
      i := i + 1;
    }
    return false;
  }

  // ---------------------------------------------------------------------------
  // Rows

  /** `a.get_attribute("href") or ""`. */
  function Href(a: Elem): string
  {
    OrEmpty(Attr(a, "href"))
  }

  /** `clean(a.text)`, or with the fallback `clean(a.text) or
      clean(a.get_attribute("title") or "")`. */
  function TitleOf(a: Elem, fallback: bool): (t: string)
    ensures IsClean(t)
    ensures Clean(a.text) != "" ==> t == Clean(a.text)
    ensures t == "" && fallback ==> Clean(a.text) == "" && Clean(OrEmpty(Attr(a, "title"))) == ""
    ensures !fallback ==> t == Clean(a.text)
  {
    var t := Clean(a.text);
    if t != "" || !fallback then t else Clean(OrEmpty(Attr(a, "title")))
  }

  function RowOf(a: Elem, date: string, dong: Option<string>, fallback: bool): (r: LinkRow)
    ensures r.link == Href(a) && r.date == date && r.dong == dong
  {
    LinkRow(date, dong, TitleOf(a, fallback), Href(a))
  }

  /** The row each anchor would give, in anchor order. */
  function RowsOf(anchors: seq<Elem>, date: string, dong: Option<string>, fallback: bool): (rs: seq<LinkRow>)
    ensures |rs| == |anchors|
    ensures forall i :: 0 <= i < |anchors| ==> rs[i] == RowOf(anchors[i], date, dong, fallback)
  {
    seq(|anchors|, i requires 0 <= i < |anchors| => RowOf(anchors[i], date, dong, fallback))
  }

  function LinkOf(r: LinkRow): string
  {
    r.link
  }

  /** The rows whose link the collector accepts. */
  function Accepted(accept: string -> bool): LinkRow -> bool
  {
    (r: LinkRow) => accept(r.link)
  }

  /** One anchor of the inner loop: kept when accepted and not seen before. */
  lemma GatherStep(seeds: seq<LinkRow>, rows: seq<LinkRow>, r: LinkRow, accept: string -> bool)
    ensures AddNewBy(seeds, Filter(rows + [r], Accepted(accept)), LinkOf) ==
      var g := AddNewBy(seeds, Filter(rows, Accepted(accept)), LinkOf);
      if accept(r.link) && r.link !in KeysOf(g, LinkOf) then g + [r] else g
  {
    assert (rows + [r])[..|rows|] == rows;
    var f := Filter(rows, Accepted(accept));
    if accept(r.link) {
      AddNewSnoc(seeds, f, r, LinkOf);
    } else {
      assert Filter(rows + [r], Accepted(accept)) == f;
    }
  }

  /** The same step, for the anchor at position `j` of a page. */
  lemma GatherPrefix(seeds: seq<LinkRow>, rows: seq<LinkRow>, j: nat, accept: string -> bool)
    requires j < |rows|
    ensures AddNewBy(seeds, Filter(rows[..j + 1], Accepted(accept)), LinkOf) ==
      var g := AddNewBy(seeds, Filter(rows[..j], Accepted(accept)), LinkOf);
      if accept(rows[j].link) && rows[j].link !in KeysOf(g, LinkOf) then g + [rows[j]] else g
  {
    assert rows[..j + 1] == rows[..j] + [rows[j]];
    GatherStep(seeds, rows[..j], rows[j], accept);
  }

  /** Adding a row to `seeds` and its link to `seen` keeps `seen` the set of
      the links of `seeds`. */
  lemma SeenSnoc(seen: set<string>, seeds: seq<LinkRow>, r: LinkRow)
    requires forall k :: k in seen <==> k in KeysOf(seeds, LinkOf)
    ensures forall k :: k in seen + {r.link} <==> k in KeysOf(seeds + [r], LinkOf)
  {
    KeysOfSnoc(seeds, r, LinkOf);
  }

  /** One turn of the inner loop, with `seen` holding the links of `seeds`. */
  lemma AnchorStep(seeds0: seq<LinkRow>, rows: seq<LinkRow>, j: nat, accept: string -> bool,
                   seen: set<string>, seeds: seq<LinkRow>)
    requires j < |rows|
    requires seeds == AddNewBy(seeds0, Filter(rows[..j], Accepted(accept)), LinkOf)
    requires forall k :: k in seen <==> k in KeysOf(seeds, LinkOf)
    ensures accept(rows[j].link) && rows[j].link !in seen ==>
      seeds + [rows[j]] == AddNewBy(seeds0, Filter(rows[..j + 1], Accepted(accept)), LinkOf) &&
      forall k :: k in seen + {rows[j].link} <==> k in KeysOf(seeds + [rows[j]], LinkOf)
    ensures !(accept(rows[j].link) && rows[j].link !in seen) ==>
      seeds == AddNewBy(seeds0, Filter(rows[..j + 1], Accepted(accept)), LinkOf)
  {
    GatherPrefix(seeds0, rows, j, accept);
    if accept(rows[j].link) && rows[j].link !in seen {
      SeenSnoc(seen, seeds, rows[j]);
    }
  }

  /** The row the loop builds for one anchor. */
  method BuildRow(a: Elem, date: string, dong: Option<string>, fallback: bool) returns (r: LinkRow)
    ensures r == RowOf(a, date, dong, fallback)
  {
    r := RowOf(a, date, dong, fallback);
  }

  /** The inner loop over one page's anchors, with `seen` holding the links
      of `seeds`. */
  method AddAnchors(anchors: seq<Elem>, style: Style, date: string, dong: Option<string>,
                    seen0: set<string>, seeds0: seq<LinkRow>) returns (seen: set<string>, seeds: seq<LinkRow>)
    requires forall k :: k in seen0 <==> k in KeysOf(seeds0, LinkOf)
    ensures seeds == AddNewBy(seeds0, Filter(RowsOf(anchors, date, dong, style.titleFallback), Accepted(style.accept)), LinkOf)
    ensures forall k :: k in seen <==> k in KeysOf(seeds, LinkOf)
  {
    ghost var rows := RowsOf(anchors, date, dong, style.titleFallback);
    seen, seeds := seen0, seeds0;
    for j := 0 to |anchors|
      invariant seeds == AddNewBy(seeds0, Filter(rows[..j], Accepted(style.accept)), LinkOf)
      invariant forall k :: k in seen <==> k in KeysOf(seeds, LinkOf)
    {
      var row := BuildRow(anchors[j], date, dong, style.titleFallback);
      assert rows[j] == RowOf(anchors[j], date, dong, style.titleFallback);
      AnchorStep(seeds0, rows, j, style.accept, seen, seeds);
      if style.accept(row.link) && row.link !in seen {
        seen := seen + {row.link};
        seeds := seeds + [row];
      }
    }
    assert rows[..|anchors|] == rows;
  }

  // ---------------------------------------------------------------------------
  // The pages of a session

  /** How many pages the harvest reads: up to and including the first one
      where `click_next` fails.  A session whose every page offers a next
      page is read to its last observed page. */
  function Visited(pages: seq<Screen>, mustDisplay: bool): (n: nat)
    ensures n <= |pages|
    ensures pages != [] ==> n >= 1
    decreases |pages|
  {
    if pages == [] then 0
    else if !ClickNext(pages[0], NEXT_SELECTORS, mustDisplay) then 1
    else 1 + Visited(pages[1..], mustDisplay)
  }

  /** The harvest stops at the first page without a next page, and every
      page before it had one. */
  lemma {:induction false} VisitedStops(pages: seq<Screen>, mustDisplay: bool)
    ensures forall j :: 0 <= j < Visited(pages, mustDisplay) - 1 ==> ClickNext(pages[j], NEXT_SELECTORS, mustDisplay)
    ensures Visited(pages, mustDisplay) < |pages| ==>
      !ClickNext(pages[Visited(pages, mustDisplay) - 1], NEXT_SELECTORS, mustDisplay)
    decreases |pages|
  {
    if pages != [] && ClickNext(pages[0], NEXT_SELECTORS, mustDisplay) {
      VisitedStops(pages[1..], mustDisplay);
      assert forall j :: 1 <= j < |pages| ==> pages[j] == pages[1..][j - 1];
    }
  }

  /** A harvest that insists on displayed buttons reads no more pages than
      one that does not. */
  lemma {:induction false} DisplayCheckReadsFewer(pages: seq<Screen>)
    ensures Visited(pages, true) <= Visited(pages, false)
    decreases |pages|
  {
    if pages != [] {
      DisplayCheckOnlyRefuses(pages[0], NEXT_SELECTORS);
      DisplayCheckReadsFewer(pages[1..]);
    }
  }

  /** The candidate rows of one page. */
  function PageRows(s: Screen, style: Style, date: string, dong: Option<string>): seq<LinkRow>
  {
    RowsOf(Anchors(s.doc, style.titles), date, dong, style.titleFallback)
  }

  /** The candidate rows of several pages, page after page. */
  function PagesRows(pages: seq<Screen>, style: Style, date: string, dong: Option<string>): seq<LinkRow>
    decreases |pages|
  {
    if pages == [] then []
    else PagesRows(pages[..|pages| - 1], style, date, dong) + PageRows(pages[|pages| - 1], style, date, dong)
  }

  /** Every candidate row of a session carries the day and neighbourhood
      given and a cleaned title. */
  lemma {:induction false} PagesRowsFacts(pages: seq<Screen>, style: Style, date: string, dong: Option<string>)
    ensures forall c :: c in PagesRows(pages, style, date, dong) ==> c.date == date && c.dong == dong && IsClean(c.title)
    decreases |pages|
  {
    if pages != [] {
      PagesRowsFacts(pages[..|pages| - 1], style, date, dong);
    }
  }

  /** The rows the harvest of a session yields: of the candidates of the
      pages it reads, the accepted ones, each link once, first seen first. */
  function Harvested(pages: seq<Screen>, style: Style, date: string, dong: Option<string>): seq<LinkRow>
  {
    DedupBy(Filter(PagesRows(pages[..Visited(pages, style.mustDisplay)], style, date, dong), Accepted(style.accept)), LinkOf)
  }

  /** Of any candidates, the accepted ones, each link once, are accepted
      candidates with pairwise different links, and every accepted link of
      the candidates is among them. */
  lemma GatheredFacts(cands: seq<LinkRow>, accept: string -> bool)
    ensures var rows := DedupBy(Filter(cands, Accepted(accept)), LinkOf);
      (forall i :: 0 <= i < |rows| ==> rows[i] in cands && accept(rows[i].link)) &&
      (forall i, j :: 0 <= i < j < |rows| ==> rows[i].link != rows[j].link) &&
      (forall c :: c in cands && accept(c.link) ==> c.link in KeysOf(rows, LinkOf))
  {
    var f := Filter(cands, Accepted(accept));
    DedupByFacts(f, LinkOf);
    var rows := DedupBy(f, LinkOf);
    forall i | 0 <= i < |rows|
      ensures rows[i] in cands && accept(rows[i].link)
    {
      assert rows[i] in f;
      var k :| 0 <= k < |f| && f[k] == rows[i];
    }
    forall c | c in cands && accept(c.link)
      ensures c.link in KeysOf(rows, LinkOf)
    {
      FilterKeeps(cands, Accepted(accept), c);
      var k :| 0 <= k < |f| && f[k] == c;
      assert KeysOf(f, LinkOf)[k] == c.link;
    }
  }

  /** The rows of a harvest are accepted candidates of the pages read, with
      pairwise different links; and every accepted link of those pages is
      among them. */
  lemma HarvestedFacts(pages: seq<Screen>, style: Style, date: string, dong: Option<string>)
    ensures var cands := PagesRows(pages[..Visited(pages, style.mustDisplay)], style, date, dong);
      var rows := Harvested(pages, style, date, dong);
      (forall i :: 0 <= i < |rows| ==> rows[i] in cands && style.accept(rows[i].link)) &&
      (forall i, j :: 0 <= i < j < |rows| ==> rows[i].link != rows[j].link) &&
      (forall c :: c in cands && style.accept(c.link) ==> c.link in KeysOf(rows, LinkOf))
  {
    GatheredFacts(PagesRows(pages[..Visited(pages, style.mustDisplay)], style, date, dong), style.accept);
  }

  /** Each row of a harvest is the first accepted candidate with its link. */
  lemma HarvestedFirstSeen(pages: seq<Screen>, style: Style, date: string, dong: Option<string>)
    ensures var f := Filter(PagesRows(pages[..Visited(pages, style.mustDisplay)], style, date, dong), Accepted(style.accept));
      var rows := Harvested(pages, style, date, dong);
      forall j :: 0 <= j < |rows| ==> rows[j].link in KeysOf(f, LinkOf) && rows[j] == f[FirstIndex(f, LinkOf, rows[j].link)]
  {
    var f := Filter(PagesRows(pages[..Visited(pages, style.mustDisplay)], style, date, dong), Accepted(style.accept));
    DedupByFirstSeen(f, LinkOf);
  }

  /** One page more in the loop: the rows of the pages so far, then the new page's. */
  lemma NextPage(pages: seq<Screen>, i: nat, style: Style, date: string, dong: Option<string>)
    requires i < |pages|
    ensures AddNewBy([], Filter(PagesRows(pages[..i + 1], style, date, dong), Accepted(style.accept)), LinkOf) ==
      AddNewBy(AddNewBy([], Filter(PagesRows(pages[..i], style, date, dong), Accepted(style.accept)), LinkOf),
               Filter(PageRows(pages[i], style, date, dong), Accepted(style.accept)), LinkOf)
  {
    var before := PagesRows(pages[..i], style, date, dong);
    var page := PageRows(pages[i], style, date, dong);
    assert pages[..i + 1][..i] == pages[..i];
    assert PagesRows(pages[..i + 1], style, date, dong) == before + page;
    FilterConcat(before, page, Accepted(style.accept));
    AddNewConcat([], Filter(before, Accepted(style.accept)), Filter(page, Accepted(style.accept)), LinkOf);
  }

  /** Reading on from page `i`: that page, and the pages after it exactly
      when its next button clicks. */
  lemma VisitedFrom(pages: seq<Screen>, i: nat, mustDisplay: bool)
    requires i < |pages|
    ensures Visited(pages[i..], mustDisplay) ==
      if ClickNext(pages[i], NEXT_SELECTORS, mustDisplay) then 1 + Visited(pages[i + 1..], mustDisplay) else 1
  {
    assert pages[i..][0] == pages[i] && pages[i..][1..] == pages[i + 1..];
  }

  /** The harvest, once the number of pages read is known. */
  lemma HarvestedAt(pages: seq<Screen>, n: nat, style: Style, date: string, dong: Option<string>)
    requires n == Visited(pages, style.mustDisplay)
    ensures Harvested(pages, style, date, dong) ==
      AddNewBy([], Filter(PagesRows(pages[..n], style, date, dong), Accepted(style.accept)), LinkOf)
  {
  }

  /** The body of the loop for one page: its anchors, then the inner loop. */
  method HarvestPage(s: Screen, style: Style, date: string, dong: Option<string>,
                     seen0: set<string>, seeds0: seq<LinkRow>) returns (seen: set<string>, seeds: seq<LinkRow>)
    requires forall k :: k in seen0 <==> k in KeysOf(seeds0, LinkOf)
    ensures seeds == AddNewBy(seeds0, Filter(PageRows(s, style, date, dong), Accepted(style.accept)), LinkOf)
    ensures forall k :: k in seen <==> k in KeysOf(seeds, LinkOf)
  {
    var anchors := FindAnchors(s.doc, style.titles);
    seen, seeds := AddAnchors(anchors, style, date, dong, seen0, seeds0);
  }

  /** The `while True` loop of the collectors, from the first results page on. */
  method HarvestPages(pages: seq<Screen>, style: Style, date: string, dong: Option<string>) returns (seeds: seq<LinkRow>)
    ensures seeds == Harvested(pages, style, date, dong)
  {
    var seen: set<string> := {};
    seeds := [];
    var i := 0;
    while i < |pages|
      invariant 0 <= i <= |pages|
      invariant Visited(pages, style.mustDisplay) == i + Visited(pages[i..], style.mustDisplay)
      invariant seeds == AddNewBy([], Filter(PagesRows(pages[..i], style, date, dong), Accepted(style.accept)), LinkOf)
      invariant forall k :: k in seen <==> k in KeysOf(seeds, LinkOf)
    {
      seen, seeds := HarvestPage(pages[i], style, date, dong, seen, seeds);
      NextPage(pages, i, style, date, dong);
      var more := TryNext(pages[i], NEXT_SELECTORS, style.mustDisplay);
      VisitedFrom(pages, i, style.mustDisplay);
      if !more {
        HarvestedAt(pages, i + 1, style, date, dong);
        return;
      }
      i := i + 1;
    }
    assert pages[i..] == [];
    HarvestedAt(pages, i, style, date, dong);
  }
}
