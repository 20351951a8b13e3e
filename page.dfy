/** The browser as the post crawler sees it.

    A rendered page is an `Elem` tree observed from outside: each element has
    its visible text (Selenium's `el.text`), its attributes and DOM properties
    (`el.get_attribute(name)`), and the elements its CSS and XPath queries
    (`find_elements`) return.  The document itself is an `Elem`, so
    `driver.find_elements(By.CSS_SELECTOR, css)` is `page.css(css)`.  The
    browser is a function from an address to the outcome of `driver.get`.
    Waits, scrolling and timing are not observable here. */
module Page {
  import opened Base
  import opened Common
  import opened PostUrl

  datatype Elem = Elem(text: string, attrs: map<string, string>, css: string -> seq<Elem>, xpath: string -> seq<Elem>)

  /** `el.get_attribute(name)`, which is None for an attribute the element lacks. */
  function Attr(e: Elem, name: string): Option<string>
  {
    if name in e.attrs then Some(e.attrs[name]) else None
  }

  const NO_SUCH_ELEMENT := "NoSuchElementException"

  /** `driver.find_element(By.CSS_SELECTOR, css)`: the first match, or the
      exception Selenium raises when nothing matches. */
  function FindElement(page: Elem, css: string): (r: Result<Elem>)
    ensures r.Err? <==> |page.css(css)| == 0
    ensures r.Err? ==> r.fault == NO_SUCH_ELEMENT
  {
    var els := page.css(css);
    if |els| == 0 then Err(NO_SUCH_ELEMENT) else Ok(els[0])
  }

  // ---------------------------------------------------------------------------
  // get_first_text (also the loop of extract_bloggername)

  /** The text of the first element of `css`, cleaned; "" when nothing matches. */
  function FirstCleanText(page: Elem, css: string): string
  {
    var r := FindElement(page, css);
    if r.Err? then "" else Clean(r.value.text)
  }

  /** `get_first_text(driver, selectors)`: the first non-empty cleaned text of
      the first element of each selector in turn, or "". */
  function FirstText(page: Elem, sels: seq<string>): (r: string)
    ensures r != "" ==> IsClean(r) && exists k :: 0 <= k < |sels| && r == FirstCleanText(page, sels[k])
    decreases |sels|
  {
    if sels == [] then ""
    else
      var t := FirstCleanText(page, sels[0]);
      if t != "" then t else FirstText(page, sels[1..])
  }

  /** `FirstText` is the text of the FIRST selector that yields one. */
  lemma {:induction false} FirstTextFirst(page: Elem, sels: seq<string>, k: nat)
    requires k < |sels| && FirstCleanText(page, sels[k]) != ""
    requires forall j :: 0 <= j < k ==> FirstCleanText(page, sels[j]) == ""
    ensures FirstText(page, sels) == FirstCleanText(page, sels[k])
    decreases k
  {
    if k > 0 {
      FirstTextFirst(page, sels[1..], k - 1);
    }
  }

  /** "" exactly when every selector yields no text. */
  lemma {:induction false} FirstTextEmpty(page: Elem, sels: seq<string>)
    ensures FirstText(page, sels) == "" <==> forall j :: 0 <= j < |sels| ==> FirstCleanText(page, sels[j]) == ""
    decreases |sels|
  {
    if sels != [] {
      var t := FirstCleanText(page, sels[0]);
      if t == "" {
        FirstTextEmpty(page, sels[1..]);
        assert FirstText(page, sels) == FirstText(page, sels[1..]);
        assert forall j :: 1 <= j < |sels| ==> sels[j] == sels[1..][j - 1];
      } else {
        assert FirstText(page, sels) == t;
      }
    }
  }

  method GetFirstText(page: Elem, sels: seq<string>) returns (r: string)
    ensures r == FirstText(page, sels)
  {
    var i := 0;
    while i < |sels|
      invariant 0 <= i <= |sels|
      invariant FirstText(page, sels) == FirstText(page, sels[i..])
    {
      var found := FindElement(page, sels[i]);
      if found.Ok? {
        var txt := Clean(found.value.text);
        if txt != "" {
          return txt;
        }
      }
      assert sels[i..][1..] == sels[i + 1..];
      i := i + 1;
    }
    return "";
  }

  // ---------------------------------------------------------------------------
  // goto_post_view of step2_posts.py and crawling/daily/step2_posts.py

  /** The outcome of `driver.get(url)`: the exception it raised, or the address
      the browser ended up at (`driver.current_url`, parsed) and the page there. */
  datatype Nav = Nav(fault: Option<string>, at: Loc, page: Elem)

  /** Where `goto_post_view` leaves the browser, and what it returns. */
  datatype Landing = Landing(ok: bool, at: Loc, page: Elem)

  const MAIN_FRAME := "iframe#mainFrame"

  /** `str.lower()` as far as a test for the ASCII text "m.blog.naver.com"
      can tell: the only other characters whose lower case contains one of
      its letters are the Kelvin sign and dotted capital I, neither of which
      can complete a match. */
  function AsciiLower(s: string): (r: string)
    ensures |r| == |s|
    ensures forall i :: 0 <= i < |s| ==> r[i] == (if 'A' <= s[i] <= 'Z' then (s[i] as int + 32) as char else s[i])
  {
    seq(|s|, i requires 0 <= i < |s| => if 'A' <= s[i] <= 'Z' then (s[i] as int + 32) as char else s[i])
  }

  /** The mobile blog host, whose pages need no frame. */
  predicate MobileHost(at: Loc)
  {
    Contains(AsciiLower(at.netloc), "m.blog.naver.com")
  }

  /** The `src` of the page's `iframe#mainFrame`, or "" when there is none
      (the wait for it times out) or it has no source. */
  function FrameSrc(page: Elem): string
  {
    var frames := page.css(MAIN_FRAME);
    if |frames| == 0 then "" else OrEmpty(Attr(frames[0], "src"))
  }

  /** The desktop blog page carries a frame whose resolved source loads. */
  predicate FrameLoads(browser: string -> Nav, page: Elem)
  {
    FrameSrc(page) != "" && browser(ResolveFrameSrc(FrameSrc(page))).fault.None?
  }

  /** `goto_post_view(driver, url)`.  The first navigation's exception escapes;
      a mobile host is accepted as it is; otherwise the browser moves into the
      post frame when it can, and failing that the address must name a
      `PostView` page.  A failed second navigation leaves the browser where it
      was. */
  function GotoPostView(browser: string -> Nav, url: string): (r: Result<Landing>)
    ensures r.Err? <==> browser(url).fault.Some?
    ensures r.Ok? && !FrameLoads(browser, browser(url).page) ==> r.value.at == browser(url).at
  {
    var n := browser(url);
    if n.fault.Some? then Err(n.fault.value)
    else if MobileHost(n.at) then Ok(Landing(true, n.at, n.page))
    else if FrameLoads(browser, n.page) then
      var f := browser(ResolveFrameSrc(FrameSrc(n.page)));
      Ok(Landing(true, f.at, f.page))
    else Ok(Landing(Contains(n.at.raw, "PostView"), n.at, n.page))
  }

  /** Success is reported exactly for a mobile page, a page whose frame loads,
      or an address naming `PostView`. */
  lemma GotoPostViewOk(browser: string -> Nav, url: string)
    requires browser(url).fault.None?
    ensures var n := browser(url);
      GotoPostView(browser, url).value.ok <==>
        MobileHost(n.at) || FrameLoads(browser, n.page) || Contains(n.at.raw, "PostView")
  {
  }

  /** On a desktop page whose frame loads, the crawl continues at the frame's
      resolved address. */
  lemma GotoPostViewFrame(browser: string -> Nav, url: string)
    requires browser(url).fault.None? && !MobileHost(browser(url).at)
    requires FrameLoads(browser, browser(url).page)
    ensures GotoPostView(browser, url) ==
      var f := browser(ResolveFrameSrc(FrameSrc(browser(url).page)));
      Ok(Landing(true, f.at, f.page))
  {
  }
}
