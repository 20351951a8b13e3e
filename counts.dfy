/** How the post crawler reads like and comment counts off a page:
    `get_int_by_selectors` (with and without its `try`),
    `get_count_by_keyword_fallback` and `has_zero_comment_ui`.  Every reader
    is a loop with early exits, proved against a function that recurses over
    what is left to scan. */
module Counts {
  import opened Base
  import opened TextParse
  import opened Lists
  import opened Page

  /** The first element whose text holds a count, scanning in order;
      `_to_int_or_none`'s ValueError stops the scan. */
  function ElemsInt(els: seq<Elem>): (r: Result<Option<nat>>)
    ensures r.Err? ==> r.fault == "ValueError"
    decreases |els|
  {
    if |els| == 0 then Ok(None)
    else
      var v := ToIntOrNone(els[0].text);
      if v.Err? || v.value.Some? then v else ElemsInt(els[1..])
  }

  /** A count, or the error, comes from the text of one of the elements. */
  lemma {:induction false} ElemsIntFound(els: seq<Elem>)
    requires ElemsInt(els) != Ok(None)
    ensures exists j :: 0 <= j < |els| && ToIntOrNone(els[j].text) == ElemsInt(els)
    decreases |els|
  {
    var v := ToIntOrNone(els[0].text);
    if !(v.Err? || v.value.Some?) {
      ElemsIntFound(els[1..]);
      var j :| 0 <= j < |els[1..]| && ToIntOrNone(els[1..][j].text) == ElemsInt(els[1..]);
      assert els[1..][j] == els[j + 1];
    }
  }

  lemma {:induction false} ElemsIntNone(els: seq<Elem>)
    ensures ElemsInt(els) == Ok(None) <==> forall j :: 0 <= j < |els| ==> !HasNumChar(els[j].text)
    decreases |els|
  {
    if |els| > 0 {
      ElemsIntNone(els[1..]);
      assert forall j :: 1 <= j < |els| ==> els[j] == els[1..][j - 1];
    }
  }

  // ---------------------------------------------------------------------------
  // get_int_by_selectors

  /** `get_int_by_selectors` of step2_posts.py: the first count of the first
      selector that has one; a selector whose scan raises is abandoned. */
  function IntBySelectors(page: Elem, sels: seq<string>): Option<nat>
    decreases |sels|
  {
    if sels == [] then None
    else
      var v := ElemsInt(page.css(sels[0]));
      if v.Ok? && v.value.Some? then v.value else IntBySelectors(page, sels[1..])
  }

  /** A count comes from the elements of one of the selectors. */
  lemma {:induction false} IntBySelectorsFound(page: Elem, sels: seq<string>)
    requires IntBySelectors(page, sels).Some?
    ensures exists k :: 0 <= k < |sels| && ElemsInt(page.css(sels[k])) == Ok(IntBySelectors(page, sels))
    decreases |sels|
  {
    var v := ElemsInt(page.css(sels[0]));
    if !(v.Ok? && v.value.Some?) {
      IntBySelectorsFound(page, sels[1..]);
      var k :| 0 <= k < |sels[1..]| && ElemsInt(page.css(sels[1..][k])) == Ok(IntBySelectors(page, sels[1..]));
      assert sels[1..][k] == sels[k + 1];
    }
  }

  /** `get_int_by_selectors` of crawling/daily/step2_posts.py, which has no
      `try`: the first ValueError escapes. */
  function IntBySelectorsStrict(page: Elem, sels: seq<string>): (r: Result<Option<nat>>)
    ensures r.Err? ==> r.fault == "ValueError"
    decreases |sels|
  {
    if sels == [] then Ok(None)
    else
      var v := ElemsInt(page.css(sels[0]));
      if v.Err? || v.value.Some? then v else IntBySelectorsStrict(page, sels[1..])
  }

  /** Where the strict reader does not raise, both readers give the same count. */
  lemma {:induction false} StrictAgrees(page: Elem, sels: seq<string>)
    requires IntBySelectorsStrict(page, sels).Ok?
    ensures IntBySelectors(page, sels) == IntBySelectorsStrict(page, sels).value
    decreases |sels|
  {
    if sels != [] {
      var v := ElemsInt(page.css(sels[0]));
      if v.Ok? && v.value.None? {
        StrictAgrees(page, sels[1..]);
      }
    }
  }

  /** No count anywhere: both readers give None. */
  lemma {:induction false} NoCountNone(page: Elem, sels: seq<string>)
    requires forall k :: 0 <= k < |sels| ==> ElemsInt(page.css(sels[k])) == Ok(None)
    ensures IntBySelectors(page, sels) == None
    ensures IntBySelectorsStrict(page, sels) == Ok(None)
    decreases |sels|
  {
    if sels != [] {
      assert forall k :: 1 <= k < |sels| ==> sels[k] == sels[1..][k - 1];
      NoCountNone(page, sels[1..]);
    }
  }

  /** The scan of one selector's elements; `Err` is the ValueError. */
  method ScanElems(els: seq<Elem>) returns (r: Result<Option<nat>>)
    ensures r == ElemsInt(els)
  {
    var j := 0;
    while j < |els|
      invariant 0 <= j <= |els|
      invariant ElemsInt(els) == ElemsInt(els[j..])
    {
      var v := ToIntOrNone(els[j].text);
      if v.Err? {
        return v;
      }
      if v.value.Some? {
        return v;
      }
      assert els[j..][1..] == els[j + 1..];
      j := j + 1;
    }
    return Ok(None);
  }

  /** `get_int_by_selectors` of step2_posts.py. */
  method GetIntBySelectors(page: Elem, sels: seq<string>) returns (r: Option<nat>)
    ensures r == IntBySelectors(page, sels)
  {
    var k := 0;
    while k < |sels|
      invariant 0 <= k <= |sels|
      invariant IntBySelectors(page, sels) == IntBySelectors(page, sels[k..])
    {
      var v := ScanElems(page.css(sels[k]));
      if v.Ok? && v.value.Some? {
        return v.value;
      }
      assert sels[k..][1..] == sels[k + 1..];
      k := k + 1;
    }
    return None;
  }

  /** `get_int_by_selectors` of crawling/daily/step2_posts.py. */
  method GetIntBySelectorsStrict(page: Elem, sels: seq<string>) returns (r: Result<Option<nat>>)
    ensures r == IntBySelectorsStrict(page, sels)
  {
    var k := 0;
    while k < |sels|
      invariant 0 <= k <= |sels|
      invariant IntBySelectorsStrict(page, sels) == IntBySelectorsStrict(page, sels[k..])
    {
      var v := ScanElems(page.css(sels[k]));
      if v.Err? || v.value.Some? {
        return v;
      }
      assert sels[k..][1..] == sels[k + 1..];
      k := k + 1;
    }
    return Ok(None);
  }

  // ---------------------------------------------------------------------------
  // get_count_by_keyword_fallback

  const ALL_NODES := "//*"
  const FOLLOWING_SIBLINGS := "./following-sibling::*"

  /** A node whose stripped text is non-empty and names one of the keywords. */
  predicate Mentions(node: Elem, keywords: seq<string>)
  {
    Strip(node.text) != "" && ContainsAny(Strip(node.text), keywords)
  }

  /** The scan of the page's nodes: the count in a node that mentions a
      keyword, else in one of its next three siblings (a ValueError there
      only ends the sibling scan); a ValueError in the node's own text ends
      everything. */
  function NodeScan(nodes: seq<Elem>, keywords: seq<string>): (r: Result<Option<nat>>)
    ensures r.Err? ==> r.fault == "ValueError"
    decreases |nodes|
  {
    if |nodes| == 0 then Ok(None)
    else
      var rest := NodeScan(nodes[1..], keywords);
      if !Mentions(nodes[0], keywords) then rest
      else
        var own := ToIntOrNone(Strip(nodes[0].text));
        if own.Err? || own.value.Some? then own
        else
          var sib := ElemsInt(Take(nodes[0].xpath(FOLLOWING_SIBLINGS), 3));
          if sib.Ok? && sib.value.Some? then sib else rest
  }

  /** `get_count_by_keyword_fallback(driver, keywords)`: the outer `try`
      turns the escaping ValueError into None. */
  function KeywordCount(page: Elem, keywords: seq<string>): Option<nat>
  {
    var s := NodeScan(page.xpath(ALL_NODES), keywords);
    if s.Err? then None else s.value
  }

  /** A count found by the scan belongs to a node that mentions a keyword. */
  lemma {:induction false} NodeScanFound(nodes: seq<Elem>, keywords: seq<string>)
    requires NodeScan(nodes, keywords).Ok? && NodeScan(nodes, keywords).value.Some?
    ensures exists i :: 0 <= i < |nodes| && Mentions(nodes[i], keywords)
    decreases |nodes|
  {
    if !Mentions(nodes[0], keywords) {
      NodeScanFound(nodes[1..], keywords);
      var i :| 0 <= i < |nodes[1..]| && Mentions(nodes[1..][i], keywords);
      assert nodes[1..][i] == nodes[i + 1];
    }
  }

  /** `get_count_by_keyword_fallback` returns a count only when some node of
      the page mentions a keyword. */
  lemma KeywordCountFound(page: Elem, keywords: seq<string>)
    requires KeywordCount(page, keywords).Some?
    ensures exists i :: 0 <= i < |page.xpath(ALL_NODES)| && Mentions(page.xpath(ALL_NODES)[i], keywords)
  {
    NodeScanFound(page.xpath(ALL_NODES), keywords);
  }

  /** A page none of whose nodes mentions a keyword gives no count. */
  lemma {:induction false} NodeScanQuiet(nodes: seq<Elem>, keywords: seq<string>)
    requires forall i :: 0 <= i < |nodes| ==> !Mentions(nodes[i], keywords)
    ensures NodeScan(nodes, keywords) == Ok(None)
    decreases |nodes|
  {
    if |nodes| > 0 {
      assert forall i :: 0 <= i < |nodes[1..]| ==> nodes[1..][i] == nodes[i + 1];
      NodeScanQuiet(nodes[1..], keywords);
    }
  }

  /** The sibling scan: its `try` wraps the whole loop. */
  method ScanSiblings(sibs: seq<Elem>) returns (r: Option<nat>)
    ensures var s := ElemsInt(sibs); r == if s.Ok? then s.value else None
  {
    var v := ScanElems(sibs);
    if v.Err? {
      return None;
    }
    return v.value;
  }

  method KeywordFallback(page: Elem, keywords: seq<string>) returns (r: Option<nat>)
    ensures r == KeywordCount(page, keywords)
  {
    var nodes := page.xpath(ALL_NODES);
    var i := 0;
    while i < |nodes|
      invariant 0 <= i <= |nodes|
      invariant NodeScan(nodes, keywords) == NodeScan(nodes[i..], keywords)
    {
      var node := nodes[i];
      assert nodes[i..][0] == node && nodes[i..][1..] == nodes[i + 1..];
      var txt := Strip(node.text);
      if txt != "" && ContainsAny(txt, keywords) {
        var n := ToIntOrNone(txt);
        if n.Err? {
          return None;
        }
        if n.value.Some? {
          return n.value;
        }
        var n2 := ScanSiblings(Take(node.xpath(FOLLOWING_SIBLINGS), 3));
        if n2.Some? {
          return n2;
        }
      }
      i := i + 1;
    }
    return None;
  }

  // ---------------------------------------------------------------------------
  // has_zero_comment_ui

  const ZERO_COMMENT_HINT_SELECTORS := ["#comment_zero_label", "button#commentOpen", "a#commentOpen", "div.comment_area_empty", "div.u_cbox_wrap"]
  const ZERO_COMMENT_TEXTS := ["댓글 쓰기", "댓글쓰기", "댓글 작성", "첫 댓글을 남겨보세요", "댓글을 입력해 주세요"]
  const VISIBLE_NODES := "//*[not(self::script) and not(self::style)]"
  const COUNT_HOLDERS := ["#commentCount", "em._commentCount", "a#CommentCount"]
  const PARENT_CHILDREN := "../*"
  const NODE_LIMIT := 1500

  /** Some of `sels` matches an element. */
  predicate AnyMatch(page: Elem, sels: seq<string>)
    decreases |sels|
  {
    |sels| > 0 && (|page.css(sels[0])| > 0 || AnyMatch(page, sels[1..]))
  }

  /** A text that invites the first comment. */
  predicate Invites(t: string)
  {
    ContainsAny(t, ZERO_COMMENT_TEXTS)
  }

  /** Some element of `els` has a non-empty stripped text inviting a comment. */
  predicate AnyInvites(els: seq<Elem>)
    decreases |els|
  {
    |els| > 0 && ((Strip(els[0].text) != "" && Invites(Strip(els[0].text))) || AnyInvites(els[1..]))
  }

  /** An empty count holder with a sibling (itself included) that invites a
      comment; a sibling's empty text invites nothing, so the `if txt` of the
      node scan makes no difference here. */
  predicate BlankBesideInvite(e: Elem)
  {
    Strip(e.text) == "" && AnyInvites(e.xpath(PARENT_CHILDREN))
  }

  predicate AnyBlankBesideInvite(els: seq<Elem>)
    decreases |els|
  {
    |els| > 0 && (BlankBesideInvite(els[0]) || AnyBlankBesideInvite(els[1..]))
  }

  predicate AnyHolderBlankOf(page: Elem, sels: seq<string>)
    decreases |sels|
  {
    |sels| > 0 && (AnyBlankBesideInvite(page.css(sels[0])) || AnyHolderBlankOf(page, sels[1..]))
  }

  /** The page shows an empty comment section: a hint element, an invitation
      among the first 1500 visible nodes, or an empty count beside one. */
  predicate ZeroCommentUi(page: Elem)
  {
    AnyMatch(page, ZERO_COMMENT_HINT_SELECTORS) ||
    AnyInvites(Take(page.xpath(VISIBLE_NODES), NODE_LIMIT)) ||
    AnyHolderBlankOf(page, COUNT_HOLDERS)
  }

  /** `AnyInvites` holds exactly when some element's non-empty stripped text
      names one of the invitations. */
  lemma {:induction false} AnyInvitesWitness(els: seq<Elem>)
    ensures AnyInvites(els) <==> exists m :: 0 <= m < |els| && Strip(els[m].text) != "" && Invites(Strip(els[m].text))
    decreases |els|
  {
    if |els| > 0 {
      AnyInvitesWitness(els[1..]);
      assert forall m :: 1 <= m < |els| ==> els[m] == els[1..][m - 1];
    }
  }

  lemma HolderStep(els: seq<Elem>, j: nat)
    requires j < |els|
    ensures AnyBlankBesideInvite(els[j..]) == (BlankBesideInvite(els[j]) || AnyBlankBesideInvite(els[j + 1..]))
  {
    assert els[j..][1..] == els[j + 1..];
  }

  /** A page showing no hint, no invitation and no count holder is not
      taken for an empty comment section. */
  lemma {:induction false} QuietPageNotZero(page: Elem)
    requires forall k :: 0 <= k < |ZERO_COMMENT_HINT_SELECTORS| ==> |page.css(ZERO_COMMENT_HINT_SELECTORS[k])| == 0
    requires forall k :: 0 <= k < |COUNT_HOLDERS| ==> |page.css(COUNT_HOLDERS[k])| == 0
    requires |page.xpath(VISIBLE_NODES)| == 0
    ensures !ZeroCommentUi(page)
  {
    var hs := ZERO_COMMENT_HINT_SELECTORS;
    assert !AnyMatch(page, hs[5..]);
    assert !AnyMatch(page, hs[4..]);
    assert !AnyMatch(page, hs[3..]);
    assert !AnyMatch(page, hs[2..]);
    assert !AnyMatch(page, hs[1..]);
    var cs := COUNT_HOLDERS;
    assert !AnyHolderBlankOf(page, cs[3..]);
    assert !AnyHolderBlankOf(page, cs[2..]);
    assert !AnyHolderBlankOf(page, cs[1..]);
  }

  method ScanInvites(els: seq<Elem>) returns (b: bool)
    ensures b == AnyInvites(els)
  {
    var m := 0;
    while m < |els|
      invariant 0 <= m <= |els|
      invariant AnyInvites(els) == AnyInvites(els[m..])
    {
      var st := Strip(els[m].text);
      if st != "" && Invites(st) {
        return true;
      }
      assert els[m..][1..] == els[m + 1..];
      m := m + 1;
    }
    return false;
  }

  method ScanHolders(els: seq<Elem>) returns (b: bool)
    ensures b == AnyBlankBesideInvite(els)
  {
    var j := 0;
    while j < |els|
      invariant 0 <= j <= |els|
      invariant AnyBlankBesideInvite(els) == AnyBlankBesideInvite(els[j..])
    {
      HolderStep(els, j);
      if Strip(els[j].text) == "" {
        var found := ScanInvites(els[j].xpath(PARENT_CHILDREN));
        if found {
          return true;
        }
      }
      j := j + 1;
    }
    return false;
  }

  /** `has_zero_comment_ui(driver)`. */
  method HasZeroCommentUi(page: Elem) returns (b: bool)
    ensures b == ZeroCommentUi(page)
  {
    var hs := ZERO_COMMENT_HINT_SELECTORS;
    var k := 0;
    while k < |hs|
      invariant 0 <= k <= |hs|
      invariant AnyMatch(page, hs) == AnyMatch(page, hs[k..])
    {
      if |page.css(hs[k])| > 0 {
        return true;
      }
      assert hs[k..][1..] == hs[k + 1..];
      k := k + 1;
    }
    b := ScanInvites(Take(page.xpath(VISIBLE_NODES), NODE_LIMIT));
    if b {
      return;
    }
    var cs := COUNT_HOLDERS;
    k := 0;
    while k < |cs|
      invariant 0 <= k <= |cs|
      invariant AnyHolderBlankOf(page, cs) == AnyHolderBlankOf(page, cs[k..])
    {
      var found := ScanHolders(page.css(cs[k]));
      if found {
        return true;
      }
      assert cs[k..][1..] == cs[k + 1..];
      k := k + 1;
    }
    return false;
  }
}
