/** Which links are blog posts, and which blog and post a post URL names.

    Three recognisers exist in the crawler:
    - `step2_posts.py` and `crawling/daily/step2_posts.py` match `POST_URL_RE`
      with `re.IGNORECASE`;
    - `daily_crawling.py` matches the same pattern case-sensitively;
    - `step2/crawler_step2.py` only looks for substrings.
    `IsPostUrl` is a hand-written recogniser for the pattern
    `^https?://(?:(?:m\.)?blog\.naver\.com/[^/]+/\d+|blog\.naver\.com/PostView\.naver\?.*?logNo=\d+)`
    as `re.match` uses it (anchored at the start, anything may follow). */
module PostUrl {
  import opened Base
  import opened Lists

  // ---------------------------------------------------------------------------
  // Pattern characters

  /** The lower-case form the regular-expression engine compares under
      IGNORECASE, for the characters whose lower case is an ASCII letter. */
  function Lower(c: char): char
  {
    if 'A' <= c <= 'Z' then (c as int + 32) as char
    else if c == '\U{130}' then 'i'
    else if c == '\U{212A}' then 'k'
    else c
  }

  /** Input character `c` matches the ASCII pattern character `p`; with `ic` as
      under `re.IGNORECASE`, which also pairs 'i' with dotless 'ı' and 's' with long 'ſ'. */
  predicate CharMatch(p: char, c: char, ic: bool)
  {
    c == p || (ic && (Lower(c) == Lower(p) || (Lower(p) == 'i' && c == '\U{131}') || (Lower(p) == 's' && c == '\U{17F}')))
  }

  /** The literal `lit` matches `u` at position `i`. */
  predicate LitAt(u: string, i: nat, lit: string, ic: bool)
  {
    i + |lit| <= |u| && forall k :: 0 <= k < |lit| ==> CharMatch(lit[k], u[i + k], ic)
  }

  lemma LitAtExact(u: string, i: nat, lit: string)
    requires LitAt(u, i, lit, false)
    ensures u[i..i + |lit|] == lit
  {
  }

  lemma LitAtOf(u: string, i: nat, lit: string, ic: bool)
    requires i + |lit| <= |u| && u[i..i + |lit|] == lit
    ensures LitAt(u, i, lit, ic)
  {
    forall k | 0 <= k < |lit|
      ensures CharMatch(lit[k], u[i + k], ic)
    {
      assert u[i + k] == u[i..i + |lit|][k];
    }
  }

  lemma LitAtIgnoringCase(u: string, i: nat, lit: string)
    requires LitAt(u, i, lit, false)
    ensures LitAt(u, i, lit, true)
  {
  }

  // ---------------------------------------------------------------------------
  // The pattern, piece by piece

  const HOST := "blog.naver.com/"
  const POST_VIEW := "blog.naver.com/PostView.naver?"

  /** Where `https?://` ends, if `u` starts with it. */
  function SchemeEnd(u: string, ic: bool): (r: Option<nat>)
    ensures r.Some? ==> r.value <= |u| && LitAt(u, 0, "http", ic)
  {
    if LitAt(u, 0, "http", ic) then
      if LitAt(u, 4, "s://", ic) then Some(8)
      else if LitAt(u, 4, "://", ic) then Some(7)
      else None
    else None
  }

  /** `/\d+` after the rest of a `[^/]` run that started before `i`. */
  predicate SlashDigitFrom(u: string, i: nat)
    decreases |u| - i
  {
    i < |u| && (if u[i] == '/' then i + 1 < |u| && IsDigit(u[i + 1]) else SlashDigitFrom(u, i + 1))
  }

  /** `[^/]+/\d+` at `i`: a non-empty segment, a slash, a digit. */
  predicate SegmentThenDigits(u: string, i: nat)
  {
    i < |u| && u[i] != '/' && SlashDigitFrom(u, i + 1)
  }

  /** `(?:m\.)?blog\.naver\.com/[^/]+/\d+` at `j`. */
  predicate BlogPathAt(u: string, j: nat, ic: bool)
  {
    (LitAt(u, j, "m.", ic) && LitAt(u, j + 2, HOST, ic) && SegmentThenDigits(u, j + 2 + |HOST|))
    || (LitAt(u, j, HOST, ic) && SegmentThenDigits(u, j + |HOST|))
  }

  /** `.*?logNo=\d+` at `i`: `logNo=` and a digit after a stretch without line breaks. */
  predicate LogNoFrom(u: string, i: nat, ic: bool)
    decreases |u| - i
  {
    i <= |u| &&
    ((LitAt(u, i, "logNo=", ic) && i + 6 < |u| && IsDigit(u[i + 6]))
     || (i < |u| && u[i] != '\n' && LogNoFrom(u, i + 1, ic)))
  }

  /** `blog\.naver\.com/PostView\.naver\?.*?logNo=\d+` at `j`. */
  predicate PostViewAt(u: string, j: nat, ic: bool)
  {
    LitAt(u, j, POST_VIEW, ic) && LogNoFrom(u, j + |POST_VIEW|, ic)
  }

  /** `bool(POST_URL_RE.match(u or ""))`; `ic` says whether the pattern was
      compiled with `re.IGNORECASE`. */
  predicate IsPostUrl(u: string, ic: bool)
  {
    var s := SchemeEnd(u, ic);
    s.Some? && (BlogPathAt(u, s.value, ic) || PostViewAt(u, s.value, ic))
  }

  // ---------------------------------------------------------------------------
  // What the recogniser accepts

  lemma {:induction false} SlashDigitAt(u: string, i: nat, e: nat)
    requires i <= e && e + 1 < |u| && u[e] == '/' && IsDigit(u[e + 1])
    requires forall k :: i <= k < e ==> u[k] != '/'
    ensures SlashDigitFrom(u, i)
    decreases e - i
  {
    if i < e {
      SlashDigitAt(u, i + 1, e);
    }
  }

  lemma {:induction false} LogNoAt(u: string, i: nat, m: nat, ic: bool)
    requires i <= m && LitAt(u, m, "logNo=", ic) && m + 6 < |u| && IsDigit(u[m + 6])
    requires forall k :: i <= k < m ==> u[k] != '\n'
    ensures LogNoFrom(u, i, ic)
    decreases m - i
  {
    if i < m {
      LogNoAt(u, i + 1, m, ic);
    }
  }

  lemma SchemeOf(scheme: string, u: string, ic: bool)
    requires scheme == "http://" || scheme == "https://"
    requires StartsWith(u, scheme)
    ensures SchemeEnd(u, ic) == Some(|scheme|)
  {
    assert u[..4] == "http";
    LitAtOf(u, 0, "http", ic);
    if scheme == "https://" {
      assert u[4..8] == "s://";
      LitAtOf(u, 4, "s://", ic);
    } else {
      assert u[4..7] == "://";
      LitAtOf(u, 4, "://", ic);
      assert u[4] == ':';
      assert !CharMatch("s://"[0], u[4], ic);
    }
  }

  lemma IsPostUrlAt(u: string, j: nat, ic: bool)
    requires SchemeEnd(u, ic) == Some(j)
    requires BlogPathAt(u, j, ic) || PostViewAt(u, j, ic)
    ensures IsPostUrl(u, ic)
  {
  }

  lemma MobileBlogPath(u: string, j: nat, ic: bool)
    requires LitAt(u, j, "m.", ic) && LitAt(u, j + 2, HOST, ic) && SegmentThenDigits(u, j + 2 + |HOST|)
    ensures BlogPathAt(u, j, ic)
  {
  }

  lemma DesktopBlogPath(u: string, j: nat, ic: bool)
    requires LitAt(u, j, HOST, ic) && SegmentThenDigits(u, j + |HOST|)
    ensures BlogPathAt(u, j, ic)
  {
  }

  predicate NoChar(s: string, c: char)
  {
    forall i :: 0 <= i < |s| ==> s[i] != c
  }

  lemma LitPrefix(u: string, i: nat, lit: string, more: string, ic: bool)
    requires i <= |u| && u[i..] == lit + more
    ensures LitAt(u, i, lit, ic) && u[i + |lit|..] == more
  {
    assert u[i..][..|lit|] == lit;
    assert u[i..i + |lit|] == u[i..][..|lit|];
    LitAtOf(u, i, lit, ic);
    assert u[i + |lit|..] == u[i..][|lit|..];
  }

  lemma SegmentDigits(u: string, i: nat, blog: string, digits: string, rest: string)
    requires i <= |u| && u[i..] == blog + ("/" + (digits + rest))
    requires blog != [] && NoChar(blog, '/')
    requires digits != [] && AllDigits(digits)
    ensures SegmentThenDigits(u, i)
  {
    var e := i + |blog|;
    forall k | i <= k < e
      ensures u[k] != '/'
    {
      assert u[k] == u[i..][k - i] == blog[k - i];
    }
    assert u[e] == u[i..][|blog|] == '/';
    assert u[e + 1] == u[i..][|blog| + 1] == digits[0];
    assert u[i] == u[i..][0] == blog[0];
    SlashDigitAt(u, i + 1, e);
  }

  /** `(m.)blog.naver.com/<blog>/<digits>` at `j`. */
  lemma BlogPathFrom(u: string, j: nat, m: string, blog: string, digits: string, rest: string, ic: bool)
    requires m == "m." || m == ""
    requires blog != [] && NoChar(blog, '/')
    requires digits != [] && AllDigits(digits)
    requires j <= |u| && u[j..] == m + (HOST + (blog + ("/" + (digits + rest))))
    ensures BlogPathAt(u, j, ic)
  {
    var tail := blog + ("/" + (digits + rest));
    if m == "m." {
      LitPrefix(u, j, "m.", HOST + tail, ic);
      LitPrefix(u, j + 2, HOST, tail, ic);
      SegmentDigits(u, j + 2 + |HOST|, blog, digits, rest);
      MobileBlogPath(u, j, ic);
    } else {
      assert u[j..] == HOST + tail;
      LitPrefix(u, j, HOST, tail, ic);
      SegmentDigits(u, j + |HOST|, blog, digits, rest);
      DesktopBlogPath(u, j, ic);
    }
  }

  lemma BlogPathNested(scheme: string, m: string, blog: string, digits: string, rest: string, ic: bool)
    requires scheme == "http://" || scheme == "https://"
    requires m == "m." || m == ""
    requires blog != [] && NoChar(blog, '/')
    requires digits != [] && AllDigits(digits)
    ensures IsPostUrl(scheme + (m + (HOST + (blog + ("/" + (digits + rest))))), ic)
  {
    var v := m + (HOST + (blog + ("/" + (digits + rest))));
    var u := scheme + v;
    var j := |scheme|;
    SchemeOf(scheme, u, ic);
    assert u[j..] == v;
    BlogPathFrom(u, j, m, blog, digits, rest, ic);
    IsPostUrlAt(u, j, ic);
  }

  /** `http(s)://(m.)blog.naver.com/<blog>/<digits>...` is a post URL, in both modes. */
  lemma AcceptsBlogPath(scheme: string, mobile: bool, blog: string, digits: string, rest: string, ic: bool)
    requires scheme == "http://" || scheme == "https://"
    requires blog != [] && NoChar(blog, '/')
    requires digits != [] && AllDigits(digits)
    ensures IsPostUrl(scheme + (if mobile then "m." else "") + HOST + blog + "/" + digits + rest, ic)
  {
    var m := if mobile then "m." else "";
    assert scheme + m + HOST + blog + "/" + digits + rest
        == scheme + (m + (HOST + (blog + ("/" + (digits + rest)))));
    BlogPathNested(scheme, m, blog, digits, rest, ic);
  }

  lemma LogNoAfter(u: string, i: nat, params: string, digits: string, rest: string, ic: bool)
    requires i <= |u| && u[i..] == params + ("logNo=" + (digits + rest))
    requires NoChar(params, '\n')
    requires digits != [] && AllDigits(digits)
    ensures LogNoFrom(u, i, ic)
  {
    var m := i + |params|;
    forall k | i <= k < m
      ensures u[k] != '\n'
    {
      assert u[k] == u[i..][k - i] == params[k - i];
    }
    assert u[m..] == u[i..][|params|..] == "logNo=" + (digits + rest);
    LitPrefix(u, m, "logNo=", digits + rest, ic);
    assert u[m + 6] == u[m + 6..][0] == digits[0];
    LogNoAt(u, i, m, ic);
  }

  /** `http(s)://blog.naver.com/PostView.naver?...logNo=<digits>...` is a post URL,
      in both modes, when no line break precedes `logNo=`. */
  lemma AcceptsPostView(scheme: string, params: string, digits: string, rest: string, ic: bool)
    requires scheme == "http://" || scheme == "https://"
    requires NoChar(params, '\n')
    requires digits != [] && AllDigits(digits)
    ensures IsPostUrl(scheme + POST_VIEW + params + "logNo=" + digits + rest, ic)
  {
    var tail := params + ("logNo=" + (digits + rest));
    var u := scheme + (POST_VIEW + tail);
    assert u == scheme + POST_VIEW + params + "logNo=" + digits + rest;
    var j := |scheme|;
    SchemeOf(scheme, u, ic);
    assert u[j..] == POST_VIEW + tail;
    LitPrefix(u, j, POST_VIEW, tail, ic);
    LogNoAfter(u, j + |POST_VIEW|, params, digits, rest, ic);
    IsPostUrlAt(u, j, ic);
  }

  /** What the pattern matches case-sensitively it also matches ignoring case. */
  lemma {:induction false} LogNoIgnoringCase(u: string, i: nat)
    requires LogNoFrom(u, i, false)
    ensures LogNoFrom(u, i, true)
    decreases |u| - i
  {
    if LitAt(u, i, "logNo=", false) && i + 6 < |u| && IsDigit(u[i + 6]) {
      LitAtIgnoringCase(u, i, "logNo=");
    } else {
      LogNoIgnoringCase(u, i + 1);
    }
  }

  lemma CaseSensitiveImpliesIgnoringCase(u: string)
    requires IsPostUrl(u, false)
    ensures IsPostUrl(u, true)
  {
    var j := SchemeEnd(u, false).value;
    LitAtIgnoringCase(u, 0, "http");
    if LitAt(u, 4, "s://", false) {
      LitAtIgnoringCase(u, 4, "s://");
    } else {
      LitAtIgnoringCase(u, 4, "://");
      assert CharMatch("://"[0], u[4], false);
    }
    assert SchemeEnd(u, true) == Some(j);
    if BlogPathAt(u, j, false) {
      if LitAt(u, j, "m.", false) && LitAt(u, j + 2, HOST, false) && SegmentThenDigits(u, j + 2 + |HOST|) {
        LitAtIgnoringCase(u, j, "m.");
        LitAtIgnoringCase(u, j + 2, HOST);
      } else {
        LitAtIgnoringCase(u, j, HOST);
      }
    } else {
      LitAtIgnoringCase(u, j, POST_VIEW);
      LogNoIgnoringCase(u, j + |POST_VIEW|);
    }
  }

  // ---------------------------------------------------------------------------
  // The substring test of step2/crawler_step2.py

  /** `("blog.naver.com" in url or "m.blog.naver.com" in url) and
      any(s in url for s in ["PostView.naver", "/"])`. */
  predicate LooseIsPostUrl(url: string)
  {
    (Contains(url, "blog.naver.com") || Contains(url, "m.blog.naver.com"))
    && (Contains(url, "PostView.naver") || Contains(url, "/"))
  }

  /** The mobile host test adds nothing: its host contains the desktop one. */
  lemma LooseIsPostUrlHost(url: string)
    ensures LooseIsPostUrl(url) <==>
      Contains(url, "blog.naver.com") && (Contains(url, "PostView.naver") || Contains(url, "/"))
  {
    if Contains(url, "m.blog.naver.com") {
      MobileHostIsBlogHost(url);
    }
  }

  lemma MobileHostIsBlogHost(s: string)
    requires Contains(s, "m.blog.naver.com")
    ensures Contains(s, "blog.naver.com")
  {
    assert "m.blog.naver.com"[2..2 + 14] == "blog.naver.com";
    ContainsInner(s, "m.blog.naver.com", 2, 14);
  }

  /** Literal text matched case-sensitively is contained in the string. */
  lemma LitAtContains(u: string, i: nat, lit: string, k: nat, n: nat)
    requires LitAt(u, i, lit, false) && k + n <= |lit|
    ensures Contains(u, lit[k..k + n])
  {
    LitAtExact(u, i, lit);
    ContainsAt(u, lit, i);
    ContainsInner(u, lit, k, n);
  }

  /** Literal text that starts with the host and a slash, matched
      case-sensitively, passes the substring test. */
  lemma HostLitLoose(u: string, i: nat, lit: string)
    requires |lit| >= 15 && lit[0..14] == "blog.naver.com" && lit[14..15] == "/"
    requires LitAt(u, i, lit, false)
    ensures LooseIsPostUrl(u)
  {
    LitAtContains(u, i, lit, 0, 14);
    LitAtContains(u, i, lit, 14, 1);
  }

  /** Whatever the case-sensitive pattern accepts, the substring test accepts too. */
  lemma StrictImpliesLoose(u: string)
    requires IsPostUrl(u, false)
    ensures LooseIsPostUrl(u)
  {
    var j := SchemeEnd(u, false).value;
    assert HOST[0..14] == "blog.naver.com" && HOST[14..15] == "/";
    assert POST_VIEW[0..14] == "blog.naver.com" && POST_VIEW[14..15] == "/";
    if LitAt(u, j, "m.", false) && LitAt(u, j + 2, HOST, false) && SegmentThenDigits(u, j + 2 + |HOST|) {
      HostLitLoose(u, j + 2, HOST);
    } else if LitAt(u, j, HOST, false) && SegmentThenDigits(u, j + |HOST|) {
      HostLitLoose(u, j, HOST);
    } else {
      HostLitLoose(u, j, POST_VIEW);
    }
  }

  /** The converse fails: a bare host with a slash passes the substring test
      but has no scheme, so the pattern rejects it in either mode. */
  lemma LooseAcceptsMore(ic: bool)
    ensures LooseIsPostUrl(HOST) && !IsPostUrl(HOST, ic)
  {
    assert HOST[..14] == "blog.naver.com" && HOST[14..15] == "/";
    ContainsPrefix(HOST, "blog.naver.com");
    ContainsAt(HOST, "/", 14);
    assert !CharMatch("http"[0], HOST[0], ic);
  }

  // ---------------------------------------------------------------------------
  // URL decomposition

  /** What `urlparse` and `parse_qs` make of a URL: the whole text, the host,
      the path and, per query parameter, its values in order of appearance. */
  datatype Loc = Loc(raw: string, netloc: string, path: string, query: map<string, seq<string>>)

  /** `(q.get(name) or [""])[0]`: the first value of a query parameter, or "". */
  function QueryFirst(q: map<string, seq<string>>, name: string): (v: string)
    ensures name !in q ==> v == ""
    ensures name in q && q[name] != [] ==> v == q[name][0]
  {
    if name in q && q[name] != [] then q[name][0] else ""
  }

  /** `extract_ids` of step2_posts.py and crawling/daily/step2_posts.py: on the
      mobile host the first two non-empty path segments, on the desktop
      `PostView.naver` page the `blogId` and `logNo` parameters, else nothing. */
  function ExtractIds(p: Loc): (ids: (string, string))
    ensures Contains(p.netloc, "m.blog.naver.com") ==>
      (ids.0 == "" <==> ids.1 == "") && NoChar(ids.0, '/') && NoChar(ids.1, '/')
    ensures !Contains(p.netloc, "blog.naver.com") ==> ids == ("", "")
  {
    if Contains(p.netloc, "m.blog.naver.com") then
      var parts := NonEmptyParts(Split(p.path, '/'));
      MobileHostIsBlogHost(p.netloc);
      if |parts| >= 2 then
        assert parts[0] in Split(p.path, '/') && parts[1] in Split(p.path, '/');
        (parts[0], parts[1])
      else ("", "")
    else if Contains(p.netloc, "blog.naver.com") && Contains(p.path, "PostView.naver") then
      (QueryFirst(p.query, "blogId"), QueryFirst(p.query, "logNo"))
    else ("", "")
  }

  /** On the mobile host the ids are the first two path segments left once
      the empty ones are deleted, and both are "" when fewer than two remain. */
  lemma ExtractIdsMobileSegments(p: Loc)
    requires Contains(p.netloc, "m.blog.naver.com")
    ensures var segs := Filter(Split(p.path, '/'), NonEmpty);
      (|segs| < 2 ==> ExtractIds(p) == ("", "")) &&
      (|segs| >= 2 ==> ExtractIds(p) == (segs[0], segs[1]))
  {
    NonEmptyPartsInOrder(Split(p.path, '/'));
  }

  /** On the desktop host the ids come from the `PostView.naver` query, and
      there are none on any other page. */
  lemma ExtractIdsDesktop(p: Loc)
    requires Contains(p.netloc, "blog.naver.com") && !Contains(p.netloc, "m.blog.naver.com")
    ensures Contains(p.path, "PostView.naver") ==>
      ExtractIds(p) == (QueryFirst(p.query, "blogId"), QueryFirst(p.query, "logNo"))
    ensures !Contains(p.path, "PostView.naver") ==> ExtractIds(p) == ("", "")
  {
  }

  /** `extract_ids` of step2/crawler_step2.py: on the mobile host, indexes 1 and
      2 of `path.split("/")` (empty segments included) when there are three
      parts; otherwise the query parameters, whatever the host. */
  function ExtractIdsByIndex(p: Loc): (ids: (string, string))
    ensures !Contains(p.netloc, "m.blog.naver.com") ==>
      ids == (QueryFirst(p.query, "blogId"), QueryFirst(p.query, "logNo"))
  {
    var parts := Split(p.path, '/');
    if Contains(p.netloc, "m.blog.naver.com") && |parts| >= 3 then (parts[1], parts[2])
    else (QueryFirst(p.query, "blogId"), QueryFirst(p.query, "logNo"))
  }

  /** A path of two named segments, `/<blog>/<post>`, possibly followed by more. */
  predicate TwoSegmentPath(path: string, blog: string, post: string, more: string)
  {
    blog != "" && post != "" && NoChar(blog, '/') && NoChar(post, '/') &&
    (more == "" || more[0] == '/') && path == "/" + blog + "/" + post + more
  }

  /** The last named segment and what may follow it. */
  lemma SplitLastSegment(post: string, more: string)
    requires NoChar(post, '/') && (more == "" || more[0] == '/')
    ensures |Split(post + more, '/')| >= 1 && Split(post + more, '/')[0] == post
    ensures more == "" ==> Split(post + more, '/') == [post]
  {
    if more == "" {
      assert post + more == post;
      SplitNoSep(post, '/');
    } else {
      assert post + more == post + ['/'] + more[1..];
      SplitConcatSep(post, more[1..], '/');
    }
  }

  lemma SplitTwoSegments(path: string, blog: string, post: string, more: string)
    requires TwoSegmentPath(path, blog, post, more)
    ensures |Split(path, '/')| >= 3
    ensures Split(path, '/')[..3] == ["", blog, post]
    ensures more == "" ==> Split(path, '/') == ["", blog, post]
  {
    var rest := post + more;
    assert path == "" + ['/'] + (blog + ['/'] + rest);
    SplitConcatSep("", blog + ['/'] + rest, '/');
    SplitConcatSep(blog, rest, '/');
    SplitLastSegment(post, more);
  }

  /** On the mobile host both conventions read `/<blog>/<post>` the same way. */
  lemma ExtractIdsMobile(p: Loc, blog: string, post: string, more: string)
    requires Contains(p.netloc, "m.blog.naver.com")
    requires TwoSegmentPath(p.path, blog, post, more)
    ensures ExtractIds(p) == (blog, post)
    ensures ExtractIdsByIndex(p) == (blog, post)
  {
    SplitTwoSegments(p.path, blog, post, more);
    var parts := Split(p.path, '/');
    assert parts == ["", blog, post] + parts[3..];
    assert NonEmptyParts(parts) == NonEmptyParts(parts[1..]);
    assert parts[1..] == [blog] + parts[2..];
    assert parts[2..] == [post] + parts[3..];
  }

  lemma DoubleSlashParts(path: string, blog: string, post: string)
    requires blog != "" && post != "" && NoChar(blog, '/') && NoChar(post, '/')
    requires path == "//" + blog + "/" + post
    ensures Split(path, '/') == ["", "", blog, post]
  {
    var tail := "/" + blog + "/" + post + "";
    assert path == "" + ['/'] + tail;
    SplitConcatSep("", tail, '/');
    SplitTwoSegments(tail, blog, post, "");
  }

  lemma NonEmptyOfTwoBlanks(blog: string, post: string)
    requires blog != "" && post != ""
    ensures NonEmptyParts(["", "", blog, post]) == [blog, post]
  {
    var parts := ["", "", blog, post];
    assert parts[1..] == ["", blog, post];
    assert parts[2..] == [blog, post];
    assert parts[3..] == [post];
    assert NonEmptyParts(parts[3..]) == [post];
    assert NonEmptyParts(parts[2..]) == [blog, post];
    assert NonEmptyParts(parts[1..]) == [blog, post];
  }

  /** An empty first segment (`//<blog>/<post>`) is skipped by one convention
      and read as the blog id by the other. */
  lemma ExtractIdsDoubleSlash(p: Loc, blog: string, post: string)
    requires Contains(p.netloc, "m.blog.naver.com")
    requires blog != "" && post != "" && NoChar(blog, '/') && NoChar(post, '/')
    requires p.path == "//" + blog + "/" + post
    ensures ExtractIds(p) == (blog, post)
    ensures ExtractIdsByIndex(p) == ("", blog)
  {
    DoubleSlashParts(p.path, blog, post);
    NonEmptyOfTwoBlanks(blog, post);
  }

  /** On the desktop `PostView.naver` page both conventions read the query. */
  lemma ExtractIdsPostView(p: Loc)
    requires Contains(p.netloc, "blog.naver.com") && !Contains(p.netloc, "m.blog.naver.com")
    requires Contains(p.path, "PostView.naver")
    ensures ExtractIds(p) == ExtractIdsByIndex(p) == (QueryFirst(p.query, "blogId"), QueryFirst(p.query, "logNo"))
  {
  }

  /** Away from `PostView.naver` the desktop host yields no ids in one
      convention, and the query parameters in the other. */
  lemma ExtractIdsDesktopPath(p: Loc)
    requires !Contains(p.netloc, "m.blog.naver.com") && !Contains(p.path, "PostView.naver")
    ensures ExtractIds(p) == ("", "")
    ensures ExtractIdsByIndex(p) == (QueryFirst(p.query, "blogId"), QueryFirst(p.query, "logNo"))
  {
  }

  // ---------------------------------------------------------------------------
  // The frame address of the desktop blog page

  /** The `iframe#mainFrame` `src` fix-up of step2_posts.py and
      crawling/daily/step2_posts.py: protocol-relative sources get `https:`,
      host-relative ones `https://blog.naver.com`. */
  function ResolveFrameSrc(src: string): (r: string)
    ensures EndsWith(r, src)
    ensures StartsWith(src, "//") ==> r == "https:" + src
    ensures StartsWith(src, "/") && !StartsWith(src, "//") ==> r == "https://blog.naver.com" + src
    ensures !StartsWith(src, "/") ==> r == src
  {
    if StartsWith(src, "//") then "https:" + src
    else if StartsWith(src, "/") then "https://blog.naver.com" + src
    else src
  }

  /** A resolved address is left alone by a second resolution. */
  lemma ResolveFrameSrcIdempotent(src: string)
    ensures ResolveFrameSrc(ResolveFrameSrc(src)) == ResolveFrameSrc(src)
  {
    var r := ResolveFrameSrc(src);
    if StartsWith(src, "/") {
      assert r[0] == 'h';
    }
  }

  /** The fix-up of daily_crawling.py, which handles only protocol-relative sources. */
  function ResolveFrameSrcDaily(src: string): (r: string)
    ensures EndsWith(r, src)
    ensures StartsWith(src, "//") ==> r == "https:" + src
    ensures !StartsWith(src, "//") ==> r == src
  {
    if StartsWith(src, "//") then "https:" + src else src
  }

  /** The two fix-ups differ exactly on host-relative sources. */
  lemma ResolveFrameSrcVariants(src: string)
    ensures ResolveFrameSrcDaily(src) == ResolveFrameSrc(src) <==> !StartsWith(src, "/") || StartsWith(src, "//")
  {
    if StartsWith(src, "/") && !StartsWith(src, "//") {
      assert |ResolveFrameSrc(src)| > |src|;
    }
  }
}
