/** crawling/step2/extractor.py: body, hashtags, images and videos read from
    the parsed page source.  The parse is given: a `Soup` holds the tags of
    `find_all(["p", "div", "span"])` and what `select(css)` returns.  Unlike
    the Selenium extraction, these lists keep duplicates. */
module Extractor {
  import opened Base
  import opened Lists
  import opened Extraction

  /** A parsed tag: `get_text(strip=True)`, `get_text(" ", strip=True)` and
      its attributes. */
  datatype Tag = Tag(text: string, spacedText: string, attrs: map<string, string>)

  /** The page source as BeautifulSoup parses it. */
  datatype Soup = Soup(blocks: seq<Tag>, select: string -> seq<Tag>)

  const TAG_SELECTOR := "span.se_hashtag, a.link_tag"
  const VIDEO_KEYS := ["youtube", "tv.naver", "vimeo"]

  /** `tag.get(name)`. */
  function TagAttr(t: Tag, name: string): Option<string>
  {
    if name in t.attrs then Some(t.attrs[name]) else None
  }

  // ---------------------------------------------------------------------------
  // extract_body

  function BlockTexts(blocks: seq<Tag>): (ts: seq<string>)
    ensures |ts| == |blocks|
    ensures forall k :: 0 <= k < |blocks| ==> ts[k] == blocks[k].spacedText
  {
    seq(|blocks|, k requires 0 <= k < |blocks| => blocks[k].spacedText)
  }

  /** `extract_body(driver)`: the first longest block text, cut to 200000
      characters, or "" for a page without blocks. */
  function ExtractBody(soup: Soup): (r: string)
    ensures |r| <= BODY_LIMIT
    ensures soup.blocks == [] ==> r == ""
    ensures soup.blocks != [] ==>
      exists k :: (0 <= k < |soup.blocks| &&
        StartsWith(soup.blocks[k].spacedText, r) &&
        |r| == (if |soup.blocks[k].spacedText| <= BODY_LIMIT then |soup.blocks[k].spacedText| else BODY_LIMIT) &&
        (forall j :: 0 <= j < |soup.blocks| ==> |soup.blocks[j].spacedText| <= |soup.blocks[k].spacedText|) &&
        (forall j :: 0 <= j < k ==> |soup.blocks[j].spacedText| < |soup.blocks[k].spacedText|))
  {
    var texts := BlockTexts(soup.blocks);
    if texts == [] then ""
    else
      var k := LongestIndex(texts);
      Take(texts[k], BODY_LIMIT)
  }

  // ---------------------------------------------------------------------------
  // extract_tags

  /** `raw if raw.startswith("#") else "#" + raw`. */
  function HashPrefixed(raw: string): (r: string)
    ensures StartsWith(r, "#")
    ensures StartsWith(raw, "#") ==> r == raw
    ensures !StartsWith(raw, "#") ==> r[1..] == raw
  {
    if StartsWith(raw, "#") then raw else "#" + raw
  }

  /** Prefixing is idempotent. */
  lemma HashPrefixedIdempotent(raw: string)
    ensures HashPrefixed(HashPrefixed(raw)) == HashPrefixed(raw)
  {
  }

  /** The tags the loop keeps, in order and with repeats. */
  function TagTexts(tags: seq<Tag>): (ts: seq<string>)
    ensures |ts| <= |tags|
    ensures forall k :: 0 <= k < |ts| ==> StartsWith(ts[k], "#")
    decreases |tags|
  {
    if tags == [] then []
    else
      var t := tags[|tags| - 1];
      TagTexts(tags[..|tags| - 1]) + (if t.text != "" then [HashPrefixed(t.text)] else [])
  }

  /** Tags are kept in document order, duplicates included: the tags of two
      runs of elements are the tags of each, one after the other. */
  lemma {:induction false} TagTextsConcat(a: seq<Tag>, b: seq<Tag>)
    ensures TagTexts(a + b) == TagTexts(a) + TagTexts(b)
    decreases |b|
  {
    if b == [] {
      assert a + b == a;
    } else {
      var n := |b| - 1;
      assert (a + b)[..|a + b| - 1] == a + b[..n];
      TagTextsConcat(a, b[..n]);
    }
  }

  /** An element is kept when its stripped text is not empty. */
  predicate HasText(t: Tag)
  {
    t.text != ""
  }

  /** The hashtag a kept element contributes. */
  function TagOf(t: Tag): string
  {
    HashPrefixed(t.text)
  }

  /** One element: dropped when its text is empty, otherwise its text with
      `#` put in front when missing. */
  lemma TagTextsOne(t: Tag)
    ensures TagTexts([t]) == (if t.text != "" then [HashPrefixed(t.text)] else [])
  {
    assert [t][..0] == [];
  }

  /** The tags are the elements with a text, each made a hashtag, in
      document order and with repeats. */
  lemma {:induction false} TagTextsKeptElements(tags: seq<Tag>)
    ensures TagTexts(tags) == Map(TagOf, Filter(tags, HasText))
    decreases |tags|
  {
    if tags != [] {
      var n := |tags| - 1;
      TagTextsKeptElements(tags[..n]);
      assert tags == tags[..n] + [tags[n]];
      FilterAppend(tags[..n], tags[n], HasText);
      if HasText(tags[n]) {
        MapSnoc(TagOf, Filter(tags[..n], HasText), tags[n]);
      }
    }
  }

  /** Elements whose texts are already hashtags give exactly those texts. */
  lemma {:induction false} TagTextsOfHashtags(tags: seq<Tag>)
    requires forall k :: 0 <= k < |tags| ==> StartsWith(tags[k].text, "#")
    ensures TagTexts(tags) == seq(|tags|, k requires 0 <= k < |tags| => tags[k].text)
    decreases |tags|
  {
    if tags != [] {
      TagTextsOfHashtags(tags[..|tags| - 1]);
    }
  }

  /** `extract_tags(driver)`. */
  method ExtractTags(soup: Soup) returns (r: string)
    ensures r == Join(TagTexts(soup.select(TAG_SELECTOR)), "|")
  {
    var els := soup.select(TAG_SELECTOR);
    var tags: seq<string> := [];
    for i := 0 to |els|
      invariant tags == TagTexts(els[..i])
    {
      assert els[..i + 1][..i] == els[..i];
      var raw := els[i].text;
      if raw != "" {
        if !StartsWith(raw, "#") {
          raw := "#" + raw;
        }
        tags := tags + [raw];
      }
    }
    assert els[..|els|] == els;
    r := Join(tags, "|");
  }

  // ---------------------------------------------------------------------------
  // extract_images

  /** The `src` of each image that starts with "http", in order, repeats kept. */
  function HttpSrcs(imgs: seq<Tag>): (ss: seq<string>)
    ensures |ss| <= |imgs|
    ensures forall k :: 0 <= k < |ss| ==> StartsWith(ss[k], "http")
    decreases |imgs|
  {
    if imgs == [] then []
    else
      var src := TagAttr(imgs[|imgs| - 1], "src");
      HttpSrcs(imgs[..|imgs| - 1]) + (if src.Some? && StartsWith(src.value, "http") then [src.value] else [])
  }

  /** A source is kept exactly when some image has it and it starts with "http". */
  lemma {:induction false} HttpSrcsExact(imgs: seq<Tag>, s: string)
    ensures s in HttpSrcs(imgs) <==>
      StartsWith(s, "http") && exists k :: 0 <= k < |imgs| && TagAttr(imgs[k], "src") == Some(s)
    decreases |imgs|
  {
    if imgs != [] {
      var n := |imgs| - 1;
      HttpSrcsExact(imgs[..n], s);
      assert forall k :: 0 <= k < n ==> imgs[..n][k] == imgs[k];
    }
  }

  /** An image is kept when it has a `src` that starts with "http". */
  predicate HasHttpSrc(t: Tag)
  {
    TagAttr(t, "src").Some? && StartsWith(TagAttr(t, "src").value, "http")
  }

  /** `img.get("src") or ""`. */
  function SrcOf(t: Tag): string
  {
    OrEmpty(TagAttr(t, "src"))
  }

  /** One image: its `src` when that starts with "http", otherwise nothing. */
  lemma HttpSrcsOne(t: Tag)
    ensures HttpSrcs([t]) == (if HasHttpSrc(t) then [TagAttr(t, "src").value] else [])
  {
    assert [t][..0] == [];
  }

  /** Sources are kept in document order, duplicates included: the sources
      of two runs of images are those of each, one after the other. */
  lemma {:induction false} HttpSrcsConcat(a: seq<Tag>, b: seq<Tag>)
    ensures HttpSrcs(a + b) == HttpSrcs(a) + HttpSrcs(b)
    decreases |b|
  {
    if b == [] {
      assert a + b == a;
    } else {
      var n := |b| - 1;
      assert (a + b)[..|a + b| - 1] == a + b[..n];
      HttpSrcsConcat(a, b[..n]);
    }
  }

  /** The sources are those of the images with an http `src`, in document
      order and with repeats. */
  lemma {:induction false} HttpSrcsKeptImages(imgs: seq<Tag>)
    ensures HttpSrcs(imgs) == Map(SrcOf, Filter(imgs, HasHttpSrc))
    decreases |imgs|
  {
    if imgs != [] {
      var n := |imgs| - 1;
      HttpSrcsKeptImages(imgs[..n]);
      assert imgs == imgs[..n] + [imgs[n]];
      FilterAppend(imgs[..n], imgs[n], HasHttpSrc);
      if HasHttpSrc(imgs[n]) {
        MapSnoc(SrcOf, Filter(imgs[..n], HasHttpSrc), imgs[n]);
      }
    }
  }

  /** `extract_images(driver)`. */
  method ExtractImages(soup: Soup) returns (r: string)
    ensures r == Join(HttpSrcs(soup.select("img")), "|")
  {
    var els := soup.select("img");
    var imgs: seq<string> := [];
    for i := 0 to |els|
      invariant imgs == HttpSrcs(els[..i])
    {
      assert els[..i + 1][..i] == els[..i];
      var src := TagAttr(els[i], "src");
      if src.Some? && src.value != "" && StartsWith(src.value, "http") {
        imgs := imgs + [src.value];
      }
    }
    assert els[..|els|] == els;
    r := Join(imgs, "|");
  }

  // ---------------------------------------------------------------------------
  // extract_videos

  /** `ifr.get("src") or ""`. */
  function FrameSrc(f: Tag): string
  {
    OrEmpty(TagAttr(f, "src"))
  }

  /** `any(k in s for k in ["youtube", "tv.naver", "vimeo"])`. */
  predicate IsVideoSrc(s: string)
  {
    ContainsAny(s, VIDEO_KEYS)
  }

  /** The `src` of each frame naming a video host, in order, repeats kept. */
  function VideoSrcs(frames: seq<Tag>): (ss: seq<string>)
    ensures |ss| <= |frames|
    ensures forall k :: 0 <= k < |ss| ==> ContainsAny(ss[k], VIDEO_KEYS)
  {
    Filter(Map(FrameSrc, frames), IsVideoSrc)
  }

  /** A source is kept exactly when some frame has it and it names a video host. */
  lemma VideoSrcsExact(frames: seq<Tag>, s: string)
    ensures s in VideoSrcs(frames) <==>
      ContainsAny(s, VIDEO_KEYS) && exists k :: 0 <= k < |frames| && OrEmpty(TagAttr(frames[k], "src")) == s
  {
    var ys := Map(FrameSrc, frames);
    var r := VideoSrcs(frames);
    if s in r {
      var i :| 0 <= i < |r| && r[i] == s;
      assert r[i] in ys && IsVideoSrc(r[i]);
      var k :| 0 <= k < |ys| && ys[k] == s;
      assert FrameSrc(frames[k]) == s;
    }
    if ContainsAny(s, VIDEO_KEYS) && exists k :: 0 <= k < |frames| && OrEmpty(TagAttr(frames[k], "src")) == s {
      var k :| 0 <= k < |frames| && OrEmpty(TagAttr(frames[k], "src")) == s;
      assert ys[k] == s;
      FilterKeeps(ys, IsVideoSrc, s);
    }
  }

  /** `extract_videos(driver)`. */
  method ExtractVideos(soup: Soup) returns (r: string)
    ensures r == Join(VideoSrcs(soup.select("iframe")), "|")
  {
    var els := soup.select("iframe");
    var vids: seq<string> := [];
    ghost var srcs: seq<string> := [];
    for i := 0 to |els|
      invariant srcs == Map(FrameSrc, els[..i])
      invariant vids == Filter(srcs, IsVideoSrc)
    {
      var s := OrEmpty(TagAttr(els[i], "src"));
      MapStep(FrameSrc, els, i, srcs, s);
      FilterAppend(srcs, s, IsVideoSrc);
      srcs := srcs + [s];
      if IsVideoSrc(s) {
        vids := vids + [s];
      }
    }
    assert els[..|els|] == els;
    r := Join(vids, "|");
  }
}
