/** `find_roots` and `extract_body_tags_imgs_videos` of step2_posts.py and
    crawling/daily/step2_posts.py.

    Both versions walk the root elements of a post, collecting root texts,
    hashtags, image sources and video frame sources; every list but the
    bodies skips values already present, so it keeps first occurrences in
    order.  What differs between the versions is a `Profile`.  Each method is
    proved against a function built the same way as the loops that compute
    it: candidates of a prefix of the input, extended one at a time. */
module Extraction {
  import opened Base
  import opened Common
  import opened TextParse
  import opened Dedup
  import opened Lists
  import opened Page

  /** What the two versions do differently. */
  datatype Profile = Profile(
    roots: seq<string>,        // the candidate root selectors of find_roots
    tagSelectors: seq<string>, // the hashtag selectors tried inside each root
    innerTextFirst: bool,      // `innerText or text` rather than `text or innerText`
    videoKeys: seq<string>,    // an iframe is a video when its src contains one of these
    tagBoxes: bool)            // also read the `div[id^='tagList_']` boxes of the page

  /** `(body[:200000], tags, imgs, vids)`. */
  datatype Extracted = Extracted(body: string, tags: seq<string>, imgs: seq<string>, vids: seq<string>)

  const BODY_LIMIT := 200000
  const TAG_BOX := "div[id^='tagList_']"
  const TAG_BOX_SPANS := "a.item.pcol2.itemTagfont._setTop span.ell, a.item span.ell, a span.ell"
  const TAG_BOX_LINKS := "a.item.pcol2.itemTagfont._setTop, a.item"

  predicate Distinct(xs: seq<string>)
  {
    forall i, j :: 0 <= i < j < |xs| ==> xs[i] != xs[j]
  }

  predicate IsHashtag(t: string)
  {
    t != "" && t[0] == '#' && NoSpace(t)
  }

  // ---------------------------------------------------------------------------
  // find_roots

  /** Every match of every candidate selector, selector by selector. */
  function RootMatches(page: Elem, cands: seq<string>): (els: seq<Elem>)
    ensures |cands| == 0 ==> |els| == 0
    decreases |cands|
  {
    if cands == [] then []
    else RootMatches(page, cands[..|cands| - 1]) + page.css(cands[|cands| - 1])
  }

  /** `find_roots(driver)`: all candidate matches, else the `body` element;
      `find_element` raises when the page has no body either. */
  function Roots(page: Elem, cands: seq<string>): (r: Result<seq<Elem>>)
    ensures r.Ok? ==> |r.value| > 0
    ensures r.Err? ==> r.fault == NO_SUCH_ELEMENT && |RootMatches(page, cands)| == 0
  {
    var els := RootMatches(page, cands);
    if |els| > 0 then Ok(els)
    else
      var body := FindElement(page, "body");
      if body.Err? then Err(body.fault) else Ok([body.value])
  }

  method FindRoots(page: Elem, cands: seq<string>) returns (r: Result<seq<Elem>>)
    ensures r == Roots(page, cands)
  {
    var els: seq<Elem> := [];
    for k := 0 to |cands|
      invariant els == RootMatches(page, cands[..k])
    {
      assert cands[..k + 1][..k] == cands[..k];
      els := els + page.css(cands[k]);
    }
    assert cands[..|cands|] == cands;
    if |els| > 0 {
      return Ok(els);
    }
    var body := FindElement(page, "body");
    if body.Err? {
      return Err(body.fault);
    }
    return Ok([body.value]);
  }

  // ---------------------------------------------------------------------------
  // Candidates, in the order the loops meet them

  /** The cleaned texts of the roots that have one. */
  function Bodies(roots: seq<Elem>): (bs: seq<string>)
    ensures forall k :: 0 <= k < |bs| ==> bs[k] != "" && IsClean(bs[k])
    decreases |roots|
  {
    if roots == [] then []
    else
      var t := Clean(roots[|roots| - 1].text);
      var bs := Bodies(roots[..|roots| - 1]);
      BodiesSnoc(bs, t);
      bs + (if t != "" then [t] else [])
  }

  lemma BodiesSnoc(bs: seq<string>, t: string)
    requires forall k :: 0 <= k < |bs| ==> bs[k] != "" && IsClean(bs[k])
    requires t != "" ==> IsClean(t)
    ensures var r := bs + (if t != "" then [t] else []);
      forall k :: 0 <= k < |r| ==> r[k] != "" && IsClean(r[k])
  {
  }

  /** `(el.get_attribute("innerText") or el.text or "").strip()`, or with the
      two sources the other way round. */
  function RawTagText(el: Elem, innerTextFirst: bool): string
  {
    if innerTextFirst then Strip(OrEmpty(OrElse(Attr(el, "innerText"), Some(el.text))))
    else Strip(OrEmpty(OrElse(Some(el.text), Attr(el, "innerText"))))
  }

  /** The non-empty normalised hashtags of `els`, duplicates included. */
  function ElemTags(els: seq<Elem>, innerTextFirst: bool): (ts: seq<string>)
    ensures forall k :: 0 <= k < |ts| ==> IsHashtag(ts[k])
    decreases |els|
  {
    if els == [] then []
    else
      var ht := NormalizeHashtag(RawTagText(els[|els| - 1], innerTextFirst));
      var ts := ElemTags(els[..|els| - 1], innerTextFirst);
      HashtagsSnoc(ts, ht);
      ts + (if ht != "" then [ht] else [])
  }

  lemma HashtagsSnoc(ts: seq<string>, ht: string)
    requires forall k :: 0 <= k < |ts| ==> IsHashtag(ts[k])
    requires ht != "" ==> IsHashtag(ht)
    ensures var r := ts + (if ht != "" then [ht] else []);
      forall k :: 0 <= k < |r| ==> IsHashtag(r[k])
  {
  }

  /** The hashtags found under one root, selector by selector. */
  function RootTags(root: Elem, sels: seq<string>, innerTextFirst: bool): (ts: seq<string>)
    ensures forall k :: 0 <= k < |ts| ==> IsHashtag(ts[k])
    decreases |sels|
  {
    if sels == [] then []
    else RootTags(root, sels[..|sels| - 1], innerTextFirst) + ElemTags(root.css(sels[|sels| - 1]), innerTextFirst)
  }

  function TagsOfRoots(roots: seq<Elem>, pr: Profile): (ts: seq<string>)
    ensures forall k :: 0 <= k < |ts| ==> IsHashtag(ts[k])
    decreases |roots|
  {
    if roots == [] then []
    else TagsOfRoots(roots[..|roots| - 1], pr) + RootTags(roots[|roots| - 1], pr.tagSelectors, pr.innerTextFirst)
  }

  /** The hashtags of the `tagList_` boxes: first the spans, then the links of each box. */
  function BoxTags(boxes: seq<Elem>): (ts: seq<string>)
    ensures forall k :: 0 <= k < |ts| ==> IsHashtag(ts[k])
    decreases |boxes|
  {
    if boxes == [] then []
    else
      var box := boxes[|boxes| - 1];
      BoxTags(boxes[..|boxes| - 1]) + ElemTags(box.css(TAG_BOX_SPANS), false) + ElemTags(box.css(TAG_BOX_LINKS), false)
  }

  /** `img.get_attribute("src") or img.get_attribute("data-src") or img.get_attribute("data-lazy-src")`. */
  function ImgSrc(img: Elem): (r: Option<string>)
    ensures Attr(img, "src").Some? && Attr(img, "src").value != "" ==> r == Attr(img, "src")
    ensures r.Some? && r.value != "" ==>
      r == Attr(img, "src") || r == Attr(img, "data-src") || r == Attr(img, "data-lazy-src")
  {
    OrElse(OrElse(Attr(img, "src"), Attr(img, "data-src")), Attr(img, "data-lazy-src"))
  }

  /** The image sources that start with "http", duplicates included. */
  function ImgCands(imgs: seq<Elem>): (ss: seq<string>)
    ensures forall k :: 0 <= k < |ss| ==> StartsWith(ss[k], "http")
    decreases |imgs|
  {
    if imgs == [] then []
    else
      var src := ImgSrc(imgs[|imgs| - 1]);
      ImgCands(imgs[..|imgs| - 1]) + (if src.Some? && StartsWith(src.value, "http") then [src.value] else [])
  }

  function ImgsOfRoots(roots: seq<Elem>): (ss: seq<string>)
    ensures forall k :: 0 <= k < |ss| ==> StartsWith(ss[k], "http")
    decreases |roots|
  {
    if roots == [] then []
    else ImgsOfRoots(roots[..|roots| - 1]) + ImgCands(roots[|roots| - 1].css("img"))
  }

  /** The frame sources that contain a video key, duplicates included. */
  function VidCands(frames: seq<Elem>, keys: seq<string>): (ss: seq<string>)
    ensures forall k :: 0 <= k < |ss| ==> ContainsAny(ss[k], keys)
    decreases |frames|
  {
    if frames == [] then []
    else
      var s := OrEmpty(Attr(frames[|frames| - 1], "src"));
      VidCands(frames[..|frames| - 1], keys) + (if ContainsAny(s, keys) then [s] else [])
  }

  function VidsOfRoots(roots: seq<Elem>, keys: seq<string>): (ss: seq<string>)
    ensures forall k :: 0 <= k < |ss| ==> ContainsAny(ss[k], keys)
    decreases |roots|
  {
    if roots == [] then []
    else VidsOfRoots(roots[..|roots| - 1], keys) + VidCands(roots[|roots| - 1].css("iframe"), keys)
  }

  /** All hashtag candidates of the page, roots first, then the boxes. */
  function AllTags(page: Elem, roots: seq<Elem>, pr: Profile): (ts: seq<string>)
    ensures forall k :: 0 <= k < |ts| ==> IsHashtag(ts[k])
  {
    TagsOfRoots(roots, pr) + (if pr.tagBoxes then BoxTags(page.css(TAG_BOX)) else [])
  }

  /** What `extract_body_tags_imgs_videos(driver)` returns, or the exception
      it raises. */
  function Extract(page: Elem, pr: Profile): Result<Extracted>
  {
    var found := Roots(page, pr.roots);
    if found.Err? then Err(found.fault)
    else
      var roots := found.value;
      Ok(Extracted(
        Take(LongestOrEmpty(Bodies(roots)), BODY_LIMIT),
        Dedup.Dedup(AllTags(page, roots, pr)),
        Dedup.Dedup(ImgsOfRoots(roots)),
        Dedup.Dedup(VidsOfRoots(roots, pr.videoKeys))))
  }

  // ---------------------------------------------------------------------------
  // The loops

  /** One step of the inner hashtag loop. */
  lemma ElemTagsStep(tags: seq<string>, els: seq<Elem>, j: nat, innerTextFirst: bool)
    requires j < |els|
    ensures var ht := NormalizeHashtag(RawTagText(els[j], innerTextFirst));
      var r := AddNewBy(tags, ElemTags(els[..j], innerTextFirst), Id);
      AddNewBy(tags, ElemTags(els[..j + 1], innerTextFirst), Id) == if ht != "" && ht !in r then r + [ht] else r
  {
    assert els[..j + 1][..j] == els[..j];
    var ht := NormalizeHashtag(RawTagText(els[j], innerTextFirst));
    AddNewIdStep(tags, ElemTags(els[..j], innerTextFirst), ElemTags(els[..j + 1], innerTextFirst), ht, ht != "");
  }

  /** The inner loop over the elements of one hashtag selector. */
  method AddTags(tags: seq<string>, els: seq<Elem>, innerTextFirst: bool) returns (r: seq<string>)
    ensures r == AddNewBy(tags, ElemTags(els, innerTextFirst), Id)
  {
    r := tags;
    for j := 0 to |els|
      invariant r == AddNewBy(tags, ElemTags(els[..j], innerTextFirst), Id)
    {
      var ht := NormalizeHashtag(RawTagText(els[j], innerTextFirst));
      ElemTagsStep(tags, els, j, innerTextFirst);
      if ht != "" && ht !in r {
        r := r + [ht];
      }
    }
    assert els[..|els|] == els;
  }

  /** The loop over the hashtag selectors of one root. */
  method AddRootTags(tags: seq<string>, root: Elem, sels: seq<string>, innerTextFirst: bool) returns (r: seq<string>)
    ensures r == AddNewBy(tags, RootTags(root, sels, innerTextFirst), Id)
  {
    r := tags;
    for k := 0 to |sels|
      invariant r == AddNewBy(tags, RootTags(root, sels[..k], innerTextFirst), Id)
    {
      assert sels[..k + 1][..k] == sels[..k];
      AddNewConcat(tags, RootTags(root, sels[..k], innerTextFirst), ElemTags(root.css(sels[k]), innerTextFirst), Id);
      r := AddTags(r, root.css(sels[k]), innerTextFirst);
    }
    assert sels[..|sels|] == sels;
  }

  /** The loop over the `tagList_` boxes of the page. */
  method AddBoxTags(tags: seq<string>, boxes: seq<Elem>) returns (r: seq<string>)
    ensures r == AddNewBy(tags, BoxTags(boxes), Id)
  {
    r := tags;
    for k := 0 to |boxes|
      invariant r == AddNewBy(tags, BoxTags(boxes[..k]), Id)
    {
      var box := boxes[k];
      assert boxes[..k + 1][..k] == boxes[..k];
      ghost var before := BoxTags(boxes[..k]);
      ghost var spans := ElemTags(box.css(TAG_BOX_SPANS), false);
      ghost var links := ElemTags(box.css(TAG_BOX_LINKS), false);
      AddNewConcat(tags, before, spans, Id);
      AddNewConcat(tags, before + spans, links, Id);
      r := AddTags(r, box.css(TAG_BOX_SPANS), false);
      r := AddTags(r, box.css(TAG_BOX_LINKS), false);
    }
    assert boxes[..|boxes|] == boxes;
  }

  lemma ImgStep(imgs: seq<string>, els: seq<Elem>, j: nat)
    requires j < |els|
    ensures var src := ImgSrc(els[j]);
      var r := AddNewBy(imgs, ImgCands(els[..j]), Id);
      AddNewBy(imgs, ImgCands(els[..j + 1]), Id) ==
        if src.Some? && src.value != "" && StartsWith(src.value, "http") && src.value !in r then r + [src.value] else r
  {
    assert els[..j + 1][..j] == els[..j];
    var src := ImgSrc(els[j]);
    var keep := src.Some? && StartsWith(src.value, "http");
    AddNewIdStep(imgs, ImgCands(els[..j]), ImgCands(els[..j + 1]), if keep then src.value else "", keep);
  }

  /** The loop over the `img` elements of one root. */
  method AddImgs(imgs: seq<string>, els: seq<Elem>) returns (r: seq<string>)
    ensures r == AddNewBy(imgs, ImgCands(els), Id)
  {
    r := imgs;
    for j := 0 to |els|
      invariant r == AddNewBy(imgs, ImgCands(els[..j]), Id)
    {
      var src := ImgSrc(els[j]);
      ImgStep(imgs, els, j);
      if src.Some? && src.value != "" && StartsWith(src.value, "http") && src.value !in r {
        r := r + [src.value];
      }
    }
    assert els[..|els|] == els;
  }

  lemma VidStep(vids: seq<string>, els: seq<Elem>, keys: seq<string>, j: nat)
    requires j < |els|
    ensures var s := OrEmpty(Attr(els[j], "src"));
      var r := AddNewBy(vids, VidCands(els[..j], keys), Id);
      AddNewBy(vids, VidCands(els[..j + 1], keys), Id) == if ContainsAny(s, keys) && s !in r then r + [s] else r
  {
    assert els[..j + 1][..j] == els[..j];
    var s := OrEmpty(Attr(els[j], "src"));
    AddNewIdStep(vids, VidCands(els[..j], keys), VidCands(els[..j + 1], keys), s, ContainsAny(s, keys));
  }

  /** The loop over the `iframe` elements of one root. */
  method AddVids(vids: seq<string>, els: seq<Elem>, keys: seq<string>) returns (r: seq<string>)
    ensures r == AddNewBy(vids, VidCands(els, keys), Id)
  {
    r := vids;
    for j := 0 to |els|
      invariant r == AddNewBy(vids, VidCands(els[..j], keys), Id)
    {
      var s := OrEmpty(Attr(els[j], "src"));
      VidStep(vids, els, keys, j);
      if ContainsAny(s, keys) && s !in r {
        r := r + [s];
      }
    }
    assert els[..|els|] == els;
  }

  /** One root's worth of the outer loop, for each of the four lists. */
  lemma RootStep(roots: seq<Elem>, i: nat, pr: Profile)
    requires i < |roots|
    ensures var root := roots[i]; var t := Clean(root.text);
      Bodies(roots[..i + 1]) == Bodies(roots[..i]) + (if t != "" then [t] else []) &&
      AddNewBy([], TagsOfRoots(roots[..i + 1], pr), Id) ==
        AddNewBy(AddNewBy([], TagsOfRoots(roots[..i], pr), Id), RootTags(root, pr.tagSelectors, pr.innerTextFirst), Id) &&
      AddNewBy([], ImgsOfRoots(roots[..i + 1]), Id) ==
        AddNewBy(AddNewBy([], ImgsOfRoots(roots[..i]), Id), ImgCands(root.css("img")), Id) &&
      AddNewBy([], VidsOfRoots(roots[..i + 1], pr.videoKeys), Id) ==
        AddNewBy(AddNewBy([], VidsOfRoots(roots[..i], pr.videoKeys), Id), VidCands(root.css("iframe"), pr.videoKeys), Id)
  {
    var root := roots[i];
    assert roots[..i + 1][..i] == roots[..i];
    AddNewConcat([], TagsOfRoots(roots[..i], pr), RootTags(root, pr.tagSelectors, pr.innerTextFirst), Id);
    AddNewConcat([], ImgsOfRoots(roots[..i]), ImgCands(root.css("img")), Id);
    AddNewConcat([], VidsOfRoots(roots[..i], pr.videoKeys), VidCands(root.css("iframe"), pr.videoKeys), Id);
  }

  /** The loop over the roots. */
  method WalkRoots(roots: seq<Elem>, pr: Profile) returns (bodies: seq<string>, tags: seq<string>, imgs: seq<string>, vids: seq<string>)
    ensures bodies == Bodies(roots)
    ensures tags == AddNewBy([], TagsOfRoots(roots, pr), Id)
    ensures imgs == AddNewBy([], ImgsOfRoots(roots), Id)
    ensures vids == AddNewBy([], VidsOfRoots(roots, pr.videoKeys), Id)
  {
    bodies, tags, imgs, vids := [], [], [], [];
    for i := 0 to |roots|
      invariant bodies == Bodies(roots[..i])
      invariant tags == AddNewBy([], TagsOfRoots(roots[..i], pr), Id)
      invariant imgs == AddNewBy([], ImgsOfRoots(roots[..i]), Id)
      invariant vids == AddNewBy([], VidsOfRoots(roots[..i], pr.videoKeys), Id)
    {
      var root := roots[i];
      RootStep(roots, i, pr);
      var t := Clean(root.text);
      if t != "" {
        bodies := bodies + [t];
      }
      tags := AddRootTags(tags, root, pr.tagSelectors, pr.innerTextFirst);
      imgs := AddImgs(imgs, root.css("img"));
      vids := AddVids(vids, root.css("iframe"), pr.videoKeys);
    }
    assert roots[..|roots|] == roots;
  }

  /** `extract_body_tags_imgs_videos(driver)`. */
  method ExtractBodyTagsImgsVideos(page: Elem, pr: Profile) returns (r: Result<Extracted>)
    ensures r == Extract(page, pr)
  {
    var found := FindRoots(page, pr.roots);
    if found.Err? {
      return Err(found.fault);
    }
    var roots := found.value;
    var bodies, tags, imgs, vids := WalkRoots(roots, pr);
    ghost var rootTags := TagsOfRoots(roots, pr);
    if pr.tagBoxes {
      AddNewConcat([], rootTags, BoxTags(page.css(TAG_BOX)), Id);
      tags := AddBoxTags(tags, page.css(TAG_BOX));
    } else {
      assert rootTags + [] == rootTags;
    }
    var body := LongestOrEmpty(bodies);
    return Ok(Extracted(Take(body, BODY_LIMIT), tags, imgs, vids));
  }

  // ---------------------------------------------------------------------------
  // What the result promises

  /** A list without duplicates that holds exactly the values of its candidates,
      each of them a candidate. */
  lemma DedupOfCands(xs: seq<string>)
    ensures Distinct(Dedup.Dedup(xs))
    ensures forall y :: y in Dedup.Dedup(xs) <==> y in xs
  {
    DedupByFacts(xs, Id);
    KeysOfId(xs);
    KeysOfId(Dedup.Dedup(xs));
  }

  /** The body is the first longest root text cut to 200000 characters; the
      lists have no duplicates, hold every candidate, and each tag is a
      normalised hashtag, each image an "http" address, each video a source
      containing one of the keys. */
  lemma ExtractFacts(page: Elem, pr: Profile)
    requires Extract(page, pr).Ok?
    ensures var e := Extract(page, pr).value;
      var roots := Roots(page, pr.roots).value;
      var bs := Bodies(roots);
      |e.body| <= BODY_LIMIT &&
      (bs == [] ==> e.body == "") &&
      (bs != [] ==> e.body == Take(bs[LongestIndex(bs)], BODY_LIMIT)) &&
      Distinct(e.tags) && (forall t :: t in e.tags <==> t in AllTags(page, roots, pr)) &&
      (forall t :: t in e.tags ==> IsHashtag(t)) &&
      Distinct(e.imgs) && (forall s :: s in e.imgs <==> s in ImgsOfRoots(roots)) &&
      (forall s :: s in e.imgs ==> StartsWith(s, "http")) &&
      Distinct(e.vids) && (forall s :: s in e.vids <==> s in VidsOfRoots(roots, pr.videoKeys)) &&
      (forall s :: s in e.vids ==> ContainsAny(s, pr.videoKeys))
  {
    var roots := Roots(page, pr.roots).value;
    DedupOfCands(AllTags(page, roots, pr));
    DedupOfCands(ImgsOfRoots(roots));
    DedupOfCands(VidsOfRoots(roots, pr.videoKeys));
  }

  /** The lists keep the order in which values were first met. */
  lemma ExtractFirstSeen(xs: seq<string>)
    ensures var r := Dedup.Dedup(xs);
      forall i, j :: 0 <= i < j < |r| ==>
        r[i] in KeysOf(xs, Id) && r[j] in KeysOf(xs, Id) && FirstIndex(xs, Id, r[i]) < FirstIndex(xs, Id, r[j])
  {
    DedupByFirstSeen(xs, Id);
  }
}
