# Naver blog crawler: a Dafny model of its deterministic core

The crawler collects Naver blog posts about Seoul neighbourhoods, one day at a
time, in two stages.

- **Stage 1 (links).** For each neighbourhood keyword it builds a Naver search
  URL for the day. It reads the result titles page by page, clicking "next".
  It keeps the links that point at the blog host and writes them, one row per
  link, to a dated links table.
- **Stage 2 (posts).** For each link that is a blog post address, it opens the
  post and unwraps the `mainFrame` iframe. From the page it reads the author
  and post ids, the blogger's name, the publishing date, the body, hashtags,
  images and videos, and the like and comment counts. It writes one record per
  post with a status: `ok`, a skip, a failed navigation, or the name of the
  exception that ended the crawl.

The repository holds several generations of these stages:

- `step1_links.py` and `step2_posts.py`;
- `crawling/daily/` (one file for all keywords);
- `crawling/step1/`, `step2/` and `crawling/step2/extractor.py` (the earliest);
- `daily_crawling.py`, which fuses both stages into one daily run.

Each is modelled as written, with its own branches, constants and error
paths. Code that the generations share verbatim is modelled once:

- `clean` and `sanitize_for_fname` in `Common`;
- the search URL in `SearchUrl`;
- the post address regular expression in `PostUrl`;
- the paged link harvest in `Harvest`;
- the post-page readers in `Page`, `TextParse`, `Counts` and `Extraction`.

The browser is a value:

- a page is an `Elem` tree whose CSS and XPath queries are functions;
- navigation is a function from an address to the page reached, or to the
  exception raised;
- a search session is the sequence of result pages that clicking "next" would
  show.

The clock, the file system and the sleeps are not modelled.

## Model

| member | source | states |
|---|---|---|
| Common.Clean | crawling/utils/common.py:7-8 | the result has single spaces between words and none at either end, and keeps every non-whitespace character of the input in order |
| Common.CleanWords | crawling/utils/common.py:7-8 | the result has the same words as the input's `split()`, and is exactly those words joined by single spaces |
| Common.WordsCollapse | crawling/utils/common.py:8 | replacing each whitespace run by one space keeps the words |
| Common.CleanIsJoinedWords | crawling/utils/common.py:7-8 | a clean string is its words joined by single spaces |
| Common.CleanIdempotent | crawling/utils/common.py:7-8 | cleaning a cleaned string changes nothing |
| Common.CleanOfClean | crawling/utils/common.py:7-8 | a string already in clean form is returned unchanged |
| Common.CleanBlank | crawling/utils/common.py:7-8 | the result is empty exactly when the input is only whitespace |
| Common.CollapseFacts | crawling/utils/common.py:8 | `re.sub(r"\s+", " ", ...)` is empty only for empty input, turns a whitespace end into one space, leaves single spaces only, and keeps every other character |
| Common.SanitizeForFname | crawling/utils/common.py:13-16 | only filename characters remain; every kept character other than `_` keeps its count; `_` count is the `_` plus spaces of the stripped input |
| Common.SpacesToUnderscores | crawling/utils/common.py:14 | the same length, each space replaced by `_` and every other character kept |
| Common.KeepFnameChars | crawling/utils/common.py:15 | every remaining character is a filename character |
| Common.KeepFnameCharsCount | crawling/utils/common.py:15 | a filename character keeps its count, and any other character is removed entirely |
| Common.KeepFnameCharsInOrder | crawling/utils/common.py:16 | dropping the other characters keeps the filename characters in their order, repeats included |
| Common.SanitizeInOrder | crawling/utils/common.py:13-16 | the sanitized name is the stripped, underscored input with the non-filename characters deleted, a subsequence of it |
| Common.SanitizeIdempotent | crawling/utils/common.py:13-16 | sanitizing a sanitized name changes nothing |
| Common.SanitizeExample | crawling/utils/common.py:13-16 | the keyword `성수동 명소` becomes the slug `성수동_명소` |
| Base.Strip | crawling/utils/common.py:14 | `str.strip()`: the result neither starts nor ends with whitespace |
| Base.StripEmpty | crawling/utils/common.py:14 | a string strips to "" exactly when it is all whitespace |
| Base.StripKeepsNonSpace | crawling/utils/common.py:14 | stripping loses no non-whitespace character |
| Base.Split | step2/crawler_step2.py:30 | `str.split("/")` gives at least one part, and no part holds the separator |
| Base.JoinSplit | step2/crawler_step2.py:30 | joining the parts of a split with the separator gives the string back |
| Base.SplitJoin | step2/crawler_step2.py:30 | splitting a join of separator-free parts gives the parts back |
| Base.NonEmptyPartsInOrder | step2_posts.py:97 | `[x for x in parts if x]` is the parts with the empty ones deleted, in order and with repeats |
| Base.WordsStrip | crawling/utils/common.py:8 | `strip()` keeps the words of `split()` |
| Base.Words | step2/crawler_step2.py:40 | `str.split()` gives non-empty runs without whitespace |
| Base.WordsEmpty | step2/crawler_step2.py:40 | there are no words exactly when the keyword is all whitespace, the case where `[0]` raises |
| Base.RemoveChar | step2/crawler_step2.py:77 | `replace(",", "")` never lengthens the text |
| Base.RemoveCharFacts | step2/crawler_step2.py:77 | every `,` is dropped and every other character is kept |
| Base.NatToString | step2_posts.py:271 | the decimal numeral is a non-empty run of digits |
| Base.DecValueOfNatToString | step2_posts.py:271 | reading back the numeral of `n` gives `n` |
| Base.FixedDigits | step2_posts.py:449 | `f"{n:0Wd}"` for a value below `10^W` is exactly `W` digits |
| Base.DecValueOfFixedDigits | step2_posts.py:449 | reading a zero-padded numeral gives the number back |
| Base.FixedDigitsOfDecValue | step2_posts.py:449 | zero-padding a numeral's value to its width gives the numeral back |
| Base.PathJoin | step2/crawler_step2.py:114 | `os.path.join` ends with the name; an absolute name replaces the directory; otherwise the result starts with the directory and a `/` precedes the name |
| Base.PathJoinUnder | step2/crawler_step2.py:114 | for a directory without a trailing `/`, the result is the directory, `/`, the name |
| Base.DatedName | crawling/step1/crawler_step1.py:63 | `{prefix}{slug}_{stamp}.csv` has each part at its position and nothing else |
| Base.OrElse | step2_posts.py:177-181 | Python's `a or b` yields `a` when it is a non-empty value, otherwise `b` |
| Calendar.DaysIn | utils/date_utils.py:4-5 | a month has 28 to 31 days |
| Calendar.PrevDay | utils/date_utils.py:4-5 | `day - timedelta(days=1)` of a valid day is a valid day |
| Calendar.NextDay | utils/date_utils.py:4-5 | `day + timedelta(days=1)` of a valid day is a valid day |
| Calendar.TargetDay | step1_links.py:245-247 | the given day when there is one, otherwise the day whose next day is today |
| Calendar.PrevOfNext | utils/date_utils.py:4-5 | going one day forward and one back returns to the day |
| Calendar.NextOfPrev | utils/date_utils.py:4-5 | going one day back and one forward returns to the day |
| Calendar.YearText | step1_links.py:253 | `%Y` is four digits |
| Calendar.Ymd | utils/date_utils.py:7-8 | `%Y%m%d` is eight digits |
| Calendar.IsoDay | step1_links.py:208 | `%Y-%m-%d` is ten characters with dashes at 4 and 7 |
| Calendar.YmdParts | utils/date_utils.py:7-8 | `%Y%m%d` is the zero-padded year, month and day in that order |
| Calendar.ParseYmd | utils/date_utils.py:7-8 | a string it accepts names a valid day |
| Calendar.ParseYmdOfYmd | utils/date_utils.py:7-8 | reading back a printed valid day gives the day |
| Calendar.YmdOfParseYmd | utils/date_utils.py:7-8 | every accepted string is the printed form of the day it yields |
| Calendar.IsoDayWithoutDashes | step1_links.py:208 | the table's `date` column is the file name's `%Y%m%d` stamp with dashes |
| Lists.LongestIndex | step2_posts.py:219 | `max(bodies, key=len)` picks a longest element, and the first of the longest ones |
| Lists.LongestOrEmpty | step2_posts.py:219 | the body is "" for no candidates, otherwise one of them and no shorter than any |
| Lists.Take | step2_posts.py:220 | `s[:n]` is the prefix of length `min(len(s), n)` |
| Lists.TakeTake | step2_posts.py:220 | cutting twice is cutting once, and a short text is not cut |
| Lists.Filter | step2_posts.py:492 | a boolean-mask selection keeps only elements that pass, all taken from the input |
| Lists.FilterKeeps | step2_posts.py:492 | every element that passes is kept |
| Lists.FilterAll | step2_posts.py:492 | when every element passes, nothing is removed |
| Lists.FilterConcat | step2_posts.py:492 | filtering distributes over concatenation |
| Lists.Map | step2_posts.py:502-504 | the crawl loop gives one result per input, in order |
| Lists.FlatMapConcat | crawling/daily/step1_links.py:198-200 | collecting over two runs of keywords is the two collections one after the other |
| Lists.FlatMapEmpty | crawling/daily/step1_links.py:198-200 | the collection is empty exactly when every keyword gives nothing |
| Dedup.KeysOf | step2_posts.py:493 | one key per element, in order |
| Dedup.DedupByFacts | step2_posts.py:493 | `drop_duplicates(subset=["link"])` leaves no repeated link, loses no link, and adds no row |
| Dedup.DedupByHasKey | step2_posts.py:493 | a link is present after deduplication exactly when it was present before |
| Dedup.DedupByFirstSeen | step2_posts.py:493 | each kept row is the first row with its link, and rows keep the order of first occurrence |
| Dedup.DedupByIdempotent | step2_posts.py:493 | deduplicating twice is deduplicating once |
| Dedup.DedupByUnique | step2_posts.py:493 | a table without repeated links is unchanged |
| Dedup.DedupByFirstBlock | crawling/daily/step1_links.py:174 | in a concatenation, a link that the first block lacks and the second has keeps the second block's row |
| Dedup.FirstIndex | step2_posts.py:493 | the index of the first row with a key, with no earlier row having it |
| Dedup.AddNewConcat | step2_posts.py:171-172 | the `if x not in xs: xs.append(x)` loop over two batches is the loop over their concatenation |
| Dedup.AddNewKeys | step2_posts.py:171-172 | the keys afterwards are exactly those of the accumulated list and of the candidates |
| Dedup.AddNewUnique | step2_posts.py:171-172 | the loop never introduces a duplicate |
| Dedup.AddNewAllNew | step2_posts.py:171-172 | candidates without duplicates are all appended |
| Extraction.Roots | step2_posts.py:117-134 | `find_roots` gives at least one root, or raises NoSuchElementException, which happens only when no candidate selector matches |
| Extraction.FindRoots | step2_posts.py:117-134 | the loop over the candidate selectors computes `Roots` |
| Extraction.Bodies | step2_posts.py:149-155 | every body candidate is a non-empty clean text |
| Extraction.ElemTags | step2_posts.py:167-172 | every tag taken from elements is a normalised non-empty hashtag |
| Extraction.RootTags | step2_posts.py:157-174 | every tag found under a root is a hashtag |
| Extraction.TagsOfRoots | step2_posts.py:149-174 | every tag found under the roots is a hashtag |
| Extraction.BoxTags | step2_posts.py:199-217 | every tag of the `tagList_` boxes is a hashtag |
| Extraction.AllTags | step2_posts.py:149-217 | every tag candidate of the page is a hashtag |
| Extraction.ImgSrc | step2_posts.py:177-181 | a non-empty `src` wins; any other result is `data-src` or `data-lazy-src` |
| Extraction.ImgCands | step2_posts.py:176-183 | every image candidate starts with "http" |
| Extraction.ImgsOfRoots | step2_posts.py:176-183 | every image candidate of the roots starts with "http" |
| Extraction.VidCands | step2_posts.py:185-197 | every video candidate names one of the video hosts |
| Extraction.VidsOfRoots | step2_posts.py:185-197 | every video candidate of the roots names a video host |
| Extraction.AddTags | step2_posts.py:168-172 | the loop appends the new hashtags of the elements, in order |
| Extraction.AddRootTags | step2_posts.py:157-174 | the loop over the hashtag selectors appends the new hashtags of one root |
| Extraction.AddBoxTags | step2_posts.py:199-215 | the loop over the `tagList_` boxes appends their new hashtags |
| Extraction.AddImgs | step2_posts.py:176-183 | the loop appends the new "http" image sources, in order |
| Extraction.AddVids | step2_posts.py:185-197 | the loop appends the new video sources, in order |
| Extraction.WalkRoots | step2_posts.py:149-197 | the loop over the roots yields the body candidates and the three first-seen lists |
| Extraction.ExtractBodyTagsImgsVideos | step2_posts.py:145-220 | the whole extraction equals `Extract` of the page |
| Extraction.ExtractFacts | step2_posts.py:145-220 | the body is the first longest root text cut to 200000 characters; tags, images and videos are each duplicate-free, hold exactly their candidates, and are hashtags, "http" sources and video-host sources respectively |
| Extraction.DedupOfCands | step2_posts.py:453 | `dict.fromkeys` leaves no duplicate and keeps every value |
| Extraction.ExtractFirstSeen | step2_posts.py:453 | the lists keep the order in which values were first met |
| Extractor.BlockTexts | crawling/step2/extractor.py:9 | one spaced text per `p`/`div`/`span` block, in order |
| Extractor.ExtractBody | crawling/step2/extractor.py:4-12 | at most 200000 characters; "" with no block; otherwise the first longest block text, cut |
| Extractor.HashPrefixed | crawling/step2/extractor.py:21-22 | the tag starts with `#`, and a `#` is added only when missing |
| Extractor.HashPrefixedIdempotent | crawling/step2/extractor.py:21-22 | prefixing a prefixed tag changes nothing |
| Extractor.TagTexts | crawling/step2/extractor.py:18-23 | the kept tags start with `#` and are no more than the elements |
| Extractor.TagTextsOne | crawling/step2/extractor.py:19-23 | an element with an empty text gives no tag; any other gives its text, with `#` put in front when missing |
| Extractor.TagTextsKeptElements | crawling/step2/extractor.py:18-23 | the tags are exactly the elements with a text, each made a hashtag, in document order with repeats |
| Extractor.TagTextsConcat | crawling/step2/extractor.py:18-23 | tags are kept in document order with repeats |
| Extractor.TagTextsOfHashtags | crawling/step2/extractor.py:18-23 | elements whose texts are already hashtags give exactly those texts |
| Extractor.ExtractTags | crawling/step2/extractor.py:15-24 | the result is the kept tags joined by `|` |
| Extractor.HttpSrcs | crawling/step2/extractor.py:30-33 | every kept source starts with "http" |
| Extractor.HttpSrcsOne | crawling/step2/extractor.py:31-33 | an image gives its `src` when that starts with "http", otherwise nothing |
| Extractor.HttpSrcsConcat | crawling/step2/extractor.py:30-33 | sources are kept in document order with repeats |
| Extractor.HttpSrcsKeptImages | crawling/step2/extractor.py:30-33 | the sources are exactly those of the images with an http `src`, in document order with repeats |
| Extractor.HttpSrcsExact | crawling/step2/extractor.py:30-33 | a source is kept exactly when some image has it and it starts with "http" |
| Extractor.ExtractImages | crawling/step2/extractor.py:27-34 | the result is the kept sources joined by `|` |
| Extractor.VideoSrcs | crawling/step2/extractor.py:40-43 | every kept source names one of `youtube`, `tv.naver`, `vimeo` |
| Extractor.VideoSrcsExact | crawling/step2/extractor.py:40-43 | a source is kept exactly when some frame has it and it names a video host |
| Extractor.ExtractVideos | crawling/step2/extractor.py:37-44 | the result is the kept sources joined by `|` |
| Counts.ElemsInt | step2_posts.py:277-280 | the scan of one selector's elements either finds a count or raises only ValueError |
| Counts.ElemsIntFound | step2_posts.py:277-280 | a count (or the error) comes from the text of one of the elements |
| Counts.ElemsIntNone | step2_posts.py:277-280 | no count exactly when no element's text has a digit or comma |
| Counts.IntBySelectorsFound | step2_posts.py:273-283 | a count comes from the elements of one of the selectors |
| Counts.IntBySelectorsStrict | crawling/daily/step2_posts.py:280-287 | the version without `try` raises only ValueError |
| Counts.StrictAgrees | crawling/daily/step2_posts.py:280-287 | where the strict reader does not raise, the two readers agree |
| Counts.NoCountNone | step2_posts.py:273-283 | with no count anywhere, both readers give None |
| Counts.ScanElems | step2_posts.py:277-280 | the loop over one selector's elements computes `ElemsInt` |
| Counts.GetIntBySelectors | step2_posts.py:273-283 | the loop over the selectors computes the first count of the first selector that has one |
| Counts.GetIntBySelectorsStrict | crawling/daily/step2_posts.py:280-287 | the loop of the daily version computes `IntBySelectorsStrict` |
| Counts.NodeScan | step2_posts.py:288-302 | the scan of the page's nodes raises only ValueError |
| Counts.NodeScanFound | step2_posts.py:288-302 | a count found by the scan belongs to a node that mentions a keyword |
| Counts.KeywordCountFound | step2_posts.py:285-305 | the fallback returns a count only when some node of the page mentions a keyword |
| Counts.NodeScanQuiet | step2_posts.py:288-302 | a page whose nodes mention no keyword gives no count |
| Counts.ScanSiblings | step2_posts.py:296-302 | the sibling loop gives the first count of the three siblings, or None when it raises |
| Counts.KeywordFallback | step2_posts.py:285-305 | the loop computes `get_count_by_keyword_fallback` |
| Counts.AnyInvitesWitness | step2_posts.py:370-373 | some node invites a comment exactly when some non-empty stripped text holds one of the invitation phrases |
| Counts.QuietPageNotZero | step2_posts.py:361-389 | a page with no hint element, no invitation and no count holder is not reported as zero comments |
| Counts.ScanInvites | step2_posts.py:370-373 | the loop over the nodes decides whether some node invites a comment |
| Counts.ScanHolders | step2_posts.py:375-386 | the loop over the count holders decides whether an empty holder sits beside an invitation |
| Counts.HasZeroCommentUi | step2_posts.py:361-389 | the three loops decide `ZeroCommentUi` |
| CrawlerStep2.LastWinsLast | step2/crawler_step2.py:73-87 | the count is the one of the last selector that yields a number |
| CrawlerStep2.LastWinsNone | step2/crawler_step2.py:73-87 | the count stays None exactly when no selector yields a number |
| CrawlerStep2.LastWinsOverrides | step2/crawler_step2.py:73-87 | a later selector overrides an earlier one |
| CrawlerStep2.ReadCount | step2/crawler_step2.py:73-87 | the selector loop computes `LastWins` |
| CrawlerStep2.Crawled | step2/crawler_step2.py:37-92 | IndexError exactly when the keyword has no word; otherwise platform, neighbourhood (first word), title and link are set, the status is "ok" exactly when navigation succeeds, and a failure names its exception |
| CrawlerStep2.BlogLinkWithoutId | step2/crawler_step2.py:64 | a post address without an author id still gets the bare blog link |
| CrawlerStep2.CrawlOne | step2/crawler_step2.py:37-92 | filling the record field by field gives `Crawled` |
| CrawlerStep2.FileName | step2/crawler_step2.py:113 | `blog_{slug}_{YYYYMMDD}.csv` with the slug and the day at their places |
| CrawlerStep2.MapResultFacts | step2/crawler_step2.py:106-111 | the loop fails exactly when some call raises, with the first such exception; otherwise one record per seed |
| CrawlerStep2.CrawlLoopFacts | step2/crawler_step2.py:106-111 | the loop raises IndexError exactly when there are seeds and the keyword has no word; otherwise record `k` is `crawl_one` of seed `k` |
| CrawlerStep2.CrawlAll | step2/crawler_step2.py:106-111 | the loop computes `MapResult` of `crawl_one` over the seeds |
| CrawlerStep2.RunStep2ForDay | step2/crawler_step2.py:95-119 | fails exactly as the loop does; otherwise writes one record per post-address seed to `save_dir/blog_{slug}_{day}.csv` |
| CrawlerStep2.SeedsKeepRepeats | step2/crawler_step2.py:100-101 | nothing is deduplicated: a link listed twice is crawled twice |
| DailyStep2Posts.WithCounts | crawling/daily/step2_posts.py:351-355 | reading the counts keeps link, neighbourhood and body; it may only turn the status into `error:ValueError`, and a comment count is stored only when no error occurs |
| DailyStep2Posts.Crawled | crawling/daily/step2_posts.py:293-357 | the record carries platform, neighbourhood, title and link of the row, and a comment count only with status "ok" |
| DailyStep2Posts.CrawledSkip | crawling/daily/step2_posts.py:318-320 | the post is skipped exactly when its address is not a post address |
| DailyStep2Posts.CountsAgree | crawling/daily/step2_posts.py:351-352 | without an error, the counts are those of the tolerant reader |
| DailyStep2Posts.CommentErrorKeepsLike | crawling/daily/step2_posts.py:351-355 | a comment count that raises leaves the like count already read and sets `error:ValueError` |
| DailyStep2Posts.ReadCounts | crawling/daily/step2_posts.py:351-352 | the two reads compute `WithCounts` |
| DailyStep2Posts.CrawlOne | crawling/daily/step2_posts.py:293-357 | filling the record step by step gives `Crawled` |
| DailyStep2Posts.CrawlAll | crawling/daily/step2_posts.py:381-386 | one record per seed, in order, each `crawl_one` of its seed |
| DailyStep2Posts.RunStep2Single | crawling/daily/step2_posts.py:363-410 | one record per deduplicated post-address seed, in order |
| DailyStep2Posts.RunNeverSkips | crawling/daily/step2_posts.py:373 | no seed of a run is skipped, since the seeds are already post addresses |
| Harvest.AnchorsFirst | step1_links.py:185-189 | the anchors are those of the first title selector that matches anything; later selectors are not consulted |
| Harvest.AnchorsNone | step1_links.py:185-189 | there are no anchors exactly when no title selector matches |
| Harvest.FindAnchors | step1_links.py:185-189 | the selector loop with its `break` computes `Anchors` |
| Harvest.ClickNextSome | step1_links.py:147-157 | `click_next` is True exactly when, for some selector, the first button is there (and displayed) and its click does not raise |
| Harvest.DisplayCheckOnlyRefuses | step1_links.py:151 | requiring the button to be displayed can only turn a click down |
| Harvest.TryNext | step1_links.py:147-157 | the selector loop computes `ClickNext` |
| Harvest.TitleOf | step1_links.py:205 | the title is clean; it is the cleaned text when that is non-empty; the `title` attribute is used only as fallback, and only when enabled |
| Harvest.RowOf | step1_links.py:206-212 | the row carries the anchor's link, the day and the neighbourhood |
| Harvest.RowsOf | step1_links.py:195-212 | one candidate row per anchor, in anchor order |
| Harvest.GatherStep | step1_links.py:195-212 | one anchor of the loop is appended when its link is accepted and not yet seen |
| Harvest.SeenSnoc | step1_links.py:201-204 | `seen` stays the set of links already in `seeds` |
| Harvest.AddAnchors | step1_links.py:195-212 | the loop over a page's anchors appends the accepted rows with new links, in order, and keeps `seen` equal to the links of `seeds` |
| Harvest.Visited | step1_links.py:179-216 | the harvest reads at least the first page and no more pages than the session has |
| Harvest.VisitedStops | step1_links.py:214-215 | the harvest clicks "next" on every page it leaves and stops at the first page without one |
| Harvest.DisplayCheckReadsFewer | step1_links.py:151 | a harvest that requires displayed buttons reads no more pages than one that does not |
| Harvest.PagesRowsFacts | step1_links.py:195-212 | every candidate row carries the day, the neighbourhood and a clean title |
| Harvest.GatheredFacts | step1_links.py:195-212 | of the candidates, the kept rows are accepted, have distinct links, and cover every accepted candidate link |
| Harvest.HarvestedFacts | step1_links.py:176-220 | the rows of a harvest are accepted candidates of the pages read, each link once, and every accepted candidate link of those pages is present |
| Harvest.HarvestedFirstSeen | step1_links.py:176-220 | each row is the first accepted candidate with its link, in order of first occurrence |
| Harvest.NextPage | step1_links.py:179-216 | one more page: the rows so far, then the new page's new accepted rows |
| Harvest.VisitedFrom | step1_links.py:214-216 | reading on from page `i` reads that page and the following pages exactly when it clicks "next" |
| Harvest.HarvestedAt | step1_links.py:176-220 | the harvest once the number of pages read is known |
| Harvest.HarvestPage | step1_links.py:185-212 | the loop body for one page computes its new rows and keeps `seen` in step |
| Harvest.HarvestPages | step1_links.py:176-220 | the `while True` loop over the pages computes `Harvested` |
| Page.FindElement | step2_posts.py:237 | `find_element` raises NoSuchElementException exactly when nothing matches |
| Page.FirstText | step2_posts.py:106-115 | a non-empty result is clean and is the cleaned first text of one of the selectors |
| Page.FirstTextFirst | step2_posts.py:106-115 | the result comes from the FIRST selector that yields a text |
| Page.FirstTextEmpty | step2_posts.py:106-115 | "" exactly when every selector yields no text |
| Page.GetFirstText | step2_posts.py:106-115 | the loop computes `FirstText` |
| Page.AsciiLower | step2_posts.py:69 | `lower()` keeps the length and lowers exactly the ASCII capitals |
| Page.GotoPostView | step2_posts.py:65-90 | the first navigation's exception escapes exactly when it occurs; without a loading frame the crawl stays where it landed |
| Page.GotoPostViewOk | step2_posts.py:65-90 | success is reported exactly for a mobile page, a page whose frame loads, or an address containing `PostView` |
| Page.GotoPostViewFrame | step2_posts.py:74-86 | on a desktop page whose frame loads, the crawl continues at the frame's resolved address |
| PostCrawl.Blank | step2_posts.py:393-414 | the starting record has status "ok", platform "blog", the row's title and link, the neighbourhood, and no counts |
| PostCrawl.BlogLink | step2_posts.py:427-428 | the blogger link is empty exactly when the author id is, and otherwise is the blog host followed by the id |
| PostCrawl.BloggerName | step2_posts.py:222-243 | the first name shown on the page, else the author id; empty only when both are |
| PostCrawl.ErrorStatus | step2_posts.py:474-475 | an `error:` status is distinct from "ok", the skip and the failed navigation |
| PostCrawl.VisitOf | step2_posts.py:416-456 | skip exactly for non-post addresses; `failed_goto_view` exactly when navigation reports failure; reached exactly with status "ok"; every other stop is an `error:` status |
| PostCrawl.VisitReached | step2_posts.py:425-455 | a reached post has the ids of the address landed on, a blogger link exactly with an author id, an eight-digit or empty date, and the extracted body, tags, images and videos |
| PostCrawl.VisitRootsMissing | step2_posts.py:425-475 | when the page has no root, the crawl stops with `error:NoSuchElementException`, keeping the ids and name already read |
| PostCrawl.VisitPost | step2_posts.py:416-456 | the step-by-step visit computes `VisitOf` |
| PostCrawl.SeedsArePosts | step2_posts.py:492 | every seed has a post address |
| PostCrawl.SeedsFacts | step2_posts.py:492-497 | the seeds are rows of the table with post addresses and distinct links, and every post address of the table is among them |
| PostUrl.SchemeEnd | step2_posts.py:57 | when `https?://` starts the address, it ends within it and `http` is at the start |
| PostUrl.IsPostUrlAt | step2_posts.py:56-62 | an address with a scheme followed by a blog path or a `PostView.naver` query is a post address |
| PostUrl.AcceptsBlogPath | step2_posts.py:56-62 | `http(s)://(m.)blog.naver.com/<blog>/<digits>...` is a post address, with or without case folding |
| PostUrl.AcceptsPostView | step2_posts.py:56-62 | `http(s)://blog.naver.com/PostView.naver?...logNo=<digits>...` is a post address, when the stretch before `logNo=` has no line break |
| PostUrl.CaseSensitiveImpliesIgnoringCase | daily_crawling.py:155-162 | what the case-sensitive pattern accepts, the case-folding one accepts too |
| PostUrl.LooseIsPostUrlHost | step2/crawler_step2.py:15-20 | the `m.blog.naver.com` test adds nothing to the `blog.naver.com` test |
| PostUrl.MobileHostIsBlogHost | step2/crawler_step2.py:17-18 | text containing the mobile host contains the desktop host |
| PostUrl.StrictImpliesLoose | step2/crawler_step2.py:15-20 | every address the regular expression accepts passes the substring test |
| PostUrl.LooseAcceptsMore | step2/crawler_step2.py:15-20 | the converse fails: a bare host passes the substring test but is no post address |
| PostUrl.QueryFirst | step2_posts.py:102-103 | `(q.get(name) or [""])[0]` is "" for a missing parameter, else its first value |
| PostUrl.ExtractIds | step2_posts.py:92-104 | on the mobile host the two ids are both empty or both non-empty, and neither holds `/`; off the blog host there are none |
| PostUrl.ExtractIdsMobileSegments | step2_posts.py:96-99 | on the mobile host the ids are the first two path segments left once the empty ones are deleted, and ("", "") when fewer than two remain |
| PostUrl.ExtractIdsDesktop | step2_posts.py:100-104 | on the desktop host the ids are the `blogId` and `logNo` parameters of a `PostView.naver` address, and ("", "") for any other path |
| PostUrl.ExtractIdsByIndex | step2/crawler_step2.py:27-34 | away from the mobile host the ids come from the query |
| PostUrl.SplitTwoSegments | step2/crawler_step2.py:30-32 | a path `/<blog>/<post>...` splits into "", the blog and the post first |
| PostUrl.ExtractIdsMobile | step2/crawler_step2.py:27-34 | on the mobile host both conventions read `/<blog>/<post>` the same way |
| PostUrl.ExtractIdsDoubleSlash | step2/crawler_step2.py:30-32 | a path starting with `//` is read correctly by one convention and shifted by the other |
| PostUrl.ExtractIdsPostView | step2_posts.py:100-103 | on the desktop `PostView.naver` page both conventions read `blogId` and `logNo` from the query |
| PostUrl.ExtractIdsDesktopPath | step2_posts.py:100-104 | away from `PostView.naver`, one convention yields no ids and the other still reads the query |
| PostUrl.ResolveFrameSrc | step2_posts.py:78-82 | a protocol-relative source gets `https:`, a host-relative one gets the blog host, any other is kept |
| PostUrl.ResolveFrameSrcIdempotent | step2_posts.py:78-82 | resolving a resolved address changes nothing |
| PostUrl.ResolveFrameSrcDaily | daily_crawling.py:179-180 | only a protocol-relative source is changed, and it gets `https:` |
| PostUrl.ResolveFrameSrcVariants | daily_crawling.py:179-180 | the two fix-ups differ exactly on host-relative sources |
| SearchUrl.Utf8 | step1_links.py:87 | a character encodes to one to four bytes |
| SearchUrl.PercentBytes | step1_links.py:87 | each byte becomes three characters, all safe or `%` |
| SearchUrl.Quote | step1_links.py:87 | `quote(q)` holds only safe characters and `%` |
| SearchUrl.ReadBytes | step1_links.py:87 | reading `n` groups consumes at least `3n` characters and gives `n` bytes |
| SearchUrl.ReadPercentBytes | step1_links.py:87 | reading back percent-encoded bytes gives the bytes |
| SearchUrl.Utf8RoundTrip | step1_links.py:87 | decoding a character's UTF-8 bytes gives the character back |
| SearchUrl.UnquoteQuote | step1_links.py:87 | the query is recovered from its quoted form |
| SearchUrl.Nso | step1_links.py:79-81 | `so:dd,p:from<d>to<d>` is 30 characters |
| SearchUrl.NsoWindow | step1_links.py:79-81 | the window opens and closes on the day itself |
| SearchUrl.ComposeSplit | step1_links.py:83-89 | the query string splits back into the fixed parameters, `query` and `nso` |
| SearchUrl.ComposeParams | step1_links.py:83-89 | reading `query` and `nso` back gives the quoted keyword and the window, and unquoting gives the keyword |
| SearchUrl.ComposeLead | step1_links.py:83-86 | a fixed parameter reads back as written |
| SearchUrl.LookupAt | step1_links.py:83-89 | the first parameter with a name decides its value |
| TextParse.NormalizeHashtag | step2_posts.py:136-143 | "" exactly for blank text; otherwise the text without whitespace when that already starts with `#`, and `#` followed by it when it does not |
| TextParse.NormalizeHashtagIdempotent | step2_posts.py:136-143 | normalising a normalised tag changes nothing |
| TextParse.FirstNumIndex | step2_posts.py:270 | the search starts at the first digit or comma |
| TextParse.NumRun | step2_posts.py:270 | `[\d,]+` is greedy: the longest run of digits and commas |
| TextParse.FirstNumRun | step2_posts.py:270 | the capture is empty exactly when the text has no digit or comma, and holds only digits and commas |
| TextParse.DigitsOfNumRun | step2_posts.py:271 | removing the commas from the capture leaves only digits |
| TextParse.ToIntOrNone | step2_posts.py:269-271 | None exactly when no digit or comma; ValueError only when the capture is commas only; otherwise the digits' value |
| TextParse.ToIntOrNoneRoundTrip | step2_posts.py:269-271 | a count printed amid text without digits reads back as itself |
| TextParse.ToIntOrNoneNoDigits | step2_posts.py:269-271 | a label without digits gives None |
| TextParse.ToIntOrNoneLoneComma | step2_posts.py:269-271 | a comma before any digit raises ValueError |
| TextParse.DayDigits | step2_posts.py:445 | `\d{1,2}` takes two digits when there are two |
| TextParse.MonthDigits | step2_posts.py:445 | the month is one or two digits followed by `.` |
| TextParse.DateAt | step2_posts.py:444-449 | a match at a position yields eight digits |
| TextParse.FormatYmd | step2_posts.py:449 | `f"{int(y):04d}{int(mo):02d}{int(d):02d}"` is eight digits |
| TextParse.PostDate | step2_posts.py:444-449 | the `postdate` is "" or eight digits |
| TextParse.PostDateIsSearch | step2_posts.py:444-446 | `re.search`: the date of the leftmost position where the pattern matches, or "" when it matches nowhere |
| TextParse.PostDateOfDisplay | step2_posts.py:444-449 | a date printed as `2024. 5. 3.` after text without digits reads back as `20240503` |
| TextParse.PostDateSkip | step2_posts.py:444-446 | text without digits before the date does not change the result |
| TextParse.PyInt | step2/crawler_step2.py:77 | `int(s)` accepts only text that, stripped, starts with a digit or a sign |
| TextParse.UnsignedValue | step2/crawler_step2.py:77 | an accepted unsigned numeral is digits with single underscores between them |
| TextParse.PyIntRoundTrip | step2/crawler_step2.py:77 | `int(str(n)) == n` |
| Step1Links.LeadIsPlain | step1_links.py:83-86 | the fixed parameters cannot be taken for `query` or `nso` |
| Step1Links.SearchTab | step1_links.py:85-86 | the URL asks for `ssc=tab.blog.all` and `sm=tab_jum` |
| Step1Links.BuildSearchUrlParams | step1_links.py:78-89 | the URL asks for the blog tab, the quoted keyword (which unquotes back), and the one-day window of the day |
| Step1Links.ReadyIff | step1_links.py:120-145 | ready exactly when loading completes and either a title selector matches or the page says there are no results |
| Step1Links.EnsureResultsReady | step1_links.py:120-145 | the selector loop computes `Ready` |
| Step1Links.AcceptsIsBlogHost | step1_links.py:196-200 | the empty test and the mobile host test add nothing: a link is kept exactly when it contains the blog host |
| Step1Links.ListSeedsForDay | step1_links.py:162-220 | the method computes `SeedsForDay`: nothing when not ready, else the harvest |
| Step1Links.SeedsForDayFacts | step1_links.py:162-220 | every row has the day, a clean title and a non-empty blog link; links are distinct; every blog link among the pages read is present |
| Step1Links.SaveCsv | step1_links.py:225-235 | nothing is written exactly when there are no rows; otherwise the path is `save_dir/links_{slug}_{YYYYMMDD}.csv` |
| Step1Links.SaveCsvFirstRow | step1_links.py:230-231 | the table has each link of the rows once, as the first row that carried it |
| Step1Links.SaveCsvOfSeeds | step1_links.py:230-231 | the harvest has no duplicate links, so the table gets all of it |
| Step1Links.LinksPath | step1_links.py:252-254 | a keyword's links go to `./data_html/{dong}_명소/{YYYY}/links/links_{dong}_명소_{YYYYMMDD}.csv` |
| Step1Links.KeywordRunPath | step1_links.py:251-263 | what a keyword writes goes to that file |
| Step1Links.RunKeyword | step1_links.py:252-263 | one keyword's turn: the day's harvest under `<dong>_명소/<year>/links`, saved when it has rows |
| Step1Links.RunKeywords | step1_links.py:251-263 | the keyword loop yields, in order, each keyword's own turn |
| Step1Links.RunStep1 | step1_links.py:241-265 | one harvest-then-save per keyword, in `KEYWORDS` order, for the given day or else the day before today |
| Step2Posts.LikeCount | step2_posts.py:459-461 | a non-zero count read by selector is kept; a missing or zero one is replaced by the keyword fallback |
| Step2Posts.CommentCount | step2_posts.py:463-468 | selectors first, then the keyword, then 0 for an empty comment section; None exactly when all three fail |
| Step2Posts.ZeroLikeLost | step2_posts.py:459-461 | a like count of 0 read by selector is lost when no node names likes, while a comment count of 0 is kept |
| Step2Posts.Crawled | step2_posts.py:392-477 | the record carries platform, neighbourhood, title and link; skip exactly for non-post addresses; no counts unless "ok" |
| Step2Posts.CrawledCounts | step2_posts.py:457-468 | a crawled post carries the counts of the page the visit reached |
| Step2Posts.ReadLike | step2_posts.py:459-461 | the like reader computes `LikeCount` |
| Step2Posts.ReadComment | step2_posts.py:463-468 | the comment reader computes `CommentCount` |
| Step2Posts.CrawlOne | step2_posts.py:392-477 | the step-by-step crawl computes `Crawled` |
| Step2Posts.CrawlAll | step2_posts.py:500-506 | one record per seed, in order, each `crawl_one` of its seed |
| Step2Posts.RunStep2 | step2_posts.py:480-531 | one record per deduplicated post-address seed, in order |
| Step2Posts.RunNeverSkips | step2_posts.py:492-504 | no seed of a run is skipped, and every record carries the run's neighbourhood |
| DailyStep1Links.ListSeedsForDay | crawling/daily/step1_links.py:118-163 | the method computes `SeedsForDay`: nothing when the document does not load, else the harvest tagged with the neighbourhood |
| DailyStep1Links.SeedsForDayFacts | crawling/daily/step1_links.py:118-163 | every row has the neighbourhood, the day, a clean title and a blog link; links are distinct; every blog link among the pages read is present |
| DailyStep1Links.TitleIsAnchorText | crawling/daily/step1_links.py:150 | the title is the cleaned anchor text, never the `title` attribute |
| DailyStep1Links.CollectAll | crawling/daily/step1_links.py:195-200 | the loop gathers each keyword's rows in turn |
| DailyStep1Links.CollectKeywords | crawling/daily/step1_links.py:197-199 | `all_rows` is the concatenation of the keywords' rows, in keyword order |
| DailyStep1Links.SaveSingleFile | crawling/daily/step1_links.py:169-183 | nothing is written exactly when there are no rows; otherwise the path is `./data_html/{YYYY}/links/links_all_{YYYYMMDD}.csv` |
| DailyStep1Links.SaveSingleFileFacts | crawling/daily/step1_links.py:174 | the table has each link of the run once, as the first row that carried it |
| DailyStep1Links.RunStep1 | crawling/daily/step1_links.py:190-204 | the run writes `SaveSingleFile` of all keywords' rows, for the given day or else the day before today |
| DailyStep1Links.RunWritesNothing | crawling/daily/step1_links.py:169-172 | nothing is written exactly when no keyword yields a row |
| DailyStep1Links.FirstKeywordDecides | crawling/daily/step1_links.py:174 | the row kept for a link comes from the first keyword whose rows have it |
| DailyStep1Links.SharedLinkKeepsFirstKeyword | crawling/daily/step1_links.py:174-183 | a link several keywords found is written once, with the neighbourhood of the first keyword that found it |
| CrawlerStep1.LeadIsPlain | crawling/step1/crawler_step1.py:21 | the fixed parameter cannot be taken for `query` or `nso` |
| CrawlerStep1.SearchWhere | crawling/step1/crawler_step1.py:21 | the URL asks for `where=blog` |
| CrawlerStep1.BuildSearchUrlParams | crawling/step1/crawler_step1.py:18-21 | the URL asks for blog results, the quoted keyword (which unquotes back), and the one-day window of the day |
| CrawlerStep1.CollectLinksForDay | crawling/step1/crawler_step1.py:24-68 | the method computes `Collected`: UnboundLocalError with no title selectors, else the path and the page's rows |
| CrawlerStep1.CollectedWrites | crawling/step1/crawler_step1.py:41-66 | the run fails exactly when there are no title selectors, with UnboundLocalError; otherwise it writes `links_{slug}_{YYYYMMDD}.csv`, even with no rows |
| CrawlerStep1.FirstSelectorOnly | crawling/step1/crawler_step1.py:41-44 | only the first title selector that matches is used |
| CrawlerStep1.CandidateFromAnchor | crawling/step1/crawler_step1.py:46-59 | each candidate row carries the day, no neighbourhood, and an anchor's link and cleaned text |
| CrawlerStep1.AnchorGivesCandidate | crawling/step1/crawler_step1.py:46-59 | every anchor's link is among the candidates |
| CrawlerStep1.BlogAnchorKept | crawling/step1/crawler_step1.py:46-59 | every anchor with a blog link is kept |
| CrawlerStep1.AnchorRowsFacts | crawling/step1/crawler_step1.py:46-59 | kept rows have the day, a blog link and an anchor's link and cleaned text; links are distinct; every blog anchor is present |
| CrawlerStep1.LinksOfPageFacts | crawling/step1/crawler_step1.py:41-59 | the same facts for the anchors of the page |
| CrawlerStep1.LinksOfPageOrder | crawling/step1/crawler_step1.py:46-59 | each row is the first accepted candidate with its link, in order of first occurrence |
| CrawlerStep1.OnePageIsHarvest | crawling/step1/crawler_step1.py:24-59 | reading the one page is the paged harvest of a session that shows only that page |
| DailyCrawling.LeadIsPlain | daily_crawling.py:66 | the fixed parameters cannot be taken for `query` or `nso` |
| DailyCrawling.SearchWhere | daily_crawling.py:66 | the URL asks for `where=blog` |
| DailyCrawling.SearchSm | daily_crawling.py:66 | the URL asks for `sm=tab_opt` |
| DailyCrawling.SearchSsc | daily_crawling.py:66 | the URL asks for `ssc=tab.blog.all` |
| DailyCrawling.BuildSearchUrlParams | daily_crawling.py:60-68 | the URL asks for blog results, the quoted keyword (which unquotes back), and the one-day window of the day |
| DailyCrawling.ReadyIff | daily_crawling.py:70-89 | ready exactly when loading completes and some title selector matches |
| DailyCrawling.EnsureResultsReady | daily_crawling.py:70-89 | the method computes `Ready` |
| DailyCrawling.AcceptsIsBlogHost | daily_crawling.py:129 | the mobile host test adds nothing: a link is kept exactly when it contains the blog host |
| DailyCrawling.CrawlDayLinks | daily_crawling.py:103-148 | the method computes `DayLinks`: nothing when not ready, else the harvest |
| DailyCrawling.DayLinksFacts | daily_crawling.py:103-148 | every row has the day, a clean title and a blog link, links are distinct; and the harvest reads at least as many pages as a display-checking one would |
| DailyCrawling.IsPostLinkIgnoringCase | daily_crawling.py:155-162 | every link this recogniser accepts, the case-insensitive one accepts too |
| DailyCrawling.CaseMatters | daily_crawling.py:155-162 | an upper-case `HTTPS://` post address is rejected here but accepted by the case-insensitive pattern |
| DailyCrawling.CrawledPost | daily_crawling.py:253-315 | the record is the blank one with only the status changed: skip exactly for non-post addresses; otherwise an `error:` status, the navigation's exception when it fails, else `error:NameError` |
| DailyCrawling.CrawlPosts | daily_crawling.py:365-370 | one record per valid link, in order, each `crawl_post` of its link |
| DailyCrawling.JoinUnderDir | daily_crawling.py:347-357 | a folder, a sub-folder and a file name join with single slashes |
| DailyCrawling.OutPathShape | daily_crawling.py:346-372 | the tables land in `./data_html/{slug}/{YYYY}/{sub}/{prefix}{slug}_{YYYYMMDD}.csv` |
| DailyCrawling.NoRecordSucceeds | daily_crawling.py:276-313 | no record of a run is "ok" or "skip": every crawled post ends in an `error:` status |
| DailyCrawling.RunKeyword | daily_crawling.py:343-373 | the loop body computes `KeywordDay`: the harvest, its post-address rows, and their records |
| DailyCrawling.RunKeywords | daily_crawling.py:343-373 | the loop gives one output per keyword, in order |
| DailyCrawling.RunDaily | daily_crawling.py:335-374 | one output per keyword of `KEYWORDS`, each that keyword's run over the day before today |

## Left out

- The browser's timing is not modelled: waits, sleeps, random pauses (`human_pause`), scrolling for lazy loading, and `wait_engagement_widgets`. A page is the state the browser shows once these are done; a wait that times out is the page not being ready.
- The driver's lifetime is not modelled (`build_driver`, `driver.quit()`). A navigation is a function from an address to the page reached, or to the name of the exception raised.
- The clock is not modelled. `crawled_at` is not in the records. `datetime.now()` is a parameter `today`; the day before it is computed from it.
- File and console I/O are not modelled: `print`, `dump_debug`, `probe_counts_debug`, `os.makedirs`/`ensure_dir`, and reading and writing CSV through pandas. A written table is the path and the rows. A table read is its rows, with the `link` column present, every `link` cell a non-blank string, and NaN in the other columns already blanked by `fillna("")`.
- A blank `link` cell is read by pandas as NaN, a float. The post stage tests the raw column with `is_post_url` before `fillna` runs (step2_posts.py:492, crawling/daily/step2_posts.py:373, step2/crawler_step2.py:100). On NaN, `POST_URL_RE.match(u or "")` and `"blog.naver.com" in url` raise TypeError, which ends `run_step2`, `run_step2_single` and `run_step2_for_day` before any post is crawled. This abort is not modelled. The CSV column order and the `utf-8-sig` encoding are not modelled.
- `urlparse` is not modelled: a visited address is given as its parts (network location, path, parsed query). `urljoin` is not modelled either (see PostUrl.ResolveFrameSrc below).
- PostUrl.ResolveFrameSrc: a host-relative frame source is appended to `https://blog.naver.com` as it is. `urljoin` also removes `.` and `..` path segments (`/a/../PostView.naver` becomes `https://blog.naver.com/PostView.naver`); the model does not.
- BeautifulSoup is not modelled: a parsed page is given as its selections and their texts and attributes.
- Python's `\w` is taken as ASCII letters, digits and `_`, plus Hangul syllables. `\d` and `int()` read ASCII digits only.
- Calendar days are restricted to years 1000 to 9999, the years whose `%Y` is four digits.
- Harvest.Visited: the search session is the finite sequence of pages that "next" would show, so a session whose "next" never gives out is cut at the last page given.
- Page.GotoPostView: a second navigation (to the frame source) that raises is taken to leave the browser at the first address and its page, so the `PostView` test then reads the first address; a browser left partly at the frame source is not modelled.
- Step1Links.SeedsForDay, DailyStep1Links.SeedsForDay and DailyCrawling.DayLinks treat a session that shows no page at all as not ready.
- The `title_raw` and `description_raw` columns of `daily_crawling.py` are not modelled; they are copied from input columns that the links table never has.
- In `daily_crawling.py`, `crawl_post` calls `extract_ids`, which that file does not define. Every crawl that gets past the navigation therefore ends in `error:NameError`. The code after that call is unreachable and is not modelled: `extract_body_html`, `extract_tags_imgs_videos`, `extract_like_comment` and the date regular expression.
- `step2.selectors_step2`, `step1.selectors_step1`, `utils.common` and `utils.driver` are not part of this model. Their selector lists are parameters (`Site` in `CrawlerStep2`, the title selectors of `CrawlerStep1`). `clean` and `sanitize_for_fname` are taken from `crawling/utils/common.py`.
- `run_daily.py`, `config.py` and the `main` functions only call the modelled entry points with fixed paths and are not modelled.
- The copies of `clean`, `sanitize`, `build_search_url`, `KEYWORDS` and `is_post_url` that the files repeat verbatim are modelled once each.
- Stale elements and other exceptions that Selenium raises at random are not modelled. Only the exceptions that the page content itself causes are modelled: NoSuchElementException, ValueError, IndexError, UnboundLocalError and NameError. The TypeError that a blank `link` cell raises (see above) is not modelled.
