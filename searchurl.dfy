/** The one-day Naver blog search URL that every stage-1 harvester opens:
    `https://search.naver.com/search.naver?<fixed parameters>&query=<quote(q)>&nso=so:dd,p:from<D>to<D>`.

    `quote` is Python's `urllib.parse.quote` with its default `safe='/'`: the
    UTF-8 bytes of every character outside `A-Z a-z 0-9 _ . - ~ /` become `%XX`
    with upper-case hex digits.  `Unquote` is its inverse, and `ParamValue`
    reads a parameter back out of a URL, so the lemmas below show that the
    URL names exactly the query and the one-day window it was built from. */
module SearchUrl {
  import opened Base
  import opened Calendar

  const SEARCH_BASE := "https://search.naver.com/search.naver"

  // ---------------------------------------------------------------------------
  // Percent-encoding

  /** Characters `quote` copies unchanged. */
  predicate IsSafe(c: char)
  {
    ('a' <= c <= 'z') || ('A' <= c <= 'Z') || IsDigit(c) || c == '_' || c == '.' || c == '-' || c == '~' || c == '/'
  }

  /** The UTF-8 encoding of one character. */
  function Utf8(c: char): (bs: seq<int>)
    ensures 1 <= |bs| <= 4
    ensures forall k :: 0 <= k < |bs| ==> 0 <= bs[k] < 256
  {
    var n := c as int;
    if n < 0x80 then [n]
    else if n < 0x800 then [0xC0 + n / 64, 0x80 + n % 64]
    else if n < 0x10000 then [0xE0 + n / 4096, 0x80 + (n % 4096) / 64, 0x80 + (n % 4096) % 64]
    else [0xF0 + n / 262144, 0x80 + (n % 262144) / 4096, 0x80 + ((n % 262144) % 4096) / 64, 0x80 + ((n % 262144) % 4096) % 64]
  }

  function HexDigit(d: int): (c: char)
    requires 0 <= d < 16
    ensures IsSafe(c)
  {
    if d < 10 then ('0' as int + d) as char else ('A' as int + d - 10) as char
  }

  /** `%XX` for every byte. */
  function PercentBytes(bs: seq<int>): (t: string)
    requires forall k :: 0 <= k < |bs| ==> 0 <= bs[k] < 256
    ensures |t| == 3 * |bs|
    ensures forall i :: 0 <= i < |t| ==> IsSafe(t[i]) || t[i] == '%'
    decreases |bs|
  {
    if bs == [] then []
    else ['%', HexDigit(bs[0] / 16), HexDigit(bs[0] % 16)] + PercentBytes(bs[1..])
  }

  function QuoteChar(c: char): (t: string)
    ensures forall i :: 0 <= i < |t| ==> IsSafe(t[i]) || t[i] == '%'
  {
    if IsSafe(c) then [c] else PercentBytes(Utf8(c))
  }

  /** `urllib.parse.quote(s)`.  Its output holds only safe characters and '%',
      so never a '&', '=', '#', '?' or whitespace that would end a URL parameter. */
  function Quote(s: string): (t: string)
    ensures forall i :: 0 <= i < |t| ==> IsSafe(t[i]) || t[i] == '%'
    decreases |s|
  {
    if s == [] then [] else QuoteChar(s[0]) + Quote(s[1..])
  }

  // ---------------------------------------------------------------------------
  // Decoding

  function HexValue(c: char): Option<int>
  {
    if '0' <= c <= '9' then Some(c as int - '0' as int)
    else if 'A' <= c <= 'F' then Some(c as int - 'A' as int + 10)
    else if 'a' <= c <= 'f' then Some(c as int - 'a' as int + 10)
    else None
  }

  /** The byte a leading `%XX` stands for. */
  function ByteAt(t: string): (r: Option<int>)
    ensures r.Some? ==> |t| >= 3
  {
    if |t| >= 3 && t[0] == '%' && HexValue(t[1]).Some? && HexValue(t[2]).Some? then
      Some(HexValue(t[1]).value * 16 + HexValue(t[2]).value)
    else None
  }

  /** The bytes of `n` leading `%XX` groups. */
  function ReadBytes(t: string, n: nat): (r: Option<seq<int>>)
    ensures r.Some? ==> |t| >= 3 * n && |r.value| == n
    decreases n
  {
    if n == 0 then Some([])
    else
      match ByteAt(t)
      case None => None
      case Some(b) =>
        match ReadBytes(t[3..], n - 1)
        case None => None
        case Some(bs) => Some([b] + bs)
  }

  /** How many bytes a UTF-8 sequence starting with `b` has; 0 when `b` cannot start one. */
  function Utf8Len(b: int): nat
  {
    if 0 <= b < 0x80 then 1
    else if 0xC0 <= b < 0xE0 then 2
    else if 0xE0 <= b < 0xF0 then 3
    else if 0xF0 <= b < 0xF8 then 4
    else 0
  }

  predicate IsCont(b: int)
  {
    0x80 <= b < 0xC0
  }

  /** Strict UTF-8 decoding of the bytes of one character (no overlong forms, no surrogates). */
  function Utf8Decode(bs: seq<int>): Option<char>
  {
    if |bs| == 1 && 0 <= bs[0] < 0x80 then Some(bs[0] as char)
    else if |bs| == 2 && 0xC0 <= bs[0] < 0xE0 && IsCont(bs[1]) then
      var n := (bs[0] - 0xC0) * 64 + (bs[1] - 0x80);
      if n >= 0x80 then Some(n as char) else None
    else if |bs| == 3 && 0xE0 <= bs[0] < 0xF0 && IsCont(bs[1]) && IsCont(bs[2]) then
      var n := (bs[0] - 0xE0) * 4096 + (bs[1] - 0x80) * 64 + (bs[2] - 0x80);
      if n >= 0x800 && !(0xD800 <= n < 0xE000) then Some(n as char) else None
    else if |bs| == 4 && 0xF0 <= bs[0] < 0xF8 && IsCont(bs[1]) && IsCont(bs[2]) && IsCont(bs[3]) then
      var n := (bs[0] - 0xF0) * 262144 + (bs[1] - 0x80) * 4096 + (bs[2] - 0x80) * 64 + (bs[3] - 0x80);
      if 0x10000 <= n < 0x110000 then Some(n as char) else None
    else None
  }

  function Prepend(c: char, o: Option<string>): Option<string>
  {
    if o.Some? then Some([c] + o.value) else None
  }

  /** Percent-decoding followed by strict UTF-8 decoding: the inverse of
      `Quote`.  None where the input is not a well-formed quoting. */
  function Unquote(t: string): (r: Option<string>)
    decreases |t|
  {
    if t == [] then Some([])
    else if t[0] != '%' then Prepend(t[0], Unquote(t[1..]))
    else
      match ByteAt(t)
      case None => None
      case Some(b) =>
        var n := Utf8Len(b);
        if n == 0 then None
        else
          match ReadBytes(t, n)
          case None => None
          case Some(bs) =>
            match Utf8Decode(bs)
            case None => None
            case Some(c) => Prepend(c, Unquote(t[3 * n..]))
  }

  lemma HexRoundTrip(b: int)
    requires 0 <= b < 256
    ensures HexValue(HexDigit(b / 16)).Some? && HexValue(HexDigit(b % 16)).Some?
    ensures HexValue(HexDigit(b / 16)).value * 16 + HexValue(HexDigit(b % 16)).value == b
  {
  }

  lemma {:induction false} ReadPercentBytes(bs: seq<int>, rest: string)
    requires forall k :: 0 <= k < |bs| ==> 0 <= bs[k] < 256
    ensures ReadBytes(PercentBytes(bs) + rest, |bs|) == Some(bs)
    decreases |bs|
  {
    if bs != [] {
      var t := PercentBytes(bs) + rest;
      var head := ['%', HexDigit(bs[0] / 16), HexDigit(bs[0] % 16)];
      PercentBytesCons(bs, rest);
      ByteAtPercent(bs[0], PercentBytes(bs[1..]) + rest);
      assert t[3..] == PercentBytes(bs[1..]) + rest;
      ReadPercentBytes(bs[1..], rest);
      assert [bs[0]] + bs[1..] == bs;
    }
  }

  lemma Utf8RoundTrip(c: char)
    ensures Utf8Len(Utf8(c)[0]) == |Utf8(c)|
    ensures Utf8Decode(Utf8(c)) == Some(c)
  {
    var n := c as int;
    if n < 0x80 {
    } else if n < 0x800 {
      Utf8RoundTripTwo(c);
    } else if n < 0x10000 {
      Utf8RoundTripThree(c);
    } else {
      Utf8RoundTripFour(c);
    }
  }

  lemma Utf8RoundTripTwo(c: char)
    requires 0x80 <= c as int < 0x800
    ensures Utf8Len(Utf8(c)[0]) == |Utf8(c)| == 2
    ensures Utf8Decode(Utf8(c)) == Some(c)
  {
    var n := c as int;
    assert n == (n / 64) * 64 + n % 64;
    Utf8Two(n / 64, n % 64);
  }

  lemma Utf8RoundTripThree(c: char)
    requires 0x800 <= c as int < 0x10000
    ensures Utf8Len(Utf8(c)[0]) == |Utf8(c)| == 3
    ensures Utf8Decode(Utf8(c)) == Some(c)
  {
    var n := c as int;
    var r := n % 4096;
    assert n == (n / 4096) * 4096 + r;
    assert r == (r / 64) * 64 + r % 64;
    Utf8Three(n / 4096, r / 64, r % 64);
  }

  lemma Utf8RoundTripFour(c: char)
    requires 0x10000 <= c as int
    ensures Utf8Len(Utf8(c)[0]) == |Utf8(c)| == 4
    ensures Utf8Decode(Utf8(c)) == Some(c)
  {
    var n := c as int;
    var r := n % 262144;
    var r2 := r % 4096;
    assert n == (n / 262144) * 262144 + r;
    assert r == (r / 4096) * 4096 + r2;
    assert r2 == (r2 / 64) * 64 + r2 % 64;
    Utf8Four(n / 262144, r / 4096, r2 / 64, r2 % 64);
  }

  lemma Utf8Two(a: int, b: int)
    requires 2 <= a < 32 && 0 <= b < 64
    ensures Utf8Decode([0xC0 + a, 0x80 + b]) == Some((a * 64 + b) as char)
  {
  }

  lemma Utf8Three(a: int, b: int, c: int)
    requires 0 <= a < 16 && 0 <= b < 64 && 0 <= c < 64
    requires 0x800 <= a * 4096 + b * 64 + c && !(0xD800 <= a * 4096 + b * 64 + c < 0xE000)
    ensures Utf8Decode([0xE0 + a, 0x80 + b, 0x80 + c]) == Some((a * 4096 + b * 64 + c) as char)
  {
  }

  lemma Utf8Four(a: int, b: int, c: int, e: int)
    requires 0 <= a < 8 && 0 <= b < 64 && 0 <= c < 64 && 0 <= e < 64
    requires 0x10000 <= a * 262144 + b * 4096 + c * 64 + e < 0x110000
    ensures Utf8Decode([0xF0 + a, 0x80 + b, 0x80 + c, 0x80 + e]) == Some((a * 262144 + b * 4096 + c * 64 + e) as char)
  {
  }

  /** The `%XX` groups of the UTF-8 bytes of `c` decode to `c`. */
  lemma UnquoteBytes(bs: seq<int>, c: char, rest: string)
    requires forall k :: 0 <= k < |bs| ==> 0 <= bs[k] < 256
    requires |bs| >= 1 && Utf8Len(bs[0]) == |bs| && Utf8Decode(bs) == Some(c)
    ensures Unquote(PercentBytes(bs) + rest) == Prepend(c, Unquote(rest))
  {
    var t := PercentBytes(bs) + rest;
    ReadPercentBytes(bs, rest);
    PercentBytesCons(bs, rest);
    ByteAtPercent(bs[0], PercentBytes(bs[1..]) + rest);
    UnquoteStep(t, bs, c);
    assert t[3 * |bs|..] == rest;
  }

  /** Percent-encoded bytes start with the group of the first byte. */
  lemma PercentBytesCons(bs: seq<int>, rest: string)
    requires forall k :: 0 <= k < |bs| ==> 0 <= bs[k] < 256
    requires bs != []
    ensures PercentBytes(bs) + rest ==
      ['%', HexDigit(bs[0] / 16), HexDigit(bs[0] % 16)] + (PercentBytes(bs[1..]) + rest)
  {
    PercentBytesUnfold(bs);
    AppendAfter(['%', HexDigit(bs[0] / 16), HexDigit(bs[0] % 16)], PercentBytes(bs[1..]), PercentBytes(bs), rest);
  }

  /** Appending to a concatenation appends to its second part. */
  lemma AppendAfter(h: string, t: string, s: string, rest: string)
    requires s == h + t
    ensures s + rest == h + (t + rest)
  {
  }

  lemma PercentBytesUnfold(bs: seq<int>)
    requires forall k :: 0 <= k < |bs| ==> 0 <= bs[k] < 256
    requires bs != []
    ensures PercentBytes(bs) == ['%', HexDigit(bs[0] / 16), HexDigit(bs[0] % 16)] + PercentBytes(bs[1..])
  {
  }

  /** A `%XX` group reads back as its byte. */
  lemma ByteAtPercent(b: int, tail: string)
    requires 0 <= b < 256
    ensures ByteAt(['%', HexDigit(b / 16), HexDigit(b % 16)] + tail) == Some(b)
  {
    HexRoundTrip(b);
  }

  /** One decoding step of `Unquote` at a well-formed `%XX` run. */
  lemma UnquoteStep(t: string, bs: seq<int>, c: char)
    requires t != [] && t[0] == '%' && |bs| >= 1 && ByteAt(t) == Some(bs[0])
    requires Utf8Len(bs[0]) == |bs| && ReadBytes(t, |bs|) == Some(bs) && Utf8Decode(bs) == Some(c)
    ensures 3 * |bs| <= |t|
    ensures Unquote(t) == Prepend(c, Unquote(t[3 * |bs|..]))
  {
  }

  lemma UnquoteChar(c: char, rest: string)
    ensures Unquote(QuoteChar(c) + rest) == Prepend(c, Unquote(rest))
  {
    if IsSafe(c) {
      var t := QuoteChar(c) + rest;
      assert t[0] == c && t[1..] == rest;
    } else {
      Utf8RoundTrip(c);
      UnquoteBytes(Utf8(c), c, rest);
    }
  }

  /** Quoting loses nothing: the query is recovered from its quoted form. */
  lemma {:induction false} UnquoteQuote(s: string)
    ensures Unquote(Quote(s)) == Some(s)
    decreases |s|
  {
    if s != [] {
      UnquoteChar(s[0], Quote(s[1..]));
      UnquoteQuote(s[1..]);
      assert [s[0]] + s[1..] == s;
    }
  }

  // ---------------------------------------------------------------------------
  // The search URL and its parameters

  /** The `nso` value that restricts results to posts of day `d`: the same
      `%Y%m%d` on both sides of the window. */
  function Nso(d: Date): (v: string)
    ensures |v| == 30
  {
    "so:dd,p:from" + Ymd(d) + "to" + Ymd(d)
  }

  /** The `from` and `to` days of an `nso` window value. */
  function DayWindow(v: string): Option<(string, string)>
  {
    if |v| == 30 && v[..12] == "so:dd,p:from" && v[20..22] == "to" then Some((v[12..20], v[22..])) else None
  }

  /** The four pieces of `a + y + b + z`, sliced back out. */
  lemma FourPieces(a: string, y: string, b: string, z: string)
    ensures var v := a + y + b + z;
      v[..|a|] == a && v[|a|..|a| + |y|] == y &&
      v[|a| + |y|..|a| + |y| + |b|] == b && v[|a| + |y| + |b|..] == z
  {
  }

  /** The window of `Nso(d)` opens and closes on `d`. */
  lemma NsoWindow(d: Date)
    requires Valid(d)
    ensures DayWindow(Nso(d)) == Some((Ymd(d), Ymd(d)))
    ensures ParseYmd(DayWindow(Nso(d)).value.0) == Some(d)
  {
    FourPieces("so:dd,p:from", Ymd(d), "to", Ymd(d));
    ParseYmdOfYmd(d);
  }

  /** `BASE?p1&p2&...&query=<quote(q)>&nso=<window>`, the shape of every
      `build_search_url`; `lead` are the fixed parameters before `query`. */
  function Compose(lead: seq<string>, q: string, d: Date): string
  {
    SEARCH_BASE + "?" + Join(lead + ["query=" + Quote(q), "nso=" + Nso(d)], "&")
  }

  /** The text after the first '?' of a URL, if it has one. */
  function QueryString(url: string): Option<string>
    decreases |url|
  {
    if url == [] then None
    else if url[0] == '?' then Some(url[1..])
    else QueryString(url[1..])
  }

  /** The value of the first `name=value` parameter among `parts`. */
  function Lookup(parts: seq<string>, name: string): Option<string>
    decreases |parts|
  {
    if parts == [] then None
    else if StartsWith(parts[0], name + "=") then Some(parts[0][|name| + 1..])
    else Lookup(parts[1..], name)
  }

  /** The raw (still quoted) value of parameter `name` in `url`. */
  function ParamValue(url: string, name: string): Option<string>
  {
    match QueryString(url)
    case None => None
    case Some(qs) => Lookup(Split(qs, '&'), name)
  }

  predicate NoAmp(s: string)
  {
    forall i :: 0 <= i < |s| ==> s[i] != '&'
  }

  /** Fixed parameters that cannot be taken for `query` or `nso`. */
  predicate PlainLead(lead: seq<string>)
  {
    forall k :: 0 <= k < |lead| ==> NoAmp(lead[k]) && !StartsWith(lead[k], "query=") && !StartsWith(lead[k], "nso=")
  }

  /** A parameter without '&' whose first character is neither 'q' nor 'n' is a plain one. */
  lemma PlainParam(p: string)
    requires p != [] && p[0] != 'q' && p[0] != 'n' && '&' !in p
    ensures NoAmp(p) && !StartsWith(p, "query=") && !StartsWith(p, "nso=")
  {
    DiffersAt(p, "query=", 0);
    DiffersAt(p, "nso=", 0);
  }

  lemma {:induction false} QueryStringAfter(pre: string, rest: string)
    requires forall i :: 0 <= i < |pre| ==> pre[i] != '?'
    ensures QueryString(pre + "?" + rest) == Some(rest)
    decreases |pre|
  {
    if pre == [] {
      assert pre + "?" + rest == "?" + rest;
    } else {
      assert (pre + "?" + rest)[1..] == pre[1..] + "?" + rest;
      QueryStringAfter(pre[1..], rest);
    }
  }

  lemma {:induction false} LookupSkip(lead: seq<string>, tail: seq<string>, name: string)
    requires forall k :: 0 <= k < |lead| ==> !StartsWith(lead[k], name + "=")
    ensures Lookup(lead + tail, name) == Lookup(tail, name)
    decreases |lead|
  {
    if lead != [] {
      assert (lead + tail)[0] == lead[0];
      assert (lead + tail)[1..] == lead[1..] + tail;
      LookupSkip(lead[1..], tail, name);
    } else {
      assert lead + tail == tail;
    }
  }

  lemma NoAmpConcat(a: string, b: string)
    requires NoAmp(a) && NoAmp(b)
    ensures NoAmp(a + b)
  {
    forall i | 0 <= i < |a + b|
      ensures (a + b)[i] != '&'
    {
      if i < |a| {
        assert (a + b)[i] == a[i];
      } else {
        assert (a + b)[i] == b[i - |a|];
      }
    }
  }

  lemma QueryParamNoAmp(q: string)
    ensures NoAmp("query=" + Quote(q))
  {
    var t := Quote(q);
    assert !IsSafe('&');
    assert NoAmp(t);
    assert NoAmp("query=");
    NoAmpConcat("query=", t);
  }

  lemma NsoParamNoAmp(d: Date)
    ensures NoAmp("nso=" + Nso(d))
  {
    var y := Ymd(d);
    assert NoAmp(y);
    assert NoAmp("nso=") && NoAmp("so:dd,p:from") && NoAmp("to");
    NoAmpConcat("so:dd,p:from", y);
    NoAmpConcat("so:dd,p:from" + y, "to");
    NoAmpConcat("so:dd,p:from" + y + "to", y);
    NoAmpConcat("nso=", Nso(d));
  }

  lemma BaseHasNoQuestionMark()
    ensures forall i :: 0 <= i < |SEARCH_BASE| ==> SEARCH_BASE[i] != '?'
  {
    assert '?' !in SEARCH_BASE;
  }

  /** The parameters of a composed URL, split back apart. */
  lemma ComposeSplit(lead: seq<string>, q: string, d: Date)
    requires PlainLead(lead)
    ensures QueryString(Compose(lead, q, d)).Some?
    ensures Split(QueryString(Compose(lead, q, d)).value, '&') == lead + ["query=" + Quote(q), "nso=" + Nso(d)]
  {
    var parts := lead + ["query=" + Quote(q), "nso=" + Nso(d)];
    BaseHasNoQuestionMark();
    QueryStringAfter(SEARCH_BASE, Join(parts, "&"));
    QueryParamNoAmp(q);
    NsoParamNoAmp(d);
    assert forall k :: 0 <= k < |parts| ==> NoAmp(parts[k]);
    SplitJoin(parts, '&');
  }

  /** After plain fixed parameters, `query` and `nso` are read from the
      two parameters that follow. */
  lemma LookupAfterLead(lead: seq<string>, qp: string, np: string)
    requires PlainLead(lead)
    requires StartsWith(qp, "query=") && StartsWith(np, "nso=")
    ensures Lookup(lead + [qp, np], "query") == Some(qp[6..])
    ensures Lookup(lead + [qp, np], "nso") == Some(np[4..])
  {
    assert "query" + "=" == "query=" && "nso" + "=" == "nso=";
    LookupSkip(lead, [qp, np], "query");
    LookupSkip(lead, [qp, np], "nso");
    DiffersAt(qp, "nso=", 0);
    assert [qp, np][1..] == [np];
  }

  /** Reading the parameters back out of a composed URL gives the quoted
      query and the one-day window, and unquoting gives the query itself. */
  lemma ComposeParams(lead: seq<string>, q: string, d: Date)
    requires PlainLead(lead)
    ensures ParamValue(Compose(lead, q, d), "query") == Some(Quote(q))
    ensures ParamValue(Compose(lead, q, d), "nso") == Some(Nso(d))
    ensures Unquote(ParamValue(Compose(lead, q, d), "query").value) == Some(q)
  {
    var qp, np := "query=" + Quote(q), "nso=" + Nso(d);
    ComposeSplit(lead, q, d);
    LookupAfterLead(lead, qp, np);
    assert qp[6..] == Quote(q);
    assert np[4..] == Nso(d);
    UnquoteQuote(q);
  }

  /** The first parameter named `name` decides its value. */
  lemma {:induction false} LookupAt(parts: seq<string>, name: string, k: nat)
    requires k < |parts| && StartsWith(parts[k], name + "=")
    requires forall j :: 0 <= j < k ==> !StartsWith(parts[j], name + "=")
    ensures Lookup(parts, name) == Some(parts[k][|name| + 1..])
    decreases k
  {
    if k > 0 {
      assert forall j :: 0 <= j < k - 1 ==> parts[1..][j] == parts[j + 1];
      LookupAt(parts[1..], name, k - 1);
    }
  }

  /** A fixed parameter of a composed URL reads back as written. */
  lemma ComposeLead(lead: seq<string>, q: string, d: Date, name: string, value: string, k: nat)
    requires PlainLead(lead)
    requires k < |lead| && lead[k] == name + "=" + value
    requires forall j :: 0 <= j < k ==> !StartsWith(lead[j], name + "=")
    ensures ParamValue(Compose(lead, q, d), name) == Some(value)
  {
    ComposeSplit(lead, q, d);
    var parts := lead + ["query=" + Quote(q), "nso=" + Nso(d)];
    assert forall j :: 0 <= j < |lead| ==> parts[j] == lead[j];
    assert parts[k][..|name| + 1] == name + "=";
    LookupAt(parts, name, k);
    assert parts[k][|name| + 1..] == value;
  }
}
