/** Small text parsers of the post crawler: hashtag normalisation, the
    count reader `_to_int_or_none`, the publication-date reader, and Python's
    `int()` on a string as used by `step2/crawler_step2.py`. */
module TextParse {
  import opened Base

  // ---------------------------------------------------------------------------
  // normalize_hashtag

  /** `normalize_hashtag(t)`: "" for blank text; otherwise the text with all
      whitespace removed and a leading '#' added when missing. */
  function NormalizeHashtag(t: string): (r: string)
    ensures r == "" <==> AllSpace(t)
    ensures r != "" ==> r[0] == '#' && NoSpace(r)
    ensures r != "" && StartsWith(RemoveSpaces(t), "#") ==> r == RemoveSpaces(t)
    ensures r != "" && !StartsWith(RemoveSpaces(t), "#") ==> r == "#" + RemoveSpaces(t)
  {
    var s := Strip(t);
    StripEmpty(t);
    if s == "" then ""
    else
      var u := RemoveSpaces(s);
      StripKeepsNonSpace(t);
      RemoveSpacesEmpty(t);
      if StartsWith(u, "#") then u else "#" + u
  }

  /** Normalising a normalised tag changes nothing. */
  lemma NormalizeHashtagIdempotent(t: string)
    ensures NormalizeHashtag(NormalizeHashtag(t)) == NormalizeHashtag(t)
  {
    var r := NormalizeHashtag(t);
    if r != "" {
      StripNoSpace(r);
      RemoveSpacesOfNoSpace(r);
      assert StartsWith(r, "#");
    }
  }

  lemma NormalizeHashtagBlank()
    ensures NormalizeHashtag("\n ") == ""
  {
    assert TrimLeft("\n ") == "";
  }

  // ---------------------------------------------------------------------------
  // _to_int_or_none: the first run of digits and commas, commas dropped

  predicate IsNumChar(c: char)
  {
    IsDigit(c) || c == ','
  }

  predicate HasNumChar(s: string)
  {
    exists i :: 0 <= i < |s| && IsNumChar(s[i])
  }

  /** Index of the first digit or comma, or |s| when there is none. */
  function FirstNumIndex(s: string): (i: nat)
    ensures i <= |s|
    ensures forall j :: 0 <= j < i ==> !IsNumChar(s[j])
    ensures i < |s| ==> IsNumChar(s[i])
    decreases |s|
  {
    if s == [] || IsNumChar(s[0]) then 0 else 1 + FirstNumIndex(s[1..])
  }

  /** The longest prefix made of digits and commas. */
  function NumRun(s: string): (w: string)
    ensures |w| <= |s| && w == s[..|w|]
    ensures forall j :: 0 <= j < |w| ==> IsNumChar(w[j])
    ensures |w| < |s| ==> !IsNumChar(s[|w|])
    decreases |s|
  {
    if s == [] || !IsNumChar(s[0]) then [] else [s[0]] + NumRun(s[1..])
  }

  /** What `re.search(r"([\d,]+)", s)` captures: the leftmost, longest run. */
  function FirstNumRun(s: string): (w: string)
    ensures w == "" <==> !HasNumChar(s)
    ensures forall j :: 0 <= j < |w| ==> IsNumChar(w[j])
  {
    var i := FirstNumIndex(s);
    if i == |s| then "" else NumRun(s[i..])
  }

  lemma DigitsOfNumRun(w: string)
    requires forall j :: 0 <= j < |w| ==> IsNumChar(w[j])
    ensures AllDigits(RemoveChar(w, ','))
  {
    var d := RemoveChar(w, ',');
    RemoveCharFacts(w, ',');
    forall j | 0 <= j < |d|
      ensures IsDigit(d[j])
    {
      assert d[j] in w;
    }
  }

  /** `_to_int_or_none(s)`: None when `s` holds no digit or comma; ValueError when
      the first run of them is made of commas only; otherwise that run read as a
      decimal number with its commas (thousands separators) dropped. */
  function ToIntOrNone(s: string): (r: Result<Option<nat>>)
    ensures r == Ok(None) <==> !HasNumChar(s)
    ensures r.Err? ==> r.fault == "ValueError" && RemoveChar(FirstNumRun(s), ',') == ""
    ensures r.Ok? && r.value.Some? ==>
      var d := RemoveChar(FirstNumRun(s), ','); d != "" && AllDigits(d) && r.value.value == DecValue(d)
  {
    var w := FirstNumRun(s);
    if w == "" then Ok(None)
    else
      var d := RemoveChar(w, ',');
      DigitsOfNumRun(w);
      if d == "" then Err("ValueError") else Ok(Some(DecValue(d)))
  }

  lemma {:induction false} FirstNumIndexSkip(pre: string, s: string)
    requires forall j :: 0 <= j < |pre| ==> !IsNumChar(pre[j])
    ensures FirstNumIndex(pre + s) == |pre| + FirstNumIndex(s)
    decreases |pre|
  {
    if pre != [] {
      assert (pre + s)[1..] == pre[1..] + s;
      FirstNumIndexSkip(pre[1..], s);
    } else {
      assert pre + s == s;
    }
  }

  lemma {:induction false} NumRunOfDigits(ds: string, post: string)
    requires AllDigits(ds)
    requires post == [] || !IsNumChar(post[0])
    ensures NumRun(ds + post) == ds
    decreases |ds|
  {
    if ds != [] {
      assert (ds + post)[1..] == ds[1..] + post;
      NumRunOfDigits(ds[1..], post);
      assert [ds[0]] + ds[1..] == ds;
    } else {
      assert ds + post == post;
    }
  }

  /** A run of digits after text without digits or commas is the first run. */
  lemma FirstNumRunAfter(pre: string, ds: string, post: string)
    requires !HasNumChar(pre)
    requires ds != [] && AllDigits(ds)
    requires post == [] || !IsNumChar(post[0])
    ensures FirstNumRun(pre + ds + post) == ds
  {
    var s := pre + ds + post;
    assert s == pre + (ds + post);
    FirstNumIndexSkip(pre, ds + post);
    assert s[|pre|..] == ds + post;
    NumRunOfDigits(ds, post);
  }

  /** A first run made of digits only reads as its decimal value. */
  lemma ToIntOrNoneOfDigits(s: string, ds: string)
    requires FirstNumRun(s) == ds
    requires ds != [] && AllDigits(ds)
    ensures ToIntOrNone(s) == Ok(Some(DecValue(ds)))
  {
    assert forall j :: 0 <= j < |ds| ==> ds[j] != ',';
    RemoveCharAbsent(ds, ',');
  }

  /** A count printed between text without digits reads back as itself. */
  lemma ToIntOrNoneRoundTrip(pre: string, n: nat, post: string)
    requires !HasNumChar(pre)
    requires post == [] || !IsNumChar(post[0])
    ensures ToIntOrNone(pre + NatToString(n) + post) == Ok(Some(n))
  {
    var ds := NatToString(n);
    FirstNumRunAfter(pre, ds, post);
    ToIntOrNoneOfDigits(pre + ds + post, ds);
    DecValueOfNatToString(n);
  }

  lemma ToIntOrNoneNoDigits()
    ensures ToIntOrNone("공감하기") == Ok(None)
  {
    var s := "공감하기";
    assert !IsNumChar(s[0]) && !IsNumChar(s[1]) && !IsNumChar(s[2]) && !IsNumChar(s[3]);
  }

  /** A comma before any digit raises ValueError. */
  lemma ToIntOrNoneLoneComma()
    ensures ToIntOrNone("a, b") == Err("ValueError")
  {
    assert FirstNumIndex("a, b") == 1;
    assert NumRun(", b") == ",";
  }

  // ---------------------------------------------------------------------------
  // The publication date: first match of (\d{4})\.\s*(\d{1,2})\.\s*(\d{1,2})

  /** The day part of a match: one or two digits (greedy). */
  function DayDigits(u: string): (d: string)
    ensures |d| <= 2 && |d| <= |u| && d == u[..|d|] && AllDigits(d)
    ensures d == "" <==> (u == [] || !IsDigit(u[0]))
    ensures |d| == 1 ==> |u| == 1 || !IsDigit(u[1])
  {
    if u == [] || !IsDigit(u[0]) then ""
    else if |u| >= 2 && IsDigit(u[1]) then u[..2]
    else u[..1]
  }

  /** The month part of a match: one or two digits that a '.' follows. */
  function MonthDigits(t: string): (m: string)
    ensures m == "" || (1 <= |m| <= 2 && |m| < |t| && m == t[..|m|] && AllDigits(m) && t[|m|] == '.')
  {
    if |t| >= 3 && IsDigit(t[0]) && IsDigit(t[1]) && t[2] == '.' then t[..2]
    else if |t| >= 2 && IsDigit(t[0]) && t[1] == '.' then t[..1]
    else ""
  }

  /** The date the pattern yields when a match starts at s[0], formatted as
      `f"{int(y):04d}{int(mo):02d}{int(d):02d}"`. */
  function DateAt(s: string): (r: Option<string>)
    ensures r.Some? ==> |r.value| == 8 && AllDigits(r.value)
  {
    if |s| < 5 || !AllDigits(s[..4]) || s[4] != '.' then None
    else DateAfterYear(s[..4], TrimLeft(s[5..]))
  }

  /** The rest of a match once the year and its '.' (and any whitespace) are read. */
  function DateAfterYear(y: string, t: string): (r: Option<string>)
    requires |y| == 4 && AllDigits(y)
    ensures r.Some? ==> |r.value| == 8 && AllDigits(r.value)
  {
    var m := MonthDigits(t);
    if m == "" then None
    else
      var d := DayDigits(TrimLeft(t[|m| + 1..]));
      if d == "" then None
      else Some(FormatYmd(y, m, d))
  }

  /** `f"{int(y):04d}{int(mo):02d}{int(d):02d}"` for the captured groups. */
  function FormatYmd(y: string, m: string, d: string): (r: string)
    requires |y| == 4 && AllDigits(y)
    requires 1 <= |m| <= 2 && AllDigits(m) && 1 <= |d| <= 2 && AllDigits(d)
    ensures |r| == 8 && AllDigits(r)
  {
    FixedDigits(DecValue(y), 4) + FixedDigits(DecValue(m), 2) + FixedDigits(DecValue(d), 2)
  }

  /** `postdate` from the raw date text: "" when nothing matches, else the
      eight digits of the leftmost match. */
  function PostDate(s: string): (r: string)
    ensures r == "" || (|r| == 8 && AllDigits(r))
    decreases |s|
  {
    if DateAt(s).Some? then DateAt(s).value
    else if s == [] then ""
    else PostDate(s[1..])
  }

  /** The result of `f` at the leftmost position of `s` where it has one. */
  function FirstMatch<T>(f: string -> Option<T>, s: string): Option<T>
    decreases |s|
  {
    if f(s).Some? then f(s) else if s == [] then None else FirstMatch(f, s[1..])
  }

  /** `FirstMatch` is a leftmost search: position `i` is the first where `f`
      has a result, or `|s| + 1` when there is none. */
  lemma {:induction false} FirstMatchIsSearch<T>(f: string -> Option<T>, s: string) returns (i: nat)
    ensures i <= |s| + 1
    ensures forall j :: 0 <= j < i && j <= |s| ==> f(s[j..]).None?
    ensures i <= |s| ==> f(s[i..]) == FirstMatch(f, s) && f(s[i..]).Some?
    ensures i == |s| + 1 <==> FirstMatch(f, s).None?
    decreases |s|
  {
    assert s[0..] == s;
    if f(s).Some? {
      i := 0;
    } else if s == [] {
      i := 1;
    } else {
      var k := FirstMatchIsSearch(f, s[1..]);
      i := k + 1;
      forall j | 1 <= j < i && j <= |s|
        ensures f(s[j..]).None?
      {
        assert s[j..] == s[1..][j - 1..];
      }
      if i <= |s| {
        assert s[i..] == s[1..][k..];
      }
    }
  }

  /** `PostDate` is the date of the leftmost match, or "". */
  lemma {:induction false} PostDateFirstMatch(s: string)
    ensures PostDate(s) == if FirstMatch(DateAt, s).Some? then FirstMatch(DateAt, s).value else ""
    decreases |s|
  {
    if DateAt(s).None? && s != [] {
      PostDateFirstMatch(s[1..]);
    }
  }

  /** `PostDate` is a regex search: it returns the date of the leftmost position
      `i` that starts a match, or "" when no position does (`i == |s| + 1`). */
  lemma PostDateIsSearch(s: string) returns (i: nat)
    ensures i <= |s| + 1
    ensures forall j :: 0 <= j < i && j <= |s| ==> DateAt(s[j..]).None?
    ensures i <= |s| ==> DateAt(s[i..]) == Some(PostDate(s))
    ensures i == |s| + 1 <==> PostDate(s) == ""
  {
    i := FirstMatchIsSearch(DateAt, s);
    PostDateFirstMatch(s);
  }

  /** How Naver prints a publication date: "2024. 5. 3." and the like. */
  function DisplayDate(y: string, m: string, d: string): string
  {
    y + ". " + m + ". " + d + "."
  }

  /** A printed date, wherever it stands after text without digits, reads back
      as year, month and day in eight digits. */
  lemma PostDateOfDisplay(pre: string, y: string, m: string, d: string, post: string)
    requires !HasDigit(pre)
    requires |y| == 4 && AllDigits(y)
    requires 1 <= |m| <= 2 && AllDigits(m) && 1 <= |d| <= 2 && AllDigits(d)
    ensures PostDate(pre + DisplayDate(y, m, d) + post) == FormatYmd(y, m, d)
  {
    var u := d + ("." + post);
    var t := m + ("." + (" " + u));
    var rest := y + ("." + (" " + t));
    DisplayDateShape(pre, y, m, d, post);
    PostDateSkip(pre, rest);
    DateAtYear(y, t);
    DateAfterYearOfDisplay(y, m, d, post);
  }

  lemma DisplayDateShape(pre: string, y: string, m: string, d: string, post: string)
    ensures pre + DisplayDate(y, m, d) + post == pre + (y + ("." + (" " + (m + ("." + (" " + (d + ("." + post))))))))
  {
  }

  lemma DateAtYear(y: string, t: string)
    requires |y| == 4 && AllDigits(y)
    requires t != [] && IsDigit(t[0])
    ensures DateAt(y + ("." + (" " + t))) == DateAfterYear(y, t)
  {
    var s := y + ("." + (" " + t));
    assert s[..4] == y && s[4] == '.' && s[5..] == " " + t;
    TrimLeftSpaceDigit(t);
  }

  lemma DateAfterYearOfDisplay(y: string, m: string, d: string, post: string)
    requires |y| == 4 && AllDigits(y)
    requires 1 <= |m| <= 2 && AllDigits(m) && 1 <= |d| <= 2 && AllDigits(d)
    ensures DateAfterYear(y, m + ("." + (" " + (d + ("." + post))))) == Some(FormatYmd(y, m, d))
  {
    var u := d + ("." + post);
    var t := m + ("." + (" " + u));
    MonthOfDisplay(m, " " + u);
    AfterMonth(m, u);
    TrimLeftSpaceDigit(u);
    DayOfDisplay(d, "." + post);
    DateAfterYearParts(y, t, m, d);
  }

  lemma AfterMonth(m: string, u: string)
    ensures (m + ("." + (" " + u)))[|m| + 1..] == " " + u
  {
  }

  lemma DateAfterYearParts(y: string, t: string, m: string, d: string)
    requires |y| == 4 && AllDigits(y)
    requires MonthDigits(t) == m && m != ""
    requires DayDigits(TrimLeft(t[|m| + 1..])) == d && d != ""
    ensures DateAfterYear(y, t) == Some(FormatYmd(y, m, d))
  {
  }

  lemma TrimLeftSpaceDigit(u: string)
    requires u != [] && IsDigit(u[0])
    ensures TrimLeft(" " + u) == u
  {
    assert (" " + u)[1..] == u;
  }

  lemma MonthOfDisplay(m: string, rest: string)
    requires 1 <= |m| <= 2 && AllDigits(m)
    ensures MonthDigits(m + ("." + rest)) == m
  {
    var t := m + ("." + rest);
    assert t[|m|] == '.';
    if |m| == 2 {
      assert t[..2] == m;
    } else {
      assert t[..1] == m;
    }
  }

  lemma DayOfDisplay(d: string, rest: string)
    requires 1 <= |d| <= 2 && AllDigits(d)
    requires rest == [] || !IsDigit(rest[0])
    ensures DayDigits(d + rest) == d
  {
    var u := d + rest;
    if |d| == 2 {
      assert u[..2] == d;
    } else {
      assert u[..1] == d;
    }
  }

  predicate HasDigit(s: string)
  {
    exists i :: 0 <= i < |s| && IsDigit(s[i])
  }

  lemma {:induction false} PostDateSkip(pre: string, s: string)
    requires !HasDigit(pre)
    ensures PostDate(pre + s) == PostDate(s)
    decreases |pre|
  {
    if pre != [] {
      assert !IsDigit((pre + s)[0]);
      if |pre + s| >= 5 {
        assert (pre + s)[..4][0] == (pre + s)[0];
      }
      assert (pre + s)[1..] == pre[1..] + s;
      PostDateSkip(pre[1..], s);
    } else {
      assert pre + s == s;
    }
  }

  // ---------------------------------------------------------------------------
  // Python's int() on a string (base 10)

  /** Digits with single underscores between them, as `int()` accepts. */
  predicate UnderscoredDigits(b: string)
  {
    b != [] && IsDigit(b[0]) && IsDigit(b[|b| - 1]) &&
    (forall i :: 0 <= i < |b| ==> IsDigit(b[i]) || b[i] == '_') &&
    (forall i :: 0 <= i < |b| - 1 && b[i] == '_' ==> b[i + 1] != '_')
  }

  /** Python's `int(s)`: surrounding whitespace is ignored, one optional sign,
      then digits (single underscores allowed between them).  None stands for
      the ValueError raised on anything else. */
  function PyInt(s: string): (r: Option<int>)
    ensures r.Some? ==> var t := Strip(s); t != [] && (IsDigit(t[0]) || t[0] == '-' || t[0] == '+')
  {
    SignedValue(Strip(s))
  }

  function SignedValue(t: string): (r: Option<int>)
    ensures r.Some? ==> t != [] && (IsDigit(t[0]) || t[0] == '-' || t[0] == '+')
  {
    if t == [] then None
    else if t[0] == '-' then
      var v := UnsignedValue(t[1..]);
      if v.Some? then Some(-(v.value as int)) else None
    else if t[0] == '+' then
      var v := UnsignedValue(t[1..]);
      if v.Some? then Some(v.value as int) else None
    else
      var v := UnsignedValue(t);
      if v.Some? then Some(v.value as int) else None
  }

  /** The value of an unsigned numeral as `int()` reads it. */
  function UnsignedValue(b: string): (r: Option<nat>)
    ensures r.Some? ==> UnderscoredDigits(b)
  {
    if !UnderscoredDigits(b) then None
    else
      var digits := RemoveChar(b, '_');
      RemoveCharFacts(b, '_');
      assert AllDigits(digits) by {
        forall j | 0 <= j < |digits|
          ensures IsDigit(digits[j])
        {
          assert digits[j] in b;
        }
      }
      Some(DecValue(digits))
  }

  /** Python's `str(n)`. */
  function IntToString(n: int): string
  {
    if n < 0 then "-" + NatToString(-n) else NatToString(n)
  }

  /** `int(str(n)) == n`. */
  lemma PyIntRoundTrip(n: int)
    ensures PyInt(IntToString(n)) == Some(n)
  {
    IntToStringStrip(n);
    if n < 0 {
      SignedNegative(-n);
    } else {
      SignedNatural(n);
    }
  }

  lemma SignedNatural(k: nat)
    ensures SignedValue(NatToString(k)) == Some(k)
  {
    NatToStringUnderscored(k);
    assert UnsignedValue(NatToString(k)) == Some(k);
  }

  lemma SignedNegative(k: nat)
    ensures SignedValue("-" + NatToString(k)) == Some(-(k as int))
  {
    var ds := NatToString(k);
    NatToStringUnderscored(k);
    assert UnsignedValue(ds) == Some(k);
    assert ("-" + ds)[0] == '-' && ("-" + ds)[1..] == ds;
  }

  lemma NatToStringUnderscored(k: nat)
    ensures UnderscoredDigits(NatToString(k))
    ensures RemoveChar(NatToString(k), '_') == NatToString(k)
    ensures DecValue(RemoveChar(NatToString(k), '_')) == k
  {
    var ds := NatToString(k);
    assert forall j :: 0 <= j < |ds| ==> ds[j] != '_';
    RemoveCharAbsent(ds, '_');
    DecValueOfNatToString(k);
  }

  lemma IntToStringStrip(n: int)
    ensures Strip(IntToString(n)) == IntToString(n)
  {
    var s := IntToString(n);
    assert NoSpace(s) by {
      var ds := NatToString(if n < 0 then -n else n);
      assert forall j :: 0 <= j < |ds| ==> IsDigit(ds[j]);
      if n < 0 {
        assert forall j :: 1 <= j < |s| ==> s[j] == ds[j - 1];
      }
    }
    StripNoSpace(s);
  }
}
