/** The text helpers of `crawling/utils/common.py`; every other crawler script
    carries a character-for-character copy of `clean` and `sanitize_for_fname`. */
module Common {
  import opened Base
  import opened Lists

  // ---------------------------------------------------------------------------
  // clean: strip, then replace every run of whitespace by one space

  /** Replaces each maximal run of whitespace by a single ' ' (Python's `re.sub(r"\s+", " ", s)`):
      a whitespace character followed by another one is dropped, the last of a run becomes ' '. */
  function Collapse(s: string): string
    decreases |s|
  {
    if s == [] then []
    else if IsSpace(s[0]) then
      (if |s| > 1 && IsSpace(s[1]) then Collapse(s[1..]) else [' '] + Collapse(s[1..]))
    else [s[0]] + Collapse(s[1..])
  }

  /** Whitespace occurs only as single plain spaces. */
  predicate SingleSpaced(r: string)
  {
    (forall i :: 0 <= i < |r| && IsSpace(r[i]) ==> r[i] == ' ') &&
    (forall i :: 0 <= i < |r| - 1 && IsSpace(r[i]) ==> !IsSpace(r[i + 1]))
  }

  /** What `clean` promises: single spaces between words and none at either end. */
  predicate IsClean(r: string)
  {
    SingleSpaced(r) && (r == [] || (!IsSpace(r[0]) && !IsSpace(r[|r| - 1])))
  }

  /** Collapsing keeps the string empty or not, and maps its first and last characters. */
  lemma {:induction false} CollapseEnds(s: string)
    ensures Collapse(s) == [] <==> s == []
    ensures s != [] ==> Collapse(s)[0] == (if IsSpace(s[0]) then ' ' else s[0])
    ensures s != [] ==> Collapse(s)[|Collapse(s)| - 1] == (if IsSpace(s[|s| - 1]) then ' ' else s[|s| - 1])
    decreases |s|
  {
    if s != [] {
      CollapseEnds(s[1..]);
      if |s| > 1 {
        assert s[1..][0] == s[1];
        assert s[1..][|s[1..]| - 1] == s[|s| - 1];
      }
    }
  }

  /** The result of collapsing is single-spaced. */
  lemma {:induction false} CollapseSingle(s: string)
    ensures SingleSpaced(Collapse(s))
    decreases |s|
  {
    if s != [] {
      CollapseSingle(s[1..]);
      CollapseEnds(s[1..]);
      var c := Collapse(s[1..]);
      var r := Collapse(s);
      if r != c {
        assert r == [r[0]] + c;
        assert |s| > 1 ==> s[1..][0] == s[1];
        forall i | 0 <= i < |r| - 1 && IsSpace(r[i])
          ensures !IsSpace(r[i + 1])
        {
          if i > 0 {
            assert r[i] == c[i - 1] && r[i + 1] == c[i];
          }
        }
      }
    }
  }

  /** Collapsing keeps every non-whitespace character, in order. */
  lemma {:induction false} CollapseKeepsNonSpace(s: string)
    ensures RemoveSpaces(Collapse(s)) == RemoveSpaces(s)
    decreases |s|
  {
    if s != [] {
      CollapseKeepsNonSpace(s[1..]);
      var c := Collapse(s[1..]);
      var r := Collapse(s);
      if r != c {
        assert r == [r[0]] + c;
        assert r[1..] == c;
      }
    }
  }

  lemma CollapseFacts(s: string)
    ensures Collapse(s) == [] <==> s == []
    ensures s != [] ==> Collapse(s)[0] == (if IsSpace(s[0]) then ' ' else s[0])
    ensures s != [] ==> Collapse(s)[|Collapse(s)| - 1] == (if IsSpace(s[|s| - 1]) then ' ' else s[|s| - 1])
    ensures SingleSpaced(Collapse(s))
    ensures RemoveSpaces(Collapse(s)) == RemoveSpaces(s)
  {
    CollapseEnds(s);
    CollapseSingle(s);
    CollapseKeepsNonSpace(s);
  }

  lemma {:induction false} CollapseSingleSpaced(r: string)
    requires SingleSpaced(r)
    ensures Collapse(r) == r
    decreases |r|
  {
    if r != [] {
      assert SingleSpaced(r[1..]) by {
        forall i | 0 <= i < |r[1..]| - 1 && IsSpace(r[1..][i])
          ensures !IsSpace(r[1..][i + 1])
        {
          assert r[1..][i] == r[i + 1];
        }
      }
      CollapseSingleSpaced(r[1..]);
      assert [r[0]] + r[1..] == r;
    }
  }

  /** Collapsing whitespace runs keeps the words of `s.split()`. */
  lemma {:induction false} WordsCollapse(s: string)
    ensures Words(Collapse(s)) == Words(s)
    decreases |s|
  {
    if s != [] {
      var t := s[1..];
      assert s == [s[0]] + t;
      WordsCollapse(t);
      var c := Collapse(t);
      CollapseEnds(t);
      assert IsSpace(' ');
      if IsSpace(s[0]) {
        WordsSpaceCons(s[0], t);
        if !(|s| > 1 && IsSpace(s[1])) {
          WordsSpaceCons(' ', c);
        }
      } else {
        if t != [] {
          assert t[0] == s[1];
        }
        NonSpaceCons(s[0], t);
        NonSpaceCons(s[0], c);
      }
    }
  }

  /** The rest of a clean string after its first word and the space behind it. */
  lemma CleanRest(r: string, n: nat)
    requires IsClean(r) && n < |r| && IsSpace(r[n])
    ensures r[n] == ' ' && n + 1 < |r| && IsClean(r[n + 1..]) && !IsSpace(r[n + 1])
  {
    var t := r[n + 1..];
    assert forall i :: 0 <= i < |t| ==> t[i] == r[n + 1 + i];
  }

  /** A word with nothing after it. */
  lemma WordsOfWord(r: string)
    requires r != [] && NoSpace(r)
    ensures Words(r) == [r]
  {
    var w := TakeNonSpace(r);
    assert w == r;
    assert r[|w|..] == [];
  }

  /** A word, one space, and a clean rest starting with a word. */
  lemma WordsAfterFirst(r: string, n: nat)
    requires 0 < n < |r| && r[n] == ' ' && NoSpace(r[..n])
    ensures Words(r) == [r[..n]] + Words(r[n + 1..])
    ensures r == r[..n] + " " + r[n + 1..]
  {
    assert IsSpace(r[n]);
    TakeNonSpaceAt(r, n);
    assert r[..n][0] == r[0];
    var t := r[n + 1..];
    assert r[n..] == [' '] + t;
    WordsSpaceCons(' ', t);
  }

  /** Joining one more word in front. */
  lemma JoinCons(w: string, ws: seq<string>)
    requires ws != []
    ensures Join([w] + ws, " ") == w + " " + Join(ws, " ")
  {
    assert ([w] + ws)[1..] == ws;
  }

  /** A clean string is its words joined by single spaces. */
  lemma {:induction false} CleanIsJoinedWords(r: string)
    requires IsClean(r)
    ensures r == Join(Words(r), " ")
    decreases |r|
  {
    if r != [] {
      var n := |TakeNonSpace(r)|;
      if n == |r| {
        WordsOfWord(r);
      } else {
        CleanRest(r, n);
        var t := r[n + 1..];
        CleanIsJoinedWords(t);
        WordsEmpty(t);
        WordsAfterFirst(r, n);
        JoinCons(r[..n], Words(t));
      }
    }
  }

  /** `clean` keeps the words of `s.split()`, so the result is those words
      joined by single spaces. */
  lemma CleanWords(s: string)
    ensures Words(Clean(s)) == Words(s)
    ensures Clean(s) == Join(Words(s), " ")
  {
    WordsStrip(s);
    WordsCollapse(Strip(s));
    CleanIsJoinedWords(Clean(s));
  }

  /** `clean(s)`: Python's `re.sub(r"\s+", " ", s.strip())`, with `s or ""` at the call sites
      written as `OrEmpty`.  The result is clean and keeps every non-whitespace
      character of `s`, in order. */
  function Clean(s: string): (r: string)
    ensures IsClean(r)
    ensures RemoveSpaces(r) == RemoveSpaces(s)
  {
    var t := Strip(s);
    CollapseOfStripped(t);
    StripKeepsNonSpace(s);
    Collapse(t)
  }

  /** Collapsing a string without whitespace at either end gives a clean string. */
  lemma CollapseOfStripped(t: string)
    requires t == [] || (!IsSpace(t[0]) && !IsSpace(t[|t| - 1]))
    ensures IsClean(Collapse(t))
    ensures RemoveSpaces(Collapse(t)) == RemoveSpaces(t)
  {
    CollapseFacts(t);
  }

  /** A clean string is left alone. */
  lemma CleanOfClean(r: string)
    requires IsClean(r)
    ensures Clean(r) == r
  {
    if r != [] {
      assert TrimLeft(r) == r;
      assert TrimRight(r) == r;
    }
    CollapseSingleSpaced(r);
  }

  /** Cleaning twice is cleaning once. */
  lemma CleanIdempotent(s: string)
    ensures Clean(Clean(s)) == Clean(s)
  {
    CleanOfClean(Clean(s));
  }

  /** A blank string (only whitespace) cleans to "" and nothing else does. */
  lemma CleanBlank(s: string)
    ensures Clean(s) == "" <==> AllSpace(s)
  {
    RemoveSpacesEmpty(s);
    RemoveSpacesEmpty(Clean(s));
    if Clean(s) != "" {
      assert !IsSpace(Clean(s)[0]);
    }
  }

  // ---------------------------------------------------------------------------
  // sanitize_for_fname

  predicate IsHangulSyllable(c: char)
  {
    '\U{AC00}' <= c <= '\U{D7A3}'
  }

  /** A character kept by the character class `[\w\-\.가-힣]`.  `\w` is taken
      as ASCII letters, digits and '_' plus the Hangul syllables. */
  predicate IsFnameChar(c: char)
  {
    ('a' <= c <= 'z') || ('A' <= c <= 'Z') || IsDigit(c) || c == '_' || c == '-' || c == '.' || IsHangulSyllable(c)
  }

  /** Python's `s.replace(" ", "_")`. */
  function SpacesToUnderscores(s: string): (r: string)
    ensures |r| == |s|
    ensures forall i :: 0 <= i < |s| ==> r[i] == (if s[i] == ' ' then '_' else s[i])
  {
    seq(|s|, i requires 0 <= i < |s| => if s[i] == ' ' then '_' else s[i])
  }

  /** Python's `re.sub(r"[^\w\-\.가-힣]+", "", s)`: only filename characters remain. */
  function KeepFnameChars(s: string): (r: string)
    ensures forall i :: 0 <= i < |r| ==> IsFnameChar(r[i])
    decreases |s|
  {
    if s == [] then [] else (if IsFnameChar(s[0]) then [s[0]] else []) + KeepFnameChars(s[1..])
  }

  lemma {:induction false} KeepFnameCharsCount(s: string, c: char)
    ensures multiset(KeepFnameChars(s))[c] == if IsFnameChar(c) then multiset(s)[c] else 0
    decreases |s|
  {
    if s != [] {
      KeepFnameCharsCount(s[1..], c);
      assert s == [s[0]] + s[1..];
    }
  }

  /** Dropping the other characters keeps the filename characters in their
      order, repeats included. */
  lemma {:induction false} KeepFnameCharsInOrder(s: string)
    ensures KeepFnameChars(s) == Filter(s, IsFnameChar)
    decreases |s|
  {
    if s != [] {
      KeepFnameCharsInOrder(s[1..]);
      assert s == [s[0]] + s[1..];
      FilterCons(s[0], s[1..], IsFnameChar);
    }
  }

  lemma {:induction false} KeepFnameCharsAll(s: string)
    requires forall i :: 0 <= i < |s| ==> IsFnameChar(s[i])
    ensures KeepFnameChars(s) == s
    decreases |s|
  {
    if s != [] {
      KeepFnameCharsAll(s[1..]);
      assert [s[0]] + s[1..] == s;
    }
  }

  lemma {:induction false} SpacesToUnderscoresCount(s: string, c: char)
    ensures multiset(SpacesToUnderscores(s))[c] ==
      if c == ' ' then 0 else if c == '_' then multiset(s)['_'] + multiset(s)[' '] else multiset(s)[c]
    decreases |s|
  {
    if s != [] {
      SpacesToUnderscoresCount(s[1..], c);
      var r := SpacesToUnderscores(s);
      assert r[1..] == SpacesToUnderscores(s[1..]);
      CountCons(r, c);
      CountCons(s, c);
      CountCons(s, ' ');
      CountCons(s, '_');
    }
  }

  /** How often `c` occurs in a non-empty string, from its head and tail. */
  lemma CountCons(s: string, c: char)
    requires s != []
    ensures multiset(s)[c] == (if s[0] == c then 1 else 0) + multiset(s[1..])[c]
  {
    assert s == [s[0]] + s[1..];
  }

  /** Trimming leading whitespace removes whitespace only. */
  lemma TrimLeftCount(s: string, c: char)
    requires !IsSpace(c)
    ensures multiset(TrimLeft(s))[c] == multiset(s)[c]
  {
    var r := TrimLeft(s);
    var p := s[..|s| - |r|];
    assert s == p + r;
    assert multiset(s) == multiset(p) + multiset(r);
    assert c !in p;
    assert multiset(p)[c] == 0;
  }

  /** Trimming trailing whitespace removes whitespace only. */
  lemma {:induction false} TrimRightCount(s: string, c: char)
    requires !IsSpace(c)
    ensures multiset(TrimRight(s))[c] == multiset(s)[c]
    decreases |s|
  {
    if s != [] && IsSpace(s[|s| - 1]) {
      TrimRightCount(s[..|s| - 1], c);
      assert s == s[..|s| - 1] + [s[|s| - 1]];
    }
  }

  /** Stripping removes whitespace only. */
  lemma StripCount(s: string, c: char)
    requires !IsSpace(c)
    ensures multiset(Strip(s))[c] == multiset(s)[c]
  {
    TrimLeftCount(s, c);
    TrimRightCount(TrimLeft(s), c);
  }

  /** Each filename character other than '_' keeps its count through the
      three steps of sanitizing. */
  lemma SanitizeCount(s: string, c: char)
    requires IsFnameChar(c) && c != '_'
    ensures multiset(KeepFnameChars(SpacesToUnderscores(Strip(s))))[c] == multiset(s)[c]
  {
    var t := Strip(s);
    KeepFnameCharsCount(SpacesToUnderscores(t), c);
    SpacesToUnderscoresCount(t, c);
    StripCount(s, c);
  }

  /** `sanitize_for_fname(s)`: strip, spaces to underscores, drop every
      character outside `[\w\-\.가-힣]`.  The result holds filename characters
      only, keeps each of them that occurs in `s` (as often as it occurs), and
      turns every inner space into one more '_'. */
  function SanitizeForFname(s: string): (r: string)
    ensures forall i :: 0 <= i < |r| ==> IsFnameChar(r[i])
    ensures forall c :: IsFnameChar(c) && c != '_' ==> multiset(r)[c] == multiset(s)[c]
    ensures multiset(r)['_'] == multiset(Strip(s))['_'] + multiset(Strip(s))[' ']
  {
    var t := Strip(s);
    var u := SpacesToUnderscores(t);
    var r := KeepFnameChars(u);
    forall c | IsFnameChar(c) && c != '_'
      ensures multiset(r)[c] == multiset(s)[c]
    {
      SanitizeCount(s, c);
    }
    KeepFnameCharsCount(u, '_');
    SpacesToUnderscoresCount(t, '_');
    r
  }

  /** The sanitized name is what remains of the stripped, underscored input
      once every character outside `[\w\-\.가-힣]` is deleted: nothing is
      reordered. */
  lemma SanitizeInOrder(s: string)
    ensures SanitizeForFname(s) == Filter(SpacesToUnderscores(Strip(s)), IsFnameChar)
    ensures IsSubsequence(SanitizeForFname(s), SpacesToUnderscores(Strip(s)))
  {
    var u := SpacesToUnderscores(Strip(s));
    KeepFnameCharsInOrder(u);
    FilterSubsequence(u, IsFnameChar);
  }

  /** A name made of filename characters only is its own sanitized form. */
  lemma SanitizeOfFnameChars(r: string)
    requires forall i :: 0 <= i < |r| ==> IsFnameChar(r[i])
    ensures SanitizeForFname(r) == r
  {
    assert NoSpace(r);
    StripNoSpace(r);
    assert SpacesToUnderscores(r) == r;
    KeepFnameCharsAll(r);
  }

  /** Sanitizing a sanitized name changes nothing. */
  lemma SanitizeIdempotent(s: string)
    ensures SanitizeForFname(SanitizeForFname(s)) == SanitizeForFname(s)
  {
    SanitizeOfFnameChars(SanitizeForFname(s));
  }

  /** Only the ends are stripped: an inner space stays. */
  lemma StripExample()
    ensures Strip("성수동 명소") == "성수동 명소"
  {
    var s := "성수동 명소";
    assert !IsSpace(s[0]) && !IsSpace(s[|s| - 1]);
    StripOfTrimmed(s);
  }

  /** The filename slug of a neighbourhood keyword. */
  lemma SanitizeExample()
    ensures SanitizeForFname("성수동 명소") == "성수동_명소"
  {
    var s, t := "성수동 명소", "성수동_명소";
    StripExample();
    assert SpacesToUnderscores(s) == t;
    KeepFnameCharsAll(t);
  }

}
