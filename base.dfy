/** Value types and string helpers shared by every part of the crawler model.

    Strings are `seq<char>` over Unicode scalar values, as Python 3 `str` is.
    Python's `None` becomes `Option.None`; a raised exception becomes `Err`
    carrying the exception's type name (what `type(e).__name__` reports). */
module Base {
  import opened Lists

  datatype Option<T> = None | Some(value: T)

  /** A computation that either yields a value or raises the named exception. */
  datatype Result<T> = Ok(value: T) | Err(fault: string)

  /** Python's `x or ""` for a value that may be None. */
  function OrEmpty(o: Option<string>): string
  {
    if o.Some? then o.value else ""
  }

  /** A count that cannot be negative, as a column that may hold any int. */
  function Widen(o: Option<nat>): (r: Option<int>)
    ensures r.None? <==> o.None?
    ensures o.Some? ==> r.value == o.value
  {
    if o.Some? then Some(o.value) else None
  }

  /** Python's `a or b` on values that are None or strings: `a` when it is a non-empty string. */
  function OrElse(a: Option<string>, b: Option<string>): (r: Option<string>)
    ensures r == a || r == b
    ensures a.Some? && a.value != "" ==> r == a
  {
    if a.Some? && a.value != "" then a else b
  }

  // ---------------------------------------------------------------------------
  // Character classes

  /** Python's whitespace: `str.isspace()`, which is also what `\s` matches in a
      `str` pattern and what `str.strip()` and `str.split()` remove. */
  predicate IsSpace(c: char)
  {
    ('\t' <= c <= '\r') || ('\U{1C}' <= c <= '\U{1F}') || c == ' ' || c == '\U{85}' || c == '\U{A0}'
    || c == '\U{1680}' || ('\U{2000}' <= c <= '\U{200A}') || c == '\U{2028}' || c == '\U{2029}'
    || c == '\U{202F}' || c == '\U{205F}' || c == '\U{3000}'
  }

  predicate IsDigit(c: char)
  {
    '0' <= c <= '9'
  }

  predicate AllDigits(s: string)
  {
    forall i :: 0 <= i < |s| ==> IsDigit(s[i])
  }

  predicate NoSpace(s: string)
  {
    forall i :: 0 <= i < |s| ==> !IsSpace(s[i])
  }

  predicate AllSpace(s: string)
  {
    forall i :: 0 <= i < |s| ==> IsSpace(s[i])
  }

  // ---------------------------------------------------------------------------
  // Prefixes, suffixes, substrings

  predicate StartsWith(s: string, p: string)
  {
    |p| <= |s| && s[..|p|] == p
  }

  /** A string that differs from `p` at a position of `p` does not start with `p`. */
  lemma DiffersAt(s: string, p: string, i: nat)
    requires i < |p| && i < |s| && s[i] != p[i]
    ensures !StartsWith(s, p)
  {
    if |p| <= |s| {
      assert s[..|p|][i] == s[i];
    }
  }

  predicate EndsWith(s: string, p: string)
  {
    |p| <= |s| && s[|s| - |p|..] == p
  }

  /** Python's `t in s` for strings. */
  predicate Contains(s: string, t: string)
    decreases |s|
  {
    StartsWith(s, t) || (s != [] && Contains(s[1..], t))
  }

  /** Python's `any(k in s for k in ks)`. */
  predicate ContainsAny(s: string, ks: seq<string>)
  {
    exists k :: 0 <= k < |ks| && Contains(s, ks[k])
  }

  lemma {:induction false} ContainsAt(s: string, t: string, i: nat)
    requires i + |t| <= |s| && s[i..i + |t|] == t
    ensures Contains(s, t)
    decreases i
  {
    if i > 0 {
      assert s[1..][i - 1..i - 1 + |t|] == t;
      ContainsAt(s[1..], t, i - 1);
    }
  }

  lemma {:induction false} ContainsWitness(s: string, t: string) returns (i: nat)
    requires Contains(s, t)
    ensures i + |t| <= |s| && s[i..i + |t|] == t
    decreases |s|
  {
    if StartsWith(s, t) {
      i := 0;
    } else {
      var j := ContainsWitness(s[1..], t);
      i := j + 1;
      assert s[i..i + |t|] == s[1..][j..j + |t|];
    }
  }

  /** Finding a longer needle finds every part of it. */
  lemma ContainsInner(s: string, t: string, k: nat, n: nat)
    requires Contains(s, t) && k + n <= |t|
    ensures Contains(s, t[k..k + n])
  {
    var i := ContainsWitness(s, t);
    var u, v := s[i + k..i + k + n], t[k..k + n];
    forall j | 0 <= j < n
      ensures u[j] == v[j]
    {
      assert u[j] == s[i..i + |t|][k + j];
    }
    assert u == v;
    ContainsAt(s, t[k..k + n], i + k);
  }

  lemma ContainsPrefix(s: string, t: string)
    requires StartsWith(s, t)
    ensures Contains(s, t)
  {
  }

  /** Containment in one part of a concatenation is containment in the whole. */
  lemma ContainsConcat(a: string, b: string, t: string)
    requires Contains(a, t) || Contains(b, t)
    ensures Contains(a + b, t)
  {
    if Contains(a, t) {
      var i := ContainsWitness(a, t);
      assert (a + b)[i..i + |t|] == a[i..i + |t|];
      ContainsAt(a + b, t, i);
    } else {
      var i := ContainsWitness(b, t);
      assert (a + b)[|a| + i..|a| + i + |t|] == b[i..i + |t|];
      ContainsAt(a + b, t, |a| + i);
    }
  }

  lemma {:induction false} NotContainsChar(s: string, c: char)
    requires forall i :: 0 <= i < |s| ==> s[i] != c
    ensures !Contains(s, [c])
    decreases |s|
  {
    if s != [] {
      assert s[..1][0] == s[0];
      NotContainsChar(s[1..], c);
    }
  }

  // ---------------------------------------------------------------------------
  // Stripping whitespace (Python's str.strip())

  function TrimLeft(s: string): (r: string)
    ensures |r| <= |s| && r == s[|s| - |r|..]
    ensures r == [] || !IsSpace(r[0])
    ensures AllSpace(s[..|s| - |r|])
    decreases |s|
  {
    if s != [] && IsSpace(s[0]) then TrimLeft(s[1..]) else s
  }

  function TrimRight(s: string): (r: string)
    ensures |r| <= |s| && r == s[..|r|]
    ensures r == [] || !IsSpace(r[|r| - 1])
    ensures AllSpace(s[|r|..])
    decreases |s|
  {
    if s != [] && IsSpace(s[|s| - 1]) then
      var r := TrimRight(s[..|s| - 1]);
      assert s[|r|..] == s[..|s| - 1][|r|..] + [s[|s| - 1]];
      r
    else s
  }

  /** Python's `s.strip()`: the longest infix without whitespace at either end. */
  function Strip(s: string): (r: string)
    ensures r == [] || (!IsSpace(r[0]) && !IsSpace(r[|r| - 1]))
  {
    TrimRight(TrimLeft(s))
  }

  lemma StripNoSpace(s: string)
    requires NoSpace(s)
    ensures Strip(s) == s
  {
  }

  /** A string with no whitespace at either end strips to itself. */
  lemma StripOfTrimmed(s: string)
    requires s != [] && !IsSpace(s[0]) && !IsSpace(s[|s| - 1])
    ensures Strip(s) == s
  {
    assert TrimLeft(s) == s;
  }

  /** Only whitespace-only strings strip to "". */
  lemma StripEmpty(s: string)
    ensures Strip(s) == [] <==> AllSpace(s)
  {
  }

  // ---------------------------------------------------------------------------
  // Removing characters

  /** Python's `re.sub(r"\s+", "", s)`: the characters of `s` that are not whitespace, in order. */
  function RemoveSpaces(s: string): (r: string)
    ensures |r| <= |s|
    ensures NoSpace(r)
    decreases |s|
  {
    if s == [] then [] else (if IsSpace(s[0]) then [] else [s[0]]) + RemoveSpaces(s[1..])
  }

  lemma {:induction false} RemoveSpacesConcat(a: string, b: string)
    ensures RemoveSpaces(a + b) == RemoveSpaces(a) + RemoveSpaces(b)
    decreases |a|
  {
    if a == [] {
      assert a + b == b;
    } else {
      var h := if IsSpace(a[0]) then [] else [a[0]];
      assert (a + b)[0] == a[0];
      assert (a + b)[1..] == a[1..] + b;
      RemoveSpacesConcat(a[1..], b);
      calc {
        RemoveSpaces(a + b);
        h + RemoveSpaces(a[1..] + b);
        h + (RemoveSpaces(a[1..]) + RemoveSpaces(b));
        (h + RemoveSpaces(a[1..])) + RemoveSpaces(b);
      }
    }
  }

  lemma {:induction false} RemoveSpacesOfNoSpace(s: string)
    requires NoSpace(s)
    ensures RemoveSpaces(s) == s
    decreases |s|
  {
    if s != [] {
      RemoveSpacesOfNoSpace(s[1..]);
    }
  }

  lemma {:induction false} RemoveSpacesOfAllSpace(s: string)
    requires AllSpace(s)
    ensures RemoveSpaces(s) == []
    decreases |s|
  {
    if s != [] {
      RemoveSpacesOfAllSpace(s[1..]);
    }
  }

  lemma {:induction false} RemoveSpacesEmpty(s: string)
    ensures RemoveSpaces(s) == [] <==> AllSpace(s)
    decreases |s|
  {
    if s != [] {
      RemoveSpacesEmpty(s[1..]);
    }
  }

  lemma TrimLeftKeepsNonSpace(s: string)
    ensures RemoveSpaces(TrimLeft(s)) == RemoveSpaces(s)
  {
    var l := TrimLeft(s);
    var p := s[..|s| - |l|];
    assert s == p + l;
    RemoveSpacesConcat(p, l);
    RemoveSpacesOfAllSpace(p);
  }

  lemma TrimRightKeepsNonSpace(s: string)
    ensures RemoveSpaces(TrimRight(s)) == RemoveSpaces(s)
  {
    var r := TrimRight(s);
    var q := s[|r|..];
    assert s == r + q;
    RemoveSpacesConcat(r, q);
    RemoveSpacesOfAllSpace(q);
  }

  /** Stripping loses no non-whitespace character. */
  lemma StripKeepsNonSpace(s: string)
    ensures RemoveSpaces(Strip(s)) == RemoveSpaces(s)
  {
    TrimLeftKeepsNonSpace(s);
    TrimRightKeepsNonSpace(TrimLeft(s));
  }

  /** Python's `s.replace(",", "")` and its like: drop every occurrence of `c`. */
  function RemoveChar(s: string, c: char): (r: string)
    ensures |r| <= |s|
    decreases |s|
  {
    if s == [] then [] else (if s[0] == c then [] else [s[0]]) + RemoveChar(s[1..], c)
  }

  /** `RemoveChar` drops every `c` and keeps every other character. */
  lemma {:induction false} RemoveCharFacts(s: string, c: char)
    ensures forall i :: 0 <= i < |RemoveChar(s, c)| ==> RemoveChar(s, c)[i] != c && RemoveChar(s, c)[i] in s
    ensures forall i :: 0 <= i < |s| && s[i] != c ==> s[i] in RemoveChar(s, c)
    decreases |s|
  {
    if s != [] {
      RemoveCharFacts(s[1..], c);
      var h := if s[0] == c then [] else [s[0]];
      var r := RemoveChar(s, c);
      assert r == h + RemoveChar(s[1..], c);
      forall i | 0 <= i < |r|
        ensures r[i] != c && r[i] in s
      {
        if i >= |h| {
          assert r[i] == RemoveChar(s[1..], c)[i - |h|];
        }
      }
      forall i | 0 <= i < |s| && s[i] != c
        ensures s[i] in r
      {
        if i > 0 {
          assert s[i] == s[1..][i - 1];
        }
      }
    }
  }

  lemma {:induction false} RemoveCharAbsent(s: string, c: char)
    requires forall i :: 0 <= i < |s| ==> s[i] != c
    ensures RemoveChar(s, c) == s
    decreases |s|
  {
    if s != [] {
      RemoveCharAbsent(s[1..], c);
    }
  }

  // ---------------------------------------------------------------------------
  // Splitting and joining on one character

  /** Python's `s.split(sep)` for a one-character separator: always at least one part. */
  function Split(s: string, sep: char): (parts: seq<string>)
    ensures |parts| >= 1
    ensures forall k :: 0 <= k < |parts| ==> forall i :: 0 <= i < |parts[k]| ==> parts[k][i] != sep
    decreases |s|
  {
    if s == [] then [""]
    else
      var rest := Split(s[1..], sep);
      if s[0] == sep then [""] + rest else [[s[0]] + rest[0]] + rest[1..]
  }

  /** Python's `sep.join(parts)`. */
  function Join(parts: seq<string>, sep: string): string
    decreases |parts|
  {
    if parts == [] then ""
    else if |parts| == 1 then parts[0]
    else parts[0] + sep + Join(parts[1..], sep)
  }

  /** Joining the parts of a split gives the string back. */
  lemma {:induction false} JoinSplit(s: string, sep: char)
    ensures Join(Split(s, sep), [sep]) == s
    decreases |s|
  {
    if s != [] {
      var rest := Split(s[1..], sep);
      JoinSplit(s[1..], sep);
      if s[0] == sep {
        assert Split(s, sep) == [""] + rest;
      } else {
        assert Split(s, sep) == [[s[0]] + rest[0]] + rest[1..];
        if |rest| == 1 {
        } else {
          assert Join(rest, [sep]) == rest[0] + [sep] + Join(rest[1..], [sep]);
        }
      }
    }
  }

  lemma {:induction false} SplitNoSep(s: string, sep: char)
    requires forall i :: 0 <= i < |s| ==> s[i] != sep
    ensures Split(s, sep) == [s]
    decreases |s|
  {
    if s != [] {
      SplitNoSep(s[1..], sep);
      assert [s[0]] + s[1..] == s;
    }
  }

  lemma {:induction false} SplitConcatSep(a: string, b: string, sep: char)
    requires forall i :: 0 <= i < |a| ==> a[i] != sep
    ensures Split(a + [sep] + b, sep) == [a] + Split(b, sep)
    decreases |a|
  {
    if a == [] {
      assert a + [sep] + b == [sep] + b;
      assert ([sep] + b)[1..] == b;
    } else {
      assert (a + [sep] + b)[1..] == a[1..] + [sep] + b;
      SplitConcatSep(a[1..], b, sep);
      assert [a[0]] + a[1..] == a;
    }
  }

  /** Splitting a join of separator-free parts gives the parts back. */
  lemma {:induction false} SplitJoin(parts: seq<string>, sep: char)
    requires |parts| >= 1
    requires forall k :: 0 <= k < |parts| ==> forall i :: 0 <= i < |parts[k]| ==> parts[k][i] != sep
    ensures Split(Join(parts, [sep]), sep) == parts
    decreases |parts|
  {
    if |parts| == 1 {
      SplitNoSep(parts[0], sep);
    } else {
      SplitJoin(parts[1..], sep);
      SplitConcatSep(parts[0], Join(parts[1..], [sep]), sep);
      assert [parts[0]] + parts[1..] == parts;
    }
  }

  /** Python's `[x for x in parts if x]`. */
  function NonEmptyParts(parts: seq<string>): (r: seq<string>)
    ensures |r| <= |parts|
    ensures forall k :: 0 <= k < |r| ==> r[k] != "" && r[k] in parts
    decreases |parts|
  {
    if parts == [] then [] else (if parts[0] == "" then [] else [parts[0]]) + NonEmptyParts(parts[1..])
  }

  /** A path segment that is kept by `if x`. */
  predicate NonEmpty(x: string)
  {
    x != ""
  }

  /** The non-empty parts are the parts with the empty ones deleted, in
      order and with repeats. */
  lemma {:induction false} NonEmptyPartsInOrder(parts: seq<string>)
    ensures NonEmptyParts(parts) == Filter(parts, NonEmpty)
    decreases |parts|
  {
    if parts != [] {
      NonEmptyPartsInOrder(parts[1..]);
      assert parts == [parts[0]] + parts[1..];
      FilterCons(parts[0], parts[1..], NonEmpty);
    }
  }

  /** Python's `s.split()` with no argument: the maximal runs of non-whitespace. */
  function Words(s: string): (ws: seq<string>)
    ensures forall k :: 0 <= k < |ws| ==> ws[k] != "" && NoSpace(ws[k])
    decreases |s|
  {
    if s == [] then []
    else if IsSpace(s[0]) then Words(s[1..])
    else
      var w := TakeNonSpace(s);
      var rest := Words(s[|w|..]);
      WordsCons(w, rest);
      [w] + rest
  }

  lemma WordsCons(w: string, rest: seq<string>)
    requires w != "" && NoSpace(w)
    requires forall k :: 0 <= k < |rest| ==> rest[k] != "" && NoSpace(rest[k])
    ensures forall k :: 0 <= k < |[w] + rest| ==> ([w] + rest)[k] != "" && NoSpace(([w] + rest)[k])
  {
    forall k | 0 <= k < |[w] + rest|
      ensures ([w] + rest)[k] != "" && NoSpace(([w] + rest)[k])
    {
      if k > 0 {
        assert ([w] + rest)[k] == rest[k - 1];
      }
    }
  }

  function TakeNonSpace(s: string): (w: string)
    ensures |w| <= |s| && w == s[..|w|] && NoSpace(w)
    ensures |w| < |s| ==> IsSpace(s[|w|])
    ensures s != [] && !IsSpace(s[0]) ==> w != []
    decreases |s|
  {
    if s == [] || IsSpace(s[0]) then [] else [s[0]] + TakeNonSpace(s[1..])
  }

  /** A whitespace character in front separates nothing: the words stay. */
  lemma WordsSpaceCons(c: char, t: string)
    requires IsSpace(c)
    ensures Words([c] + t) == Words(t)
  {
    assert ([c] + t)[1..] == t;
  }

  /** A non-whitespace character in front starts a new first word when `t`
      starts with whitespace or is empty, and joins `t`'s first word otherwise. */
  lemma NonSpaceCons(c: char, t: string)
    requires !IsSpace(c)
    ensures t == [] || IsSpace(t[0]) ==> Words([c] + t) == [[c]] + Words(t)
    ensures t != [] && !IsSpace(t[0]) ==>
      Words(t) != [] && Words([c] + t) == [[c] + Words(t)[0]] + Words(t)[1..]
  {
    var s := [c] + t;
    assert s[1..] == t;
    var w, v := TakeNonSpace(s), TakeNonSpace(t);
    assert w == [c] + v;
    assert s[|w|..] == t[|v|..];
  }

  /** Whitespace at the end separates nothing: the words stay. */
  lemma {:induction false} WordsSpaceSnoc(t: string, c: char)
    requires IsSpace(c)
    ensures Words(t + [c]) == Words(t)
    decreases |t|
  {
    if t == [] {
      WordsSpaceCons(c, []);
      assert [c] + [] == [c];
    } else {
      var a, u := t[0], t[1..];
      assert t == [a] + u;
      assert t + [c] == [a] + (u + [c]);
      WordsSpaceSnoc(u, c);
      if IsSpace(a) {
        WordsSpaceCons(a, u + [c]);
        WordsSpaceCons(a, u);
      } else {
        NonSpaceCons(a, u + [c]);
        NonSpaceCons(a, u);
        if u == [] {
          WordsSpaceCons(c, []);
          assert u + [c] == [c] + [];
        } else {
          assert (u + [c])[0] == u[0];
        }
      }
    }
  }

  /** Trimming leading whitespace keeps the words. */
  lemma {:induction false} WordsTrimLeft(s: string)
    ensures Words(TrimLeft(s)) == Words(s)
    decreases |s|
  {
    if s != [] && IsSpace(s[0]) {
      WordsTrimLeft(s[1..]);
      WordsSpaceCons(s[0], s[1..]);
      assert s == [s[0]] + s[1..];
    }
  }

  /** Trimming trailing whitespace keeps the words. */
  lemma {:induction false} WordsTrimRight(s: string)
    ensures Words(TrimRight(s)) == Words(s)
    decreases |s|
  {
    if s != [] && IsSpace(s[|s| - 1]) {
      var n := |s| - 1;
      WordsTrimRight(s[..n]);
      WordsSpaceSnoc(s[..n], s[n]);
      assert s == s[..n] + [s[n]];
    }
  }

  /** `str.strip()` keeps the words of `str.split()`. */
  lemma WordsStrip(s: string)
    ensures Words(Strip(s)) == Words(s)
  {
    WordsTrimLeft(s);
    WordsTrimRight(TrimLeft(s));
  }

  /** The first word runs up to the first whitespace character. */
  lemma {:induction false} TakeNonSpaceAt(r: string, n: nat)
    requires n < |r| && IsSpace(r[n]) && NoSpace(r[..n])
    ensures TakeNonSpace(r) == r[..n]
    decreases n
  {
    if n > 0 {
      assert r[..n][0] == r[0];
      var t := r[1..];
      assert t[n - 1] == r[n];
      var u, v := t[..n - 1], r[..n];
      forall i | 0 <= i < |u|
        ensures !IsSpace(u[i])
      {
        assert u[i] == v[i + 1];
      }
      TakeNonSpaceAt(t, n - 1);
      assert r[..n] == [r[0]] + t[..n - 1];
    }
  }

  /** `s.split()` is empty exactly for a blank string. */
  lemma {:induction false} WordsEmpty(s: string)
    ensures Words(s) == [] <==> AllSpace(s)
    decreases |s|
  {
    if s != [] && IsSpace(s[0]) {
      WordsEmpty(s[1..]);
      assert AllSpace(s) <==> AllSpace(s[1..]) by {
        assert forall i :: 0 <= i < |s[1..]| ==> s[1..][i] == s[i + 1];
      }
    }
  }

  // ---------------------------------------------------------------------------
  // Decimal numerals (ASCII digits)

  function DigitValue(c: char): nat
    requires IsDigit(c)
  {
    (c as int) - ('0' as int)
  }

  function DigitChar(d: nat): (c: char)
    requires d < 10
    ensures IsDigit(c) && DigitValue(c) == d
  {
    (('0' as int) + d) as char
  }

  /** The value of a run of ASCII digits, most significant first. */
  function DecValue(ds: string): nat
    requires AllDigits(ds)
    decreases |ds|
  {
    if ds == [] then 0 else DecValue(ds[..|ds| - 1]) * 10 + DigitValue(ds[|ds| - 1])
  }

  /** The decimal numeral of `n`, without leading zeros (Python's `str(n)`). */
  function NatToString(n: nat): (s: string)
    ensures s != [] && AllDigits(s)
    decreases n
  {
    if n < 10 then [DigitChar(n)] else NatToString(n / 10) + [DigitChar(n % 10)]
  }

  lemma {:induction false} DecValueOfNatToString(n: nat)
    ensures DecValue(NatToString(n)) == n
    decreases n
  {
    if n >= 10 {
      DecValueOfNatToString(n / 10);
      var s := NatToString(n);
      assert s[..|s| - 1] == NatToString(n / 10);
    }
  }

  /** Leading zeros do not change the value of a numeral. */
  lemma {:induction false} DecValueLeadingZero(ds: string)
    requires AllDigits(ds)
    ensures AllDigits("0" + ds) && DecValue("0" + ds) == DecValue(ds)
    decreases |ds|
  {
    if ds != [] {
      var z := "0" + ds;
      assert z[..|z| - 1] == "0" + ds[..|ds| - 1];
      DecValueLeadingZero(ds[..|ds| - 1]);
    }
  }

  function Pow10(k: nat): (p: nat)
    ensures p >= 1
  {
    if k == 0 then 1 else 10 * Pow10(k - 1)
  }

  lemma {:induction false} DecValueBound(ds: string)
    requires AllDigits(ds)
    ensures DecValue(ds) < Pow10(|ds|)
    decreases |ds|
  {
    if ds != [] {
      DecValueBound(ds[..|ds| - 1]);
    }
  }

  lemma {:induction false} NatToStringLength(n: nat, k: nat)
    requires 0 < k && n < Pow10(k)
    ensures |NatToString(n)| <= k
    decreases k
  {
    if n >= 10 {
      NatToStringLength(n / 10, k - 1);
    }
  }

  /** The last `width` decimal digits of `n`, zeros in front: Python's
      `f"{n:0{width}d}"` for `n < 10 ** width`. */
  function FixedDigits(n: nat, width: nat): (s: string)
    ensures |s| == width && AllDigits(s)
    decreases width
  {
    if width == 0 then "" else FixedDigits(n / 10, width - 1) + [DigitChar(n % 10)]
  }

  /** Reading back a fixed-width numeral gives the number. */
  lemma {:induction false} DecValueOfFixedDigits(n: nat, width: nat)
    requires n < Pow10(width)
    ensures DecValue(FixedDigits(n, width)) == n
    decreases width
  {
    if width > 0 {
      DecValueOfFixedDigits(n / 10, width - 1);
      var s := FixedDigits(n, width);
      assert s[..|s| - 1] == FixedDigits(n / 10, width - 1);
    }
  }

  /** Writing back a numeral's value at the numeral's width gives the numeral. */
  lemma {:induction false} FixedDigitsOfDecValue(ds: string)
    requires AllDigits(ds)
    ensures FixedDigits(DecValue(ds), |ds|) == ds
    decreases |ds|
  {
    if ds != [] {
      var p := ds[..|ds| - 1];
      FixedDigitsOfDecValue(p);
      var c := ds[|ds| - 1];
      assert DecValue(ds) / 10 == DecValue(p) && DecValue(ds) % 10 == DigitValue(c);
      assert DigitChar(DigitValue(c)) == c;
      assert p + [c] == ds;
    }
  }

  // ---------------------------------------------------------------------------
  // Paths

  /** POSIX `os.path.join(dir, name)`: an absolute `name` replaces `dir`;
      otherwise `name` becomes the last component under `dir`. */
  function PathJoin(dir: string, name: string): (r: string)
    ensures EndsWith(r, name)
    ensures StartsWith(name, "/") ==> r == name
    ensures !StartsWith(name, "/") ==> StartsWith(r, dir) && |r| <= |dir| + 1 + |name|
    ensures !StartsWith(name, "/") && dir != "" ==> |r| > |name| && r[|r| - |name| - 1] == '/'
  {
    if StartsWith(name, "/") then name
    else if dir == "" || EndsWith(dir, "/") then dir + name
    else dir + "/" + name
  }

  /** A relative name under a directory that does not end in '/'. */
  lemma PathJoinUnder(dir: string, name: string)
    requires dir != "" && dir[|dir| - 1] != '/'
    requires name != "" && name[0] != '/'
    ensures PathJoin(dir, name) == dir + "/" + name
  {
    assert !StartsWith(name, "/") && !EndsWith(dir, "/");
  }

  /** A dated file name under a directory that does not end in '/'. */
  lemma JoinDated(dir: string, prefix: string, slug: string, stamp: string)
    requires dir != "" && dir[|dir| - 1] != '/'
    requires prefix != "" && prefix[0] != '/'
    ensures PathJoin(dir, DatedName(prefix, slug, stamp)) == dir + "/" + prefix + slug + "_" + stamp + ".csv"
  {
    var name := DatedName(prefix, slug, stamp);
    assert name[0] == name[..|prefix|][0] == prefix[0];
    PathJoinUnder(dir, name);
  }

  /** `f"{prefix}{slug}_{stamp}.csv"`, the dated file names of both stages;
      the slug and the stamp can be read back from their positions. */
  function DatedName(prefix: string, slug: string, stamp: string): (f: string)
    ensures |f| == |prefix| + |slug| + |stamp| + 5
    ensures StartsWith(f, prefix) && EndsWith(f, ".csv")
    ensures f[|prefix|..|prefix| + |slug|] == slug && f[|prefix| + |slug|] == '_'
    ensures f[|f| - 4 - |stamp|..|f| - 4] == stamp
  {
    var tail := "_" + stamp + ".csv";
    assert tail[1..1 + |stamp|] == stamp && tail[1 + |stamp|..] == ".csv";
    var f := prefix + (slug + tail);
    assert f[..|prefix|] == prefix && f[|prefix|..] == slug + tail;
    assert (slug + tail)[..|slug|] == slug && (slug + tail)[|slug|..] == tail;
    f
  }
}
