/** Calendar days and the `strftime` formats the crawler writes them in:
    `%Y%m%d` in search URLs and file names, `%Y-%m-%d` in link rows, `%Y` in
    directory names.  The clock itself is not modelled: "today" is a parameter. */
module Calendar {
  import opened Base

  datatype Date = Date(year: nat, month: nat, day: nat)

  predicate IsLeap(y: nat)
  {
    y % 4 == 0 && (y % 100 != 0 || y % 400 == 0)
  }

  function DaysIn(y: nat, m: nat): (n: nat)
    requires 1 <= m <= 12
    ensures 28 <= n <= 31
  {
    if m == 2 then (if IsLeap(y) then 29 else 28)
    else if m == 4 || m == 6 || m == 9 || m == 11 then 30
    else 31
  }

  /** A day of the Gregorian calendar whose year `%Y` prints with four digits. */
  predicate Valid(d: Date)
  {
    1000 <= d.year <= 9999 && 1 <= d.month <= 12 && 1 <= d.day <= DaysIn(d.year, d.month)
  }

  const FIRST := Date(1000, 1, 1)
  const LAST := Date(9999, 12, 31)

  /** `day + timedelta(days=1)`. */
  function NextDay(d: Date): (r: Date)
    requires Valid(d) && d != LAST
    ensures Valid(r) && r != FIRST
  {
    if d.day < DaysIn(d.year, d.month) then Date(d.year, d.month, d.day + 1)
    else if d.month < 12 then Date(d.year, d.month + 1, 1)
    else Date(d.year + 1, 1, 1)
  }

  /** `day - timedelta(days=1)`. */
  function PrevDay(d: Date): (r: Date)
    requires Valid(d) && d != FIRST
    ensures Valid(r) && r != LAST
  {
    if d.day > 1 then Date(d.year, d.month, d.day - 1)
    else if d.month > 1 then Date(d.year, d.month - 1, DaysIn(d.year, d.month - 1))
    else Date(d.year - 1, 12, 31)
  }

  lemma PrevOfNext(d: Date)
    requires Valid(d) && d != LAST
    ensures PrevDay(NextDay(d)) == d
  {
  }

  lemma NextOfPrev(d: Date)
    requires Valid(d) && d != FIRST
    ensures NextDay(PrevDay(d)) == d
  {
  }

  /** The day a run covers: `target_day` when one is given, otherwise
      `today - timedelta(days=1)`, the day whose next day is today. */
  function TargetDay(given: Option<Date>, today: Date): (d: Date)
    requires Valid(today) && today != FIRST
    ensures given.Some? ==> d == given.value
    ensures given.None? ==> Valid(d) && d != LAST && NextDay(d) == today
  {
    if given.Some? then given.value
    else
      NextOfPrev(today);
      PrevDay(today)
  }

  /** `strftime("%Y")`. */
  function YearText(d: Date): (s: string)
    ensures |s| == 4 && AllDigits(s)
  {
    FixedDigits(d.year, 4)
  }

  /** `strftime("%Y%m%d")`. */
  function Ymd(d: Date): (s: string)
    ensures |s| == 8 && AllDigits(s)
  {
    FixedDigits(d.year, 4) + FixedDigits(d.month, 2) + FixedDigits(d.day, 2)
  }

  /** `strftime("%Y-%m-%d")`. */
  function IsoDay(d: Date): (s: string)
    ensures |s| == 10 && s[4] == '-' && s[7] == '-'
  {
    FixedDigits(d.year, 4) + "-" + FixedDigits(d.month, 2) + "-" + FixedDigits(d.day, 2)
  }

  /** Reads an eight-digit `%Y%m%d` day; None for anything else. */
  function ParseYmd(s: string): (r: Option<Date>)
    ensures r.Some? ==> Valid(r.value)
  {
    if |s| != 8 || !AllDigits(s) then None
    else
      var d := Date(DecValue(s[..4]), DecValue(s[4..6]), DecValue(s[6..]));
      if Valid(d) then Some(d) else None
  }

  lemma YmdParts(d: Date)
    ensures Ymd(d)[..4] == FixedDigits(d.year, 4)
    ensures Ymd(d)[4..6] == FixedDigits(d.month, 2)
    ensures Ymd(d)[6..] == FixedDigits(d.day, 2)
  {
  }

  /** Reading back a printed day gives the day. */
  lemma ParseYmdOfYmd(d: Date)
    requires Valid(d)
    ensures ParseYmd(Ymd(d)) == Some(d)
  {
    YmdParts(d);
    DecValueOfFixedDigits(d.year, 4);
    DecValueOfFixedDigits(d.month, 2);
    DecValueOfFixedDigits(d.day, 2);
  }

  /** Every string `ParseYmd` accepts is the printed form of the day it yields. */
  lemma YmdOfParseYmd(s: string)
    requires ParseYmd(s).Some?
    ensures Ymd(ParseYmd(s).value) == s
  {
    FixedDigitsOfDecValue(s[..4]);
    FixedDigitsOfDecValue(s[4..6]);
    FixedDigitsOfDecValue(s[6..]);
    assert s == s[..4] + s[4..6] + s[6..];
  }

  /** A leading dash is dropped. */
  lemma DashCons(t: string)
    ensures RemoveChar("-" + t, '-') == RemoveChar(t, '-')
  {
    assert ("-" + t)[0] == '-' && ("-" + t)[1..] == t;
  }

  /** Digits in front are kept as they are. */
  lemma DigitsPrefix(a: string, b: string, w: string)
    requires AllDigits(a) && RemoveChar(b, '-') == w
    ensures RemoveChar(a + b, '-') == a + w
  {
    RemoveCharConcat(a, b, '-');
    RemoveCharAbsent(a, '-');
  }

  /** Dropping the two dashes of `y-m-d` leaves `ymd`. */
  lemma RemoveDashes(y: string, m: string, dd: string)
    requires AllDigits(y) && AllDigits(m) && AllDigits(dd)
    ensures RemoveChar(y + ("-" + (m + ("-" + dd))), '-') == y + m + dd
  {
    DashCons(dd);
    RemoveCharAbsent(dd, '-');
    DigitsPrefix(m, "-" + dd, dd);
    DashCons(m + ("-" + dd));
    DigitsPrefix(y, "-" + (m + ("-" + dd)), m + dd);
  }

  /** The two day formats differ only by the dashes. */
  lemma IsoDayWithoutDashes(d: Date)
    ensures RemoveChar(IsoDay(d), '-') == Ymd(d)
  {
    var y, m, dd := FixedDigits(d.year, 4), FixedDigits(d.month, 2), FixedDigits(d.day, 2);
    assert IsoDay(d) == y + ("-" + (m + ("-" + dd)));
    RemoveDashes(y, m, dd);
  }

  lemma {:induction false} RemoveCharConcat(a: string, b: string, c: char)
    ensures RemoveChar(a + b, c) == RemoveChar(a, c) + RemoveChar(b, c)
    decreases |a|
  {
    if a == [] {
      assert a + b == b;
    } else {
      assert (a + b)[0] == a[0];
      assert (a + b)[1..] == a[1..] + b;
      RemoveCharConcat(a[1..], b, c);
    }
  }
}
