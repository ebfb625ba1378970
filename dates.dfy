/**
 * Calendar dates of the proleptic Gregorian calendar, as Python's `datetime.date`
 * holds them, and the text format "%d.%m.%Y" that the bot parses with `strptime`
 * and prints with `strftime`.
 */
module Dates {
  import opened Wrappers

  datatype Date = Date(year: int, month: int, day: int)

  predicate IsLeapYear(y: int) {
    y % 4 == 0 && (y % 100 != 0 || y % 400 == 0)
  }

  function DaysInMonth(y: int, m: int): (n: int)
    requires 1 <= m <= 12
    ensures 28 <= n <= 31
    ensures n == 29 <==> m == 2 && IsLeapYear(y)
    ensures n == 30 <==> m == 4 || m == 6 || m == 9 || m == 11
    ensures n == 31 <==> m == 1 || m == 3 || m == 5 || m == 7 || m == 8 || m == 10 || m == 12
  {
    if m == 2 then (if IsLeapYear(y) then 29 else 28)
    else if m == 4 || m == 6 || m == 9 || m == 11 then 30
    else 31
  }

  /** A date that `datetime.date` can hold: years 1 to 9999, an existing month and day. */
  predicate ValidDate(d: Date)
    ensures ValidDate(d) && d.month == 2 && d.day == 29 ==> IsLeapYear(d.year)
    ensures ValidDate(d) && d.day == 31 ==> d.month != 2 && d.month != 4 && d.month != 6 && d.month != 9 && d.month != 11
  {
    1 <= d.year <= 9999 && 1 <= d.month <= 12 && 1 <= d.day <= DaysInMonth(d.year, d.month)
  }

  /** `a` is strictly earlier than `b` (lexicographic on year, month, day). */
  predicate Before(a: Date, b: Date) {
    a.year < b.year || (a.year == b.year && MonthDayBefore(a, b))
  }

  /** Python's tuple comparison `(a.month, a.day) < (b.month, b.day)`. */
  predicate MonthDayBefore(a: Date, b: Date) {
    a.month < b.month || (a.month == b.month && a.day < b.day)
  }

  // ---------------------------------------------------------------------------
  // Decimal digits

  predicate IsDigit(c: char) {
    '0' <= c <= '9'
  }

  predicate AllDigits(s: string) {
    forall i :: 0 <= i < |s| ==> IsDigit(s[i])
  }

  function Pow10(k: nat): (p: nat)
    ensures p >= 1
  {
    if k == 0 then 1 else 10 * Pow10(k - 1)
  }

  /** The value of a string of decimal digits (Python's `int` on the matched group). */
  function Num(s: string): (n: nat)
    requires AllDigits(s)
    ensures n < Pow10(|s|)
  {
    if s == [] then 0
    else
      var p := s[..|s| - 1];
      assert AllDigits(p);
      var m := Num(p);
      assert m * 10 <= (Pow10(|p|) - 1) * 10;
      m * 10 + (s[|s| - 1] as int - '0' as int)
  }

  /** The last digit of a field is its units digit. */
  lemma NumOfDigits(s: string)
    requires |s| >= 1 && AllDigits(s)
    ensures Num(s) == Num(s[..|s| - 1]) * 10 + (s[|s| - 1] as int - '0' as int)
  {
  }

  function DigitChar(n: int): (c: char)
    requires 0 <= n <= 9
    ensures IsDigit(c) && c as int - '0' as int == n
  {
    ('0' as int + n) as char
  }

  /** `n` zero-padded to two digits (strftime's `%d` and `%m`). */
  function Pad2(n: int): (s: string)
    requires 0 <= n < 100
    ensures |s| == 2 && AllDigits(s) && Num(s) == n
  {
    var s := [DigitChar(n / 10), DigitChar(n % 10)];
    assert s[..1] == [DigitChar(n / 10)];
    assert s[..1][..0] == [];
    s
  }

  /** `n` zero-padded to four digits (strftime's `%Y`). */
  function Pad4(n: int): (s: string)
    requires 0 <= n < 10000
    ensures |s| == 4 && AllDigits(s) && Num(s) == n
  {
    var hi := Pad2(n / 100);
    var lo := Pad2(n % 100);
    var s := hi + lo;
    assert s[..3] == hi + lo[..1] && s[..3][..2] == hi;
    assert lo[..1][..0] == [];
    s
  }

  /** `date.strftime("%d.%m.%Y")`. */
  function Format(d: Date): (s: string)
    requires ValidDate(d)
    ensures |s| == 10
  {
    Pad2(d.day) + "." + Pad2(d.month) + "." + Pad4(d.year)
  }

  // ---------------------------------------------------------------------------
  // strptime(text, "%d.%m.%Y")

  /**
   * `strptime(s, "%d.%m.%Y")`: a day of one or two digits, a dot, a month of one
   * or two digits, a dot and exactly four year digits, with nothing after them;
   * the numbers must name an existing date. `None` stands for the ValueError.
   */
  function ParseDate(s: string): (r: Option<Date>)
    ensures r.Some? ==> ValidDate(r.value)
  {
    if |s| < 8 then None
    else
      var dayLen := if s[1] == '.' then 1 else 2;
      var monthLen := if s[dayLen + 2] == '.' then 1 else 2;
      var yearAt := dayLen + monthLen + 2;
      if s[dayLen] != '.' || s[yearAt - 1] != '.' || |s| != yearAt + 4 then None
      else
        var ds, ms, ys := s[..dayLen], s[dayLen + 1..yearAt - 1], s[yearAt..];
        if !AllDigits(ds) || !AllDigits(ms) || !AllDigits(ys) then None
        else
          var d := Date(Num(ys), Num(ms), Num(ds));
          if ValidDate(d) then Some(d) else None
  }

  /** The fields `strptime` reads: day and month of 1 or 2 digits, a year of exactly 4. */
  predicate DateFields(ds: string, ms: string, ys: string) {
    1 <= |ds| <= 2 && 1 <= |ms| <= 2 && |ys| == 4 && AllDigits(ds) && AllDigits(ms) && AllDigits(ys)
  }

  /** Completeness: every well-shaped text parses to the date its digits name, if that date exists. */
  lemma {:induction false} ParseDateOfFields(ds: string, ms: string, ys: string)
    requires DateFields(ds, ms, ys)
    ensures var d := Date(Num(ys), Num(ms), Num(ds));
            ParseDate(ds + "." + ms + "." + ys) == if ValidDate(d) then Some(d) else None
  {
    var s := ds + "." + ms + "." + ys;
    assert s[|ds|] == '.';
    assert |ds| == 1 ==> s[1] == '.';
    assert |ds| == 2 ==> IsDigit(s[1]);
    var at := |ds| + |ms| + 2;
    assert s[at - 1] == '.';
    assert |ms| == 1 ==> s[|ds| + 2] == '.';
    assert |ms| == 2 ==> s[|ds| + 2] == ms[1];
    assert s[..|ds|] == ds;
    assert s[|ds| + 1..at - 1] == ms by {
      assert forall k :: 0 <= k < |ms| ==> s[|ds| + 1 + k] == ms[k];
    }
    assert s[at..] == ys by {
      assert forall k :: 0 <= k < |ys| ==> s[at + k] == ys[k];
    }
  }

  /** Soundness: a text that parses splits into well-shaped fields naming the parsed date. */
  lemma {:induction false} ParseDateFields(s: string) returns (ds: string, ms: string, ys: string)
    requires ParseDate(s).Some?
    ensures DateFields(ds, ms, ys) && s == ds + "." + ms + "." + ys
    ensures ParseDate(s).value == Date(Num(ys), Num(ms), Num(ds))
  {
    var dayLen := if s[1] == '.' then 1 else 2;
    var monthLen := if s[dayLen + 2] == '.' then 1 else 2;
    var yearAt := dayLen + monthLen + 2;
    ds, ms, ys := s[..dayLen], s[dayLen + 1..yearAt - 1], s[yearAt..];
    assert |s| == yearAt + 4 && [s[dayLen]] == "." && [s[yearAt - 1]] == ".";
    Reassemble(s, dayLen, yearAt - 1);
  }

  /** A text is its prefix, the character at `a`, the middle, the character at `b` and its suffix. */
  lemma Reassemble(s: string, a: nat, b: nat)
    requires a < b < |s|
    ensures s == s[..a] + [s[a]] + s[a + 1..b] + [s[b]] + s[b + 1..]
  {
  }

  /** Round trip: `strptime(strftime(d))` gives back `d`. */
  lemma {:induction false} ParseFormat(d: Date)
    requires ValidDate(d)
    ensures ParseDate(Format(d)) == Some(d)
  {
    ParseDateOfFields(Pad2(d.day), Pad2(d.month), Pad4(d.year));
  }
}
