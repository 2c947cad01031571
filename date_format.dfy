/**
 * `formatDate` of the bulk import: recognises `D/M/YYYY` and `D-M-YYYY`
 * (day first), otherwise hands the text to the platform's date parser, and
 * returns the date part of the ISO timestamp, or its input unchanged when the
 * resulting date is invalid.
 *
 * The JavaScript `Date` object is platform-, locale- and timezone-dependent,
 * so its three uses are parameters of the model (a `DatePlatform`); nothing
 * here claims calendar validation.
 */
module DateFormat {
  import opened Text

  /** A JavaScript time value: NaN for an invalid date, else milliseconds since the epoch. */
  datatype TimeValue = NaN | Time(ms: int)

  /** The parts of the `Date` API the formatter uses, left uninterpreted. */
  datatype DatePlatform = DatePlatform(
    construct: (int, int, int) -> TimeValue,  // new Date(year, monthIndex, day)
    parse: string -> TimeValue,               // new Date(text)
    isoString: int -> string)                 // toISOString() of a valid time value

  predicate IsDigit(c: char) {
    '0' <= c <= '9'
  }

  predicate AllDigits(s: string) {
    forall i :: 0 <= i < |s| ==> IsDigit(s[i])
  }

  function Pow10(n: nat): (p: nat)
    ensures p >= 1
  {
    if n == 0 then 1 else 10 * Pow10(n - 1)
  }

  /** `Number(s)` for a string of decimal digits; fewer than `|s|` digits suffice for it. */
  function DigitsValue(s: string): (n: nat)
    requires AllDigits(s)
    ensures n < Pow10(|s|)
    decreases |s|
  {
    if s == [] then 0
    else
      var init := s[..|s| - 1];
      assert AllDigits(init);
      10 * DigitsValue(init) + (s[|s| - 1] as int - '0' as int)
  }

  /** Leading zeros do not change the number: `Number("05") == Number("5")`. */
  lemma {:induction false} LeadingZero(s: string)
    requires AllDigits(s)
    ensures AllDigits(['0'] + s) && DigitsValue(['0'] + s) == DigitsValue(s)
    decreases |s|
  {
    var z := ['0'] + s;
    if s != [] {
      assert z[..|z| - 1] == ['0'] + s[..|s| - 1];
      LeadingZero(s[..|s| - 1]);
    }
  }

  /** The anchored pattern `\d{a}<sep>\d{b}<sep>\d{4}` for fixed widths `a` and `b`. */
  predicate ShapeWith(s: string, sep: char, a: nat, b: nat) {
    && |s| == a + b + 6
    && AllDigits(s[..a]) && s[a] == sep
    && AllDigits(s[a + 1..a + 1 + b]) && s[a + 1 + b] == sep
    && AllDigits(s[a + 2 + b..])
  }

  /** The regular expression `^\d{1,2}<sep>\d{1,2}<sep>\d{4}$`. */
  predicate DateShape(s: string, sep: char) {
    ShapeWith(s, sep, 1, 1) || ShapeWith(s, sep, 1, 2) || ShapeWith(s, sep, 2, 1) || ShapeWith(s, sep, 2, 2)
  }

  /** The three digit groups a date-shaped text is made of. */
  predicate DateFields(d: string, m: string, y: string) {
    && 1 <= |d| <= 2 && AllDigits(d)
    && 1 <= |m| <= 2 && AllDigits(m)
    && |y| == 4 && AllDigits(y)
  }

  lemma NoSepInDigits(s: string, sep: char)
    requires AllDigits(s) && !IsDigit(sep)
    ensures sep !in s
  {
  }

  /** Any three digit groups joined by a non-digit separator have the date
      shape, and splitting at that separator gives them back, day first. */
  lemma {:induction false} ShapeOfFields(d: string, m: string, y: string, sep: char)
    requires DateFields(d, m, y) && !IsDigit(sep)
    ensures DateShape(d + [sep] + m + [sep] + y, sep)
    ensures Split(d + [sep] + m + [sep] + y, sep) == [d, m, y]
  {
    HasShapeWith(d, m, y, sep);
    NoSepInDigits(d, sep);
    NoSepInDigits(m, sep);
    NoSepInDigits(y, sep);
    JoinThree(d, m, y, sep);
    SplitJoin([d, m, y], sep);
  }

  lemma HasShapeWith(d: string, m: string, y: string, sep: char)
    ensures ShapeWith(d + [sep] + m + [sep] + y, sep, |d|, |m|) <==> AllDigits(d) && AllDigits(m) && AllDigits(y) && |y| == 4
  {
    var s := d + [sep] + m + [sep] + y;
    assert s[..|d|] == d;
    assert s[|d| + 1..|d| + 1 + |m|] == m;
    assert s[|d| + 2 + |m|..] == y;
  }

  /** Conversely, a date-shaped text is three such groups joined by the separator. */
  lemma {:induction false} FieldsOfShape(s: string, sep: char)
    requires DateShape(s, sep) && !IsDigit(sep)
    ensures var p := Split(s, sep); |p| == 3 && DateFields(p[0], p[1], p[2]) && s == p[0] + [sep] + p[1] + [sep] + p[2]
  {
    var a: nat := if ShapeWith(s, sep, 1, 1) || ShapeWith(s, sep, 1, 2) then 1 else 2;
    var b: nat := if ShapeWith(s, sep, a, 1) then 1 else 2;
    assert ShapeWith(s, sep, a, b);
    var d, m, y := s[..a], s[a + 1..a + 1 + b], s[a + 2 + b..];
    assert s == d + [sep] + m + [sep] + y;
    ShapeOfFields(d, m, y, sep);
  }

  /** `new Date(year, month - 1, day)` from the fields of `D<sep>M<sep>YYYY`. */
  function FromFields(lib: DatePlatform, s: string, sep: char): (t: TimeValue)
    requires DateShape(s, sep) && !IsDigit(sep)
  {
    FieldsOfShape(s, sep);
    var p := Split(s, sep);
    var day, month, year := DigitsValue(p[0]), DigitsValue(p[1]), DigitsValue(p[2]);
    lib.construct(year, month - 1, day)
  }

  /** The date the formatter builds from its input. */
  function BuildDate(lib: DatePlatform, s: string): (t: TimeValue) {
    if DateShape(s, '/') then FromFields(lib, s, '/')
    else if DateShape(s, '-') then FromFields(lib, s, '-')
    else lib.parse(s)
  }

  /** The input itself for an invalid date, else `toISOString().split('T')[0]`:
      the ISO text up to, and without, its first 'T'. */
  function Render(lib: DatePlatform, t: TimeValue, input: string): (r: string)
    ensures t.NaN? ==> r == input
    ensures t.Time? ==> var iso := lib.isoString(t.ms);
                        && 'T' !in r && |r| <= |iso| && iso[..|r|] == r
                        && ('T' in iso ==> |r| < |iso| && iso[|r|] == 'T')
                        && ('T' !in iso ==> r == iso)
  {
    match t
    case NaN => input
    case Time(ms) =>
      SplitFirst(lib.isoString(ms), 'T');
      Split(lib.isoString(ms), 'T')[0]
  }

  /** `formatDate(dateStr)`: total (it never throws); the input unchanged for
      an invalid date, otherwise text without a 'T' (the date part of the ISO
      timestamp). */
  function FormatDate(lib: DatePlatform, s: string): (r: string)
    ensures BuildDate(lib, s).NaN? ==> r == s
    ensures !BuildDate(lib, s).NaN? ==> 'T' !in r
  {
    Render(lib, BuildDate(lib, s), s)
  }

  /** Both numeric patterns are read day first: `D/M/YYYY` and `D-M-YYYY`
      become `new Date(YYYY, M - 1, D)`. */
  lemma {:induction false} FormatDateDayFirst(lib: DatePlatform, d: string, m: string, y: string, sep: char)
    requires sep == '/' || sep == '-'
    requires DateFields(d, m, y)
    ensures var s := d + [sep] + m + [sep] + y;
            && BuildDate(lib, s) == lib.construct(DigitsValue(y), DigitsValue(m) - 1, DigitsValue(d))
            && FormatDate(lib, s) == Render(lib, lib.construct(DigitsValue(y), DigitsValue(m) - 1, DigitsValue(d)), s)
  {
    var s := d + [sep] + m + [sep] + y;
    ShapeOfFields(d, m, y, sep);
    if sep == '-' {
      NoSepInDigits(d, '/');
      NoSepInDigits(m, '/');
      NoSepInDigits(y, '/');
      AbsentSeparatorNoShape(s, '/');
    }
  }

  /** Without its separator a text cannot have the date shape. */
  lemma AbsentSeparatorNoShape(s: string, sep: char)
    requires sep !in s
    ensures !DateShape(s, sep)
  {
    if |s| > 2 {
      assert s[1] in s && s[2] in s;
    }
  }

  /** The constructor receives a day and a month of at most two digits and a
      year of four: day and month below 100, year below 10000. */
  lemma DayFirstArgumentsBounded(d: string, m: string, y: string)
    requires DateFields(d, m, y)
    ensures DigitsValue(d) < 100 && DigitsValue(m) < 100 && DigitsValue(y) < 10000
  {
  }

  /** Zero-padded and unpadded day and month build the same date:
      `05/03/2020` and `5/3/2020` are the same day, and format alike when valid. */
  lemma ZeroPaddingSameDate(lib: DatePlatform, d: string, m: string, y: string, sep: char)
    requires sep == '/' || sep == '-'
    requires DateFields(d, m, y) && |d| == 1 && |m| == 1
    ensures var plain, padded := d + [sep] + m + [sep] + y, ['0'] + d + [sep] + ['0'] + m + [sep] + y;
            && BuildDate(lib, padded) == BuildDate(lib, plain)
            && (!BuildDate(lib, plain).NaN? ==> FormatDate(lib, padded) == FormatDate(lib, plain))
  {
    var d2, m2 := ['0'] + d, ['0'] + m;
    LeadingZero(d);
    LeadingZero(m);
    assert DateFields(d2, m2, y);
    FormatDateDayFirst(lib, d, m, y, sep);
    FormatDateDayFirst(lib, d2, m2, y, sep);
    var t := lib.construct(DigitsValue(y), DigitsValue(m) - 1, DigitsValue(d));
    assert ['0'] + d + [sep] + ['0'] + m + [sep] + y == d2 + [sep] + m2 + [sep] + y;
    assert !t.NaN? ==> Render(lib, t, d2 + [sep] + m2 + [sep] + y) == Render(lib, t, d + [sep] + m + [sep] + y);
  }

  /** Text of neither numeric shape, an ISO `YYYY-MM-DD` included, goes to the
      platform parser. */
  lemma FormatDateOtherwise(lib: DatePlatform, s: string)
    requires !DateShape(s, '/') && !DateShape(s, '-')
    ensures FormatDate(lib, s) == Render(lib, lib.parse(s), s)
  {
  }

  /** An ISO `YYYY-MM-DD` date is not of the day-first dash shape, whose
      first group has at most two digits; it goes to the platform parser. */
  lemma IsoDatesAreParsed(lib: DatePlatform, y: string, m: string, d: string)
    requires |y| == 4 && |m| == 2 && |d| == 2
    requires AllDigits(y) && AllDigits(m) && AllDigits(d)
    ensures var s := y + "-" + m + "-" + d;
            FormatDate(lib, s) == Render(lib, lib.parse(s), s)
  {
    var s := y + "-" + m + "-" + d;
    assert s[1] == y[1] && s[2] == y[2];
    forall i | 0 <= i < |s|
      ensures s[i] != '/'
    {
      if i < 4 {
        assert s[i] == y[i];
      } else if 5 <= i < 7 {
        assert s[i] == m[i - 5];
      } else if 8 <= i {
        assert s[i] == d[i - 8];
      }
    }
    AbsentSeparatorNoShape(s, '/');
  }

  lemma SampleDigits()
    ensures AllDigits("31") && DigitsValue("31") == 31
    ensures AllDigits("04") && DigitsValue("04") == 4
    ensures AllDigits("2020") && DigitsValue("2020") == 2020
  {
    assert "31"[..1] == "3";
    assert "04"[..1] == "0";
    assert DigitsValue("2") == 2 by { assert "2"[..0] == ""; }
    assert DigitsValue("20") == 20 by { assert "20"[..1] == "2"; }
    assert DigitsValue("202") == 202 by { assert "202"[..2] == "20"; }
    assert "2020"[..3] == "202";
  }

  /** No calendar check precedes construction: `31/04/2020` is handed to the
      constructor as day 31 of month index 3, which the platform rolls over. */
  lemma NoCalendarCheck(lib: DatePlatform)
    ensures FormatDate(lib, "31/04/2020") == Render(lib, lib.construct(2020, 3, 31), "31/04/2020")
  {
    SampleDigits();
    FormatDateDayFirst(lib, "31", "04", "2020", '/');
    assert "31" + ['/'] + "04" + ['/'] + "2020" == "31/04/2020";
  }
}
