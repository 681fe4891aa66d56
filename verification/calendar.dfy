/** The calendar page's date key and its lookup in the per-day data. */
module CalendarPage {
  import opened Wrappers

  /** What the page reads from the selected `Date`: full year, month index 0..11, day of month. */
  datatype CalendarDate = CalendarDate(year: int, monthIndex: int, day: int)

  datatype DayTask = DayTask(id: int, title: string, completed: bool)
  datatype DayHabit = DayHabit(id: int, name: string, completed: bool)
  datatype DayData = DayData(tasks: seq<DayTask>, habits: seq<DayHabit>)

  predicate IsDigit(c: char)
  {
    '0' <= c <= '9'
  }

  predicate AllDigits(s: string)
  {
    forall i :: 0 <= i < |s| ==> IsDigit(s[i])
  }

  function Digit(d: nat): (c: char)
    requires d < 10
    ensures IsDigit(c) && c as int - '0' as int == d
  {
    ('0' as int + d) as char
  }

  /** The decimal digits of `n`, most significant first, without leading zeros. */
  function DecimalString(n: nat): (s: string)
    ensures |s| >= 1 && AllDigits(s)
    ensures |s| >= 2 ==> s[0] != '0'
  {
    if n < 10 then [Digit(n)] else DecimalString(n / 10) + [Digit(n % 10)]
  }

  /** `String(n)` for an integer. */
  function NumberToString(n: int): (r: string)
    ensures |r| >= 1 && (r[0] == '-' <==> n < 0)
    ensures n >= 0 ==> AllDigits(r) && ParseDecimal(r) == n
    ensures n < 0 ==> AllDigits(r[1..]) && ParseDecimal(r[1..]) == -n
    ensures n >= 0 && |r| >= 2 ==> r[0] != '0'
    ensures n < 0 ==> |r| >= 2 && r[1] != '0'
  {
    if n < 0 then
      ParseDecimalString(-n);
      assert ("-" + DecimalString(-n))[1..] == DecimalString(-n);
      "-" + DecimalString(-n)
    else
      ParseDecimalString(n);
      DecimalString(n)
  }

  function DigitValue(c: char): nat
    requires IsDigit(c)
  {
    c as int - '0' as int
  }

  /** The value of a string of decimal digits. */
  function ParseDecimal(s: string): nat
    requires AllDigits(s)
  {
    if s == [] then 0 else ParseDecimal(s[..|s| - 1]) * 10 + DigitValue(s[|s| - 1])
  }

  lemma {:induction false} ParseDecimalString(n: nat)
    ensures ParseDecimal(DecimalString(n)) == n
  {
    if n >= 10 {
      ParseDecimalString(n / 10);
      var s := DecimalString(n);
      assert s[..|s| - 1] == DecimalString(n / 10);
    }
  }

  lemma {:induction false} DecimalStringLength(n: nat, digits: nat)
    requires digits >= 1
    requires (if digits == 1 then 0 else Power10(digits - 1)) <= n < Power10(digits)
    ensures |DecimalString(n)| == digits
  {
    if n >= 10 {
      assert digits > 1;
      DecimalStringLength(n / 10, digits - 1);
    }
  }

  function Power10(k: nat): nat
  {
    if k == 0 then 1 else 10 * Power10(k - 1)
  }

  /** `s.padStart(width, fill)`: `fill` prepended until `s` is `width` long; longer strings unchanged. */
  function PadStart(s: string, width: nat, fill: char): (r: string)
    ensures |r| == if |s| >= width then |s| else width
    decreases width - |s|
  {
    if |s| >= width then s else PadStart([fill] + s, width, fill)
  }

  /** The padded string is `width` long (or `s` itself when longer), ends in `s` and starts with fills. */
  lemma {:induction false} PadStartPads(s: string, width: nat, fill: char)
    ensures var r := PadStart(s, width, fill);
      && |r| == (if |s| >= width then |s| else width)
      && r[|r| - |s|..] == s
      && forall i :: 0 <= i < |r| - |s| ==> r[i] == fill
    decreases width - |s|
  {
    if |s| < width {
      PadStartPads([fill] + s, width, fill);
      var r := PadStart(s, width, fill);
      assert r[|r| - |s|..] == r[|r| - |s| - 1..][1..];
    }
  }

  /** `String(n).padStart(2, '0')`. */
  function TwoDigits(n: int): (r: string)
    ensures |r| >= 2
  {
    PadStart(NumberToString(n), 2, '0')
  }

  /** `formattedDate`: "" without a selected date, otherwise YYYY-MM-DD with a one-based month. */
  function FormattedDate(date: Option<CalendarDate>): (key: string)
    ensures key == "" <==> date.None?
  {
    match date
    case None => ""
    case Some(d) => NumberToString(d.year) + "-" + TwoDigits(d.monthIndex + 1) + "-" + TwoDigits(d.day)
  }

  /** Month numbers and days of the month (1..31) come out as exactly two digits, tens first. */
  lemma TwoDigitsForm(n: int)
    requires 1 <= n <= 31
    ensures TwoDigits(n) == [Digit(n / 10), Digit(n % 10)]
  {
    if n < 10 {
      assert DecimalString(n) == [Digit(n)];
      assert TwoDigits(n) == PadStart(['0'] + [Digit(n)], 2, '0');
      assert Digit(0) == '0';
    } else {
      assert DecimalString(n) == [Digit(n / 10)] + [Digit(n % 10)];
    }
  }

  lemma {:induction false} TwoDigitField(n: int)
    requires 1 <= n <= 31
    ensures |TwoDigits(n)| == 2 && AllDigits(TwoDigits(n))
    ensures ParseDecimal(TwoDigits(n)) == n
  {
    TwoDigitsForm(n);
    var a, b := Digit(n / 10), Digit(n % 10);
    var r := [a, b];
    assert AllDigits(r) by {
      assert forall i :: 0 <= i < 2 ==> r[i] == a || r[i] == b;
    }
    assert r[..1] == [a];
    assert ParseDecimal([a]) == n / 10 by {
      assert [a][..0] == [];
    }
    assert ParseDecimal(r) == (n / 10) * 10 + n % 10;
  }

  /** A real date with a four-digit year gives a ten-character key: YYYY, '-', MM, '-', DD. */
  lemma {:induction false} FormattedDateShape(d: CalendarDate)
    requires 1000 <= d.year <= 9999 && 0 <= d.monthIndex <= 11 && 1 <= d.day <= 31
    ensures var key := FormattedDate(Some(d)); |key| == 10 && key[4] == '-' && key[7] == '-'
  {
    var y, m, dd := DecimalString(d.year), TwoDigits(d.monthIndex + 1), TwoDigits(d.day);
    FormattedDateLayout(d);
    YearField(d.year);
    TwoDigitField(d.monthIndex + 1);
    TwoDigitField(d.day);
    var key := y + "-" + m + "-" + dd;
    assert key[4] == '-' && key[7] == '-' by {
      assert key == (y + "-") + (m + "-") + dd;
      assert (y + "-")[4] == '-' && (m + "-")[2] == '-';
    }
  }

  /** Reads a ten-character YYYY-MM-DD key back into a date. */
  function ParseDateKey(key: string): Option<CalendarDate>
  {
    if |key| == 10 && key[4] == '-' && key[7] == '-'
       && AllDigits(key[..4]) && AllDigits(key[5..7]) && AllDigits(key[8..])
    then Some(CalendarDate(ParseDecimal(key[..4]), ParseDecimal(key[5..7]) - 1, ParseDecimal(key[8..])))
    else None
  }


  /** A key laid out as four digits, '-', two digits, '-', two digits parses field by field. */
  lemma ParseLaidOutKey(key: string, y: string, m: string, dd: string, d: CalendarDate)
    requires key == y + "-" + m + "-" + dd
    requires |y| == 4 && |m| == 2 && |dd| == 2 && AllDigits(y) && AllDigits(m) && AllDigits(dd)
    requires ParseDecimal(y) == d.year && ParseDecimal(m) == d.monthIndex + 1 && ParseDecimal(dd) == d.day
    ensures ParseDateKey(key) == Some(d)
  {
    KeyFields(key, y, m, dd);
  }

  /** The key determines the date: reading it back gives the date it was made from. */
  lemma {:induction false} DateKeyRoundTrip(d: CalendarDate)
    requires 1000 <= d.year <= 9999 && 0 <= d.monthIndex <= 11 && 1 <= d.day <= 31
    ensures ParseDateKey(FormattedDate(Some(d))) == Some(d)
  {
    FormattedDateLayout(d);
    YearField(d.year);
    TwoDigitField(d.monthIndex + 1);
    TwoDigitField(d.day);
    ParseLaidOutKey(FormattedDate(Some(d)), DecimalString(d.year), TwoDigits(d.monthIndex + 1), TwoDigits(d.day), d);
  }

  lemma FormattedDateLayout(d: CalendarDate)
    requires d.year >= 0
    ensures FormattedDate(Some(d)) == DecimalString(d.year) + "-" + TwoDigits(d.monthIndex + 1) + "-" + TwoDigits(d.day)
  {
  }

  lemma YearField(year: int)
    requires 1000 <= year <= 9999
    ensures |DecimalString(year)| == 4 && AllDigits(DecimalString(year))
    ensures ParseDecimal(DecimalString(year)) == year
  {
    assert Power10(3) == 1000 && Power10(4) == 10000;
    DecimalStringLength(year, 4);
    ParseDecimalString(year);
  }

  /** The page's per-day sample data, keyed by date. */
  const SampleData: map<string, DayData> := map[
    "2023-07-15" := DayData(
      [DayTask(1, "Team meeting", true), DayTask(2, "Send weekly report", false)],
      [DayHabit(1, "Exercise", true), DayHabit(2, "Read", true), DayHabit(3, "Meditate", false)]),
    "2023-07-16" := DayData(
      [DayTask(3, "Client call", true)],
      [DayHabit(1, "Exercise", false), DayHabit(2, "Read", true)])
  ]

  /** `sampleData[formattedDate] || { tasks: [], habits: [] }`. */
  function SelectedDateData(data: map<string, DayData>, key: string): (r: DayData)
    ensures key in data ==> r == data[key]
    ensures key !in data ==> r == DayData([], [])
  {
    if key in data then data[key] else DayData([], [])
  }

  /**
   * Looking up the selected date in data keyed by formatted dates finds the
   * entry stored for that very date: two real dates never share a key.
   */
  lemma SelectedDateFindsOwnEntry(selected: CalendarDate, stored: CalendarDate, entry: DayData)
    requires 0 <= selected.monthIndex <= 11 && 1 <= selected.day <= 31
    requires 0 <= stored.monthIndex <= 11 && 1 <= stored.day <= 31
    ensures SelectedDateData(map[FormattedDate(Some(stored)) := entry], FormattedDate(Some(selected))) ==
      if selected == stored then entry else DayData([], [])
  {
    DateKeyInjective(selected, stored);
  }

  /**
   * Two real dates share a key only when they are the same date, whatever
   * the years: the "-MM-DD" tail is always six characters long, so what
   * comes before it is `String(year)`, which determines the year.
   */
  lemma {:induction false} DateKeyInjective(a: CalendarDate, b: CalendarDate)
    requires 0 <= a.monthIndex <= 11 && 1 <= a.day <= 31
    requires 0 <= b.monthIndex <= 11 && 1 <= b.day <= 31
    ensures FormattedDate(Some(a)) == FormattedDate(Some(b)) <==> a == b
  {
    if FormattedDate(Some(a)) == FormattedDate(Some(b)) {
      TwoDigitsLength(a.monthIndex + 1);
      TwoDigitsLength(a.day);
      TwoDigitsLength(b.monthIndex + 1);
      TwoDigitsLength(b.day);
      SameKeySameFields(NumberToString(a.year), TwoDigits(a.monthIndex + 1), TwoDigits(a.day),
                        NumberToString(b.year), TwoDigits(b.monthIndex + 1), TwoDigits(b.day));
      FieldsDetermineDate(a, b);
    }
  }

  lemma TwoDigitsLength(n: int)
    requires 1 <= n <= 31
    ensures |TwoDigits(n)| == 2
  {
    TwoDigitsForm(n);
  }

  /** Two keys built from a year field and two two-character fields are equal only field by field. */
  lemma SameKeySameFields(ya: string, ma: string, da: string, yb: string, mb: string, db: string)
    requires |ma| == 2 && |da| == 2 && |mb| == 2 && |db| == 2
    requires ya + "-" + ma + "-" + da == yb + "-" + mb + "-" + db
    ensures ya == yb && ma == mb && da == db
  {
    var key := ya + "-" + ma + "-" + da;
    KeyFields(key, ya, ma, da);
    KeyFields(key, yb, mb, db);
  }

  /** The year string and the two padded fields together determine the date. */
  lemma FieldsDetermineDate(a: CalendarDate, b: CalendarDate)
    requires 0 <= a.monthIndex <= 11 && 1 <= a.day <= 31
    requires 0 <= b.monthIndex <= 11 && 1 <= b.day <= 31
    requires NumberToString(a.year) == NumberToString(b.year)
    requires TwoDigits(a.monthIndex + 1) == TwoDigits(b.monthIndex + 1) && TwoDigits(a.day) == TwoDigits(b.day)
    ensures a == b
  {
    NumberToStringInjective(a.year, b.year);
    TwoDigitField(a.monthIndex + 1);
    TwoDigitField(b.monthIndex + 1);
    TwoDigitField(a.day);
    TwoDigitField(b.day);
  }

  /** A key made of a year field and two two-character fields splits back into them from its end. */
  lemma KeyFields(key: string, y: string, m: string, dd: string)
    requires key == y + "-" + m + "-" + dd && |m| == 2 && |dd| == 2
    ensures var n := |key| - 6; n == |y| && key[..n] == y && key[n + 1..n + 3] == m && key[n + 4..] == dd
    ensures var n := |key| - 6; key[n] == '-' && key[n + 3] == '-'
  {
    assert key == y + ("-" + m + "-" + dd);
  }

  /** `String(n)` determines `n`. */
  lemma NumberToStringInjective(a: int, b: int)
    requires NumberToString(a) == NumberToString(b)
    ensures a == b
  {
  }

  /** Without a selected date the key is "" and the page shows no tasks and no habits. */
  lemma NoDateSelected(data: map<string, DayData>)
    requires "" !in data
    ensures FormattedDate(None) == "" && SelectedDateData(data, FormattedDate(None)) == DayData([], [])
  {
  }

  lemma YearOf2023()
    ensures DecimalString(2023) == "2023"
  {
    assert DecimalString(2) == "2";
    assert DecimalString(20) == "20";
    assert DecimalString(202) == "202";
  }

  /** Selecting 15 July 2023 (month index 6) shows that day's sample tasks and habits. */
  lemma SampleDaySelected()
    ensures SelectedDateData(SampleData, FormattedDate(Some(CalendarDate(2023, 6, 15)))) == SampleData["2023-07-15"]
  {
    FormattedDateLayout(CalendarDate(2023, 6, 15));
    TwoDigitsForm(7);
    TwoDigitsForm(15);
    YearOf2023();
    assert TwoDigits(7) == "07" && TwoDigits(15) == "15";
    assert FormattedDate(Some(CalendarDate(2023, 6, 15))) == "2023-07-15";
  }
}
