/**
 * Calendar days as integers. Day 0 is 1970-01-01; the weekday numbering is
 * Python's `date.weekday()` (Monday 0 ... Sunday 6). The civil conversion is the
 * proleptic Gregorian calendar that Python's `date` uses, and `IsoDate` is
 * `date.isoformat()`.
 */
module Days {

  import opened Wrappers
  import opened Text

  /** `date.weekday()` value of a Sunday. */
  const Sunday := 6

  /** 1970-01-01 was a Thursday, weekday 3. */
  function Weekday(d: int): (w: int)
    ensures 0 <= w < 7
  {
    (d + 3) % 7
  }

  predicate IsSunday(d: int) {
    Weekday(d) == Sunday
  }

  datatype Civil = Civil(year: int, month: int, day: int)

  /** Day of the 400-year era on which year `yoe` of the era begins. */
  function YearStart(yoe: int): int {
    365 * yoe + yoe / 4 - yoe / 100
  }

  /** Year of the era (years starting 1 March) holding day `doe` of the era. */
  function YearOfEra(doe: int): int {
    (doe - doe / 1460 + doe / 36524 - doe / 146096) / 365
  }

  lemma Div1460(q: int, t: int)
    requires 0 <= t
    ensures (1460 * q + t) / 1460 == q + t / 1460
  {
    var x := 1460 * q + t;
    assert x == 1460 * (q + t / 1460) + t % 1460;
  }

  lemma Div365(q: int, t: int)
    requires 0 <= t
    ensures (365 * q + t) / 365 == q + t / 365
  {
    var x := 365 * q + t;
    assert x == 365 * (q + t / 365) + t % 365;
  }

  /** Every day of an era falls within 0..365 days of the start of its year. */
  lemma DayOfYearBound(doe: int)
    requires 0 <= doe < 146097
    ensures 0 <= YearOfEra(doe) < 400
    ensures 0 <= doe - YearStart(YearOfEra(doe)) <= 365
  {
    if doe == 146096 {
      return;
    }
    // doe = 36524 c + 1461 k + s: century c, four-year block k, day s of the block
    var c := doe / 36524;
    var r := doe % 36524;
    var k := r / 1461;
    var s := r % 1461;
    assert 0 <= c <= 3 && 0 <= k <= 24 && 0 <= s < 1461;
    assert doe == 36524 * c + 1461 * k + s;
    assert doe == 1460 * (25 * c + k) + (24 * c + k + s);
    Div1460(25 * c + k, 24 * c + k + s);
    var e := (24 * c + k + s) / 1460;
    assert 0 <= e <= 1;
    assert e == 1 ==> s >= 1364;
    assert doe / 1460 == 25 * c + k + e;
    assert doe / 36524 == c && doe / 146096 == 0;
    var n := doe - doe / 1460 + doe / 36524 - doe / 146096;
    assert n == 365 * (100 * c + 4 * k) + (s - e);
    assert 0 <= s - e < 1460;
    Div365(100 * c + 4 * k, s - e);
    var y4 := (s - e) / 365;
    assert 0 <= y4 <= 3;
    var yoe := n / 365;
    assert yoe == 100 * c + 4 * k + y4;
    assert YearOfEra(doe) == yoe;
    assert yoe / 4 == 25 * c + k;
    assert yoe / 100 == c;
    assert doe - YearStart(yoe) == s - 365 * y4;
  }

  /** Month index counted from March (0 = March ... 11 = February) of day `doy` of a year. */
  function MarchMonth(doy: int): int {
    (5 * doy + 2) / 153
  }

  /** Day of the March-based year on which March-based month `mp` begins. */
  function MonthStart(mp: int): int {
    (153 * mp + 2) / 5
  }

  lemma MonthBounds(doy: int)
    requires 0 <= doy <= 365
    ensures 0 <= MarchMonth(doy) <= 11
    ensures 1 <= doy - MonthStart(MarchMonth(doy)) + 1 <= 31
  {
    var mp := MarchMonth(doy);
    assert 153 * mp <= 5 * doy + 2 < 153 * mp + 153;
  }

  /** Calendar date of day number z. */
  function CivilFromDays(z: int): (c: Civil)
    ensures 1 <= c.month <= 12
    ensures 1 <= c.day <= 31
  {
    var w := z + 719468;
    var era := w / 146097;
    var doe := w % 146097;
    var yoe := YearOfEra(doe);
    DayOfYearBound(doe);
    var doy := doe - YearStart(yoe);
    MonthBounds(doy);
    var mp := MarchMonth(doy);
    var m := if mp < 10 then mp + 3 else mp - 9;
    var y := yoe + era * 400;
    Civil(if m <= 2 then y + 1 else y, m, doy - MonthStart(mp) + 1)
  }

  /** Day number of a calendar date. */
  function DaysFromCivil(c: Civil): int {
    var y := if c.month <= 2 then c.year - 1 else c.year;
    var era := y / 400;
    var yoe := y - era * 400;
    var mp := if c.month > 2 then c.month - 3 else c.month + 9;
    var doy := MonthStart(mp) + c.day - 1;
    era * 146097 + YearStart(yoe) + doy - 719468
  }

  /** The day number of a date, from its March-based year split into era and year of era, and its March-based month. */
  lemma DaysFromCivilOf(c: Civil, era: int, yoe: int, mp: int)
    requires 0 <= yoe < 400
    requires (if c.month <= 2 then c.year - 1 else c.year) == yoe + era * 400
    requires (if c.month > 2 then c.month - 3 else c.month + 9) == mp
    ensures DaysFromCivil(c) == era * 146097 + YearStart(yoe) + MonthStart(mp) + c.day - 1 - 719468
  {
    var y := yoe + era * 400;
    assert y / 400 == era;
  }

  /** The day number of the date of a day number is that day number again. */
  lemma CivilRoundTrip(z: int)
    ensures DaysFromCivil(CivilFromDays(z)) == z
  {
    var w := z + 719468;
    var era := w / 146097;
    var doe := w % 146097;
    DayOfYearBound(doe);
    var yoe := YearOfEra(doe);
    var doy := doe - YearStart(yoe);
    MonthBounds(doy);
    var mp := MarchMonth(doy);
    var c := CivilFromDays(z);
    assert c.month == (if mp < 10 then mp + 3 else mp - 9);
    assert (if c.month <= 2 then c.year - 1 else c.year) == yoe + era * 400;
    DaysFromCivilOf(c, era, yoe, mp);
    assert MonthStart(mp) + c.day - 1 == doy;
    assert era * 146097 + doe == w;
  }

  /** 0001-01-01 and 9999-12-31, the range of Python's `date`. */
  const FirstDay := -719162
  const LastDay := 2932896

  predicate InDateRange(z: int) {
    FirstDay <= z <= LastDay
  }

  lemma DateRangeEnds()
    ensures DaysFromCivil(Civil(1, 1, 1)) == FirstDay
    ensures DaysFromCivil(Civil(9999, 12, 31)) == LastDay
  {
  }

  lemma YearInRange(z: int)
    requires InDateRange(z)
    ensures 1 <= CivilFromDays(z).year <= 9999
  {
    var w := z + 719468;
    var era := w / 146097;
    var doe := w % 146097;
    DayOfYearBound(doe);
    var yoe := YearOfEra(doe);
    var doy := doe - YearStart(yoe);
    MonthBounds(doy);
    var mp := MarchMonth(doy);
    assert CivilFromDays(z).year == yoe + era * 400 + (if mp >= 10 then 1 else 0);
    assert 0 <= era <= 24;
    assert 0 <= era * 400 <= 9600;
    if era == 0 && yoe == 0 {
      assert doy >= 306;
      assert MarchMonth(doy) >= 10;
    }
    if era == 24 && yoe == 399 {
      assert doy <= 305;
      assert MarchMonth(doy) <= 9;
    }
  }

  /** `date.isoformat()`: YYYY-MM-DD, each field zero-padded. */
  function IsoDate(z: int): string {
    var c := CivilFromDays(z);
    var year := if c.year >= 0 then ZeroPad(c.year, 4) else "-" + ZeroPad(-c.year, 4);
    year + "-" + ZeroPad(c.month, 2) + "-" + ZeroPad(c.day, 2)
  }

  /** Reads YYYY-MM-DD back into a day number. */
  function ParseIsoDate(s: string): Option<int> {
    if |s| == 10 && s[4] == '-' && s[7] == '-'
       && AllDigits(s[..4]) && AllDigits(s[5..7]) && AllDigits(s[8..])
    then
      var m := DigitsValue(s[5..7]);
      var d := DigitsValue(s[8..]);
      if 1 <= m <= 12 && 1 <= d <= 31 then Some(DaysFromCivil(Civil(DigitsValue(s[..4]), m, d)))
      else None
    else None
  }

  /** Within Python's date range the ISO text is ten characters and reads back as the same day. */
  lemma IsoDateRoundTrip(z: int)
    requires InDateRange(z)
    ensures |IsoDate(z)| == 10
    ensures ParseIsoDate(IsoDate(z)) == Some(z)
  {
    var c := CivilFromDays(z);
    YearInRange(z);
    ZeroPadWidth(c.year, 4);
    ZeroPadWidth(c.month, 2);
    ZeroPadWidth(c.day, 2);
    var s := IsoDate(z);
    assert s[..4] == ZeroPad(c.year, 4);
    assert s[5..7] == ZeroPad(c.month, 2);
    assert s[8..] == ZeroPad(c.day, 2);
    CivilRoundTrip(z);
  }

  /** `(6 - weekday) % 7`: days from a weekday forward to the next Sunday, none on a Sunday. */
  function DaysUntilSunday(weekday: int): (k: int)
    requires 0 <= weekday < 7
    ensures 0 <= k < 7
    ensures (weekday + k) % 7 == Sunday
  {
    (6 - weekday) % 7
  }

  /** The day the Canvas weekly window ends on: the first Sunday on or after `today`. */
  lemma EndOfWeekIsFirstSunday(today: int)
    ensures IsSunday(today + DaysUntilSunday(Weekday(today)))
    ensures forall d :: today <= d < today + DaysUntilSunday(Weekday(today)) ==> !IsSunday(d)
  {
    var k := DaysUntilSunday(Weekday(today));
    forall d | today <= d < today + k
      ensures !IsSunday(d)
    {
      assert Weekday(d) == (Weekday(today) + (d - today)) % 7;
    }
  }
}
