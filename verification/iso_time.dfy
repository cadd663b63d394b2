/** `new Date(s * 1000).toISOString()` for a ledger timestamp of `s` whole
    seconds: the ISO-8601 string `YYYY-MM-DDTHH:mm:ss.000Z`, the expanded form
    `+YYYYYY-...` past year 9999, and a RangeError past the largest time
    value a Date can hold. */
module IsoTime {
  import opened Wrappers
  import Civil

  const SecondsPerDay: nat := 86400

  /** The largest time value a Date accepts is 8.64e15 milliseconds, so the
      largest whole-second timestamp is 8.64e12. */
  const MaxSeconds: nat := 8_640_000_000_000

  /** The message of the RangeError that `toISOString` throws on an invalid
      Date. */
  const RangeErrorMessage: string := "Invalid time value"

  /** A UTC instant broken into calendar and clock fields. */
  datatype DateTime = DateTime(date: Civil.Date, hour: int, minute: int, second: int)

  predicate IsDigit(c: char) {
    '0' <= c <= '9'
  }

  predicate AllDigits(s: string) {
    forall i :: 0 <= i < |s| ==> IsDigit(s[i])
  }

  function Pow10(w: nat): (p: nat)
    ensures p >= 1
  {
    if w == 0 then 1 else 10 * Pow10(w - 1)
  }

  function DigitChar(v: int): char
    requires 0 <= v < 10
  {
    (v + '0' as int) as char
  }

  /** The `w` low-order decimal digits of `v`, zero-padded on the left. */
  function Digits(v: nat, w: nat): (s: string)
    ensures |s| == w && AllDigits(s)
  {
    if w == 0 then ""
    else Digits(v / 10, w - 1) + [DigitChar(v % 10)]
  }

  /** The number a string of decimal digits spells. */
  function DigitsValue(s: string): nat
    requires AllDigits(s)
  {
    if |s| == 0 then 0
    else DigitsValue(s[..|s| - 1]) * 10 + (s[|s| - 1] as int - '0' as int)
  }

  lemma {:induction false} DigitsRoundTrip(v: nat, w: nat)
    requires v < Pow10(w)
    ensures DigitsValue(Digits(v, w)) == v
  {
    if w > 0 {
      var s := Digits(v, w);
      assert s[..|s| - 1] == Digits(v / 10, w - 1);
      DigitsRoundTrip(v / 10, w - 1);
    }
  }

  /** A valid date and a clock reading within one day. */
  predicate ValidDateTime(t: DateTime) {
    Civil.ValidDate(t.date) && 0 <= t.hour < 24 && 0 <= t.minute < 60 && 0 <= t.second < 60
  }

  /** The reference definition: seconds since 1970-01-01T00:00:00Z of the
      instant the fields describe. */
  function InstantOf(t: DateTime): int
    requires 1 <= t.date.month <= 12
  {
    Civil.DayNumber(t.date) * SecondsPerDay + t.hour * 3600 + t.minute * 60 + t.second
  }

  /** The fields of the instant `s` seconds after 1970-01-01T00:00:00Z. */
  function TimeOfSeconds(s: nat): (t: DateTime)
    ensures ValidDateTime(t) && t.date.year >= Civil.EpochYear
    ensures InstantOf(t) == s
  {
    var secs := s % SecondsPerDay;
    DateTime(Civil.CivilFromDays(s / SecondsPerDay), secs / 3600, secs % 3600 / 60, secs % 60)
  }

  /** The first instant of year 10000: 2932897 days after the epoch. */
  const FirstLongYearSeconds: nat := 253_402_300_800

  /** Four digits for years 0 through 9999, otherwise a sign and six digits. */
  function YearText(y: nat): string {
    if y <= 9999 then Digits(y, 4) else "+" + Digits(y, 6)
  }

  /** Everything after the year: `-MM-DDTHH:mm:ss.000Z`. */
  function TailText(t: DateTime): string
    requires 1 <= t.date.month && 1 <= t.date.day
    requires 0 <= t.hour && 0 <= t.minute && 0 <= t.second
  {
    "-" + Digits(t.date.month, 2) + "-" + Digits(t.date.day, 2)
    + "T" + Digits(t.hour, 2) + ":" + Digits(t.minute, 2) + ":" + Digits(t.second, 2)
    + ".000Z"
  }

  /** `new Date(s * 1000).toISOString()`: None stands for the RangeError
      thrown when `s * 1000` exceeds 8.64e15. */
  function ToIsoString(s: nat): (r: Option<string>)
    ensures r.Some? <==> s <= MaxSeconds
    ensures r.Some? ==> |r.value| == 24 || (|r.value| == 27 && r.value[0] == '+')
    ensures r.Some? ==> (|r.value| == 24 <==> s < FirstLongYearSeconds)
    ensures r.Some? ==> (r.value[0] == '+' <==> s >= FirstLongYearSeconds)
  {
    if s > MaxSeconds then None
    else
      var t := TimeOfSeconds(s);
      ShortYearIff(s);
      Some(YearText(t.date.year) + TailText(t))
  }

  /** The year of an instant is at most 9999 exactly when the instant
      comes before January 1 of year 10000. */
  lemma ShortYearIff(s: nat)
    ensures TimeOfSeconds(s).date.year <= 9999 <==> s < FirstLongYearSeconds
  {
    var t := TimeOfSeconds(s);
    Civil.DayNumberWithinYear(t.date);
    assert Civil.DayFromYear(10000) == 2932897;
    if t.date.year <= 9999 {
      Civil.DayFromYearGrows(t.date.year + 1, 10000);
    } else {
      Civil.DayFromYearGrows(10000, t.date.year);
    }
  }

  /** Reads the calendar and clock fields back out of
      `-MM-DDTHH:mm:ss.000Z`, for the year `y` read before it. */
  function ParseTail(y: int, u: string): (r: Option<DateTime>)
    requires |u| == 20
    ensures r.Some? ==> 1 <= r.value.date.month <= 12
  {
    if u[0] == '-' && u[3] == '-' && u[6] == 'T' && u[9] == ':' && u[12] == ':'
       && u[15..] == ".000Z"
       && AllDigits(u[1..3]) && AllDigits(u[4..6]) && AllDigits(u[7..9])
       && AllDigits(u[10..12]) && AllDigits(u[13..15])
       && 1 <= DigitsValue(u[1..3]) <= 12
    then
      Some(DateTime(Civil.Date(y, DigitsValue(u[1..3]), DigitsValue(u[4..6])),
                    DigitsValue(u[7..9]), DigitsValue(u[10..12]), DigitsValue(u[13..15])))
    else None
  }

  /** Reads the fields out of a string of either shape `toISOString`
      produces. */
  function ParseFields(str: string): (r: Option<DateTime>)
    ensures r.Some? ==> 1 <= r.value.date.month <= 12
  {
    if |str| == 24 && AllDigits(str[..4]) then ParseTail(DigitsValue(str[..4]), str[4..])
    else if |str| == 27 && str[0] == '+' && AllDigits(str[1..7]) then ParseTail(DigitsValue(str[1..7]), str[7..])
    else None
  }

  /** Decodes an ISO-8601 UTC string back into seconds since the epoch. */
  function ParseIso(str: string): Option<int> {
    match ParseFields(str)
    case None => None
    case Some(t) => Some(InstantOf(t))
  }

  lemma TailRoundTrip(t: DateTime)
    requires ValidDateTime(t)
    ensures ParseTail(t.date.year, TailText(t)) == Some(t)
  {
    TailPieces(Digits(t.date.month, 2), Digits(t.date.day, 2),
      Digits(t.hour, 2), Digits(t.minute, 2), Digits(t.second, 2));
    DigitsRoundTrip(t.date.month, 2);
    DigitsRoundTrip(t.date.day, 2);
    DigitsRoundTrip(t.hour, 2);
    DigitsRoundTrip(t.minute, 2);
    DigitsRoundTrip(t.second, 2);
  }

  /** Where the separators and the two-digit fields sit in the tail. */
  lemma TailPieces(mo: string, da: string, hh: string, mi: string, ss: string)
    requires |mo| == |da| == |hh| == |mi| == |ss| == 2
    ensures var u := "-" + mo + "-" + da + "T" + hh + ":" + mi + ":" + ss + ".000Z";
      && |u| == 20
      && u[0] == '-' && u[3] == '-' && u[6] == 'T' && u[9] == ':' && u[12] == ':'
      && u[15..] == ".000Z"
      && u[1..3] == mo && u[4..6] == da && u[7..9] == hh && u[10..12] == mi && u[13..15] == ss
  {
  }

  /** Timestamps in range belong to years below one million, so the
      six-digit expanded year always suffices. */
  lemma YearBelowMillion(s: nat)
    requires s <= MaxSeconds
    ensures TimeOfSeconds(s).date.year < 1000000
  {
    var t := TimeOfSeconds(s);
    var n := Civil.DayNumber(t.date);
    Civil.YearBound(t.date);
    assert n * SecondsPerDay <= s;
    assert n <= 100_000_000;
  }

  lemma ShortYearRoundTrip(y: nat, u: string)
    requires y <= 9999 && |u| == 20
    ensures ParseFields(Digits(y, 4) + u) == ParseTail(y, u)
  {
    var str := Digits(y, 4) + u;
    assert str[..4] == Digits(y, 4) && str[4..] == u;
    DigitsRoundTrip(y, 4);
  }

  lemma LongYearRoundTrip(y: nat, u: string)
    requires 9999 < y < 1000000 && |u| == 20
    ensures ParseFields("+" + Digits(y, 6) + u) == ParseTail(y, u)
  {
    var str := "+" + Digits(y, 6) + u;
    assert str[1..7] == Digits(y, 6) && str[7..] == u;
    DigitsRoundTrip(y, 6);
  }

  /** The emitted string reads back as the fields of the instant. */
  lemma FieldsRoundTrip(s: nat)
    requires s <= MaxSeconds
    ensures ParseFields(ToIsoString(s).value) == Some(TimeOfSeconds(s))
  {
    var t := TimeOfSeconds(s);
    YearBelowMillion(s);
    TailRoundTrip(t);
    if t.date.year <= 9999 {
      ShortYearRoundTrip(t.date.year, TailText(t));
    } else {
      LongYearRoundTrip(t.date.year, TailText(t));
    }
  }

  /** Round trip: the emitted string decodes back to the same instant. */
  lemma IsoRoundTrip(s: nat)
    requires s <= MaxSeconds
    ensures ParseIso(ToIsoString(s).value) == Some(s)
  {
    FieldsRoundTrip(s);
  }

  /** Distinct timestamps give distinct strings. */
  lemma IsoInjective(s1: nat, s2: nat)
    requires ToIsoString(s1).Some? && ToIsoString(s1) == ToIsoString(s2)
    ensures s1 == s2
  {
    IsoRoundTrip(s1);
    IsoRoundTrip(s2);
  }

  /** The fields of a timestamp are the unique valid date and clock reading
      whose instant it is. */
  lemma TimeOfSecondsUnique(s: nat, t: DateTime)
    requires ValidDateTime(t) && t.date.year >= Civil.EpochYear
    requires InstantOf(t) == s
    ensures TimeOfSeconds(s) == t
  {
    Civil.CivilFromDayNumber(t.date);
    var n := Civil.DayNumber(t.date);
    assert s / SecondsPerDay == n;
    assert s % SecondsPerDay == t.hour * 3600 + t.minute * 60 + t.second;
  }

  /** The string of an in-range timestamp whose fields are known. */
  lemma IsoOfFields(s: nat, t: DateTime)
    requires s <= MaxSeconds
    requires ValidDateTime(t) && t.date.year >= Civil.EpochYear
    requires InstantOf(t) == s
    ensures ToIsoString(s) == Some(YearText(t.date.year) + TailText(t))
  {
    TimeOfSecondsUnique(s, t);
  }

  /** Worked instant: the creation time of the example bead. */
  lemma IsoExampleCreated()
    ensures ToIsoString(1_700_000_000) == Some("2023-11-14T22:13:20.000Z")
  {
    IsoOfFields(1_700_000_000, DateTime(Civil.Date(2023, 11, 14), 22, 13, 20));
    CreatedText();
  }

  lemma CreatedText()
    ensures YearText(2023) + TailText(DateTime(Civil.Date(2023, 11, 14), 22, 13, 20)) == "2023-11-14T22:13:20.000Z"
  {
    YearText2023();
    CreatedDigits();
  }

  lemma CreatedDigits()
    ensures Digits(11, 2) == "11" && Digits(14, 2) == "14" && Digits(22, 2) == "22" && Digits(13, 2) == "13" && Digits(20, 2) == "20"
  {
    TwoDigitText(11);
    TwoDigitText(14);
    TwoDigitText(22);
    TwoDigitText(13);
    TwoDigitText(20);
  }

  /** Worked instant: the last-update time of the example bead. */
  lemma IsoExampleUpdated()
    ensures ToIsoString(1_700_050_000) == Some("2023-11-15T12:06:40.000Z")
  {
    IsoOfFields(1_700_050_000, DateTime(Civil.Date(2023, 11, 15), 12, 6, 40));
    UpdatedText();
  }

  lemma UpdatedText()
    ensures YearText(2023) + TailText(DateTime(Civil.Date(2023, 11, 15), 12, 6, 40)) == "2023-11-15T12:06:40.000Z"
  {
    YearText2023();
    UpdatedDigits();
  }

  lemma UpdatedDigits()
    ensures Digits(11, 2) == "11" && Digits(15, 2) == "15" && Digits(12, 2) == "12" && Digits(6, 2) == "06" && Digits(40, 2) == "40"
  {
    TwoDigitText(11);
    TwoDigitText(15);
    TwoDigitText(12);
    TwoDigitText(6);
    TwoDigitText(40);
  }

  /** Worked instant: the last second with a four-digit year. */
  lemma IsoExampleLastShortYear()
    ensures ToIsoString(253_402_300_799) == Some("9999-12-31T23:59:59.000Z")
  {
    IsoOfFields(253_402_300_799, DateTime(Civil.Date(9999, 12, 31), 23, 59, 59));
    LastShortYearText();
  }

  lemma LastShortYearText()
    ensures YearText(9999) + TailText(DateTime(Civil.Date(9999, 12, 31), 23, 59, 59)) == "9999-12-31T23:59:59.000Z"
  {
    YearText9999();
    LastShortYearDigits();
  }

  lemma LastShortYearDigits()
    ensures Digits(12, 2) == "12" && Digits(31, 2) == "31" && Digits(23, 2) == "23" && Digits(59, 2) == "59"
  {
    TwoDigitText(12);
    TwoDigitText(31);
    TwoDigitText(23);
    TwoDigitText(59);
  }

  /** Worked instant: the first second of year 10000 takes the
      expanded six-digit form. */
  lemma IsoExampleFirstLongYear()
    ensures ToIsoString(253_402_300_800) == Some("+010000-01-01T00:00:00.000Z")
  {
    IsoOfFields(253_402_300_800, DateTime(Civil.Date(10000, 1, 1), 0, 0, 0));
    FirstLongYearText();
  }

  lemma FirstLongYearText()
    ensures YearText(10000) + TailText(DateTime(Civil.Date(10000, 1, 1), 0, 0, 0)) == "+010000-01-01T00:00:00.000Z"
  {
    YearText10000();
    FirstLongYearDigits();
  }

  lemma FirstLongYearDigits()
    ensures Digits(1, 2) == "01" && Digits(0, 2) == "00"
  {
    TwoDigitText(1);
    TwoDigitText(0);
  }

  /** Worked instant: the largest time value; one second more is a
      RangeError. */
  lemma IsoExampleLimit()
    ensures ToIsoString(MaxSeconds) == Some("+275760-09-13T00:00:00.000Z")
    ensures ToIsoString(MaxSeconds + 1) == None
  {
    IsoOfFields(MaxSeconds, DateTime(Civil.Date(275760, 9, 13), 0, 0, 0));
    LimitText();
  }

  lemma LimitText()
    ensures YearText(275760) + TailText(DateTime(Civil.Date(275760, 9, 13), 0, 0, 0)) == "+275760-09-13T00:00:00.000Z"
  {
    YearText275760();
    LimitDigits();
  }

  lemma LimitDigits()
    ensures Digits(9, 2) == "09" && Digits(13, 2) == "13" && Digits(0, 2) == "00"
  {
    TwoDigitText(9);
    TwoDigitText(13);
    TwoDigitText(0);
  }

  lemma YearText2023()
    ensures YearText(2023) == "2023"
  {
  }

  lemma YearText9999()
    ensures YearText(9999) == "9999"
  {
  }

  lemma YearText10000()
    ensures YearText(10000) == "+010000"
  {
  }

  lemma YearText275760()
    ensures YearText(275760) == "+275760"
  {
  }

  lemma TwoDigitText(v: nat)
    requires v < 100
    ensures Digits(v, 2) == [DigitChar(v / 10), DigitChar(v % 10)]
  {
  }
}
