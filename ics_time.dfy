/**
  parseICSTime (import_ics.js): an RFC 5545 DATE-TIME value, `YYYYMMDDTHHMMSS` (section 3.3.5),
  optionally followed by `Z` or by a non-standard `+hhmm`/`-hhmm` offset, read as an instant in
  milliseconds since 1970-01-01T00:00:00Z. The six fields go through `Date.UTC`, whose day
  arithmetic is written out here as ECMAScript defines it (DayFromYear, MakeDay, MakeTime,
  MakeDate), including its reading of years 0 to 99 as 1900 to 1999.
*/
module IcsTime {
  import opened Wrappers
  import opened Text

  /** A stamp `\d{8}T\d{6}`: the text `(\d{4})(\d{2})(\d{2})T(\d{2})(\d{2})(\d{2})` matches. */
  predicate IsStamp(st: string) {
    |st| == 15 && AllDigits(st[..8]) && st[8] == 'T' && AllDigits(st[9..])
  }

  /** The pattern matches at `i`. */
  predicate StampAt(s: string, i: int) {
    0 <= i && i + 15 <= |s| && IsStamp(s[i..i + 15])
  }

  /** The six numbers as written: month and day are one-based as in the text. */
  datatype Fields = Fields(year: nat, month: nat, day: nat, hour: nat, minute: nat, second: nat)

  /** The fields fit the widths of the pattern. */
  predicate Writable(f: Fields) {
    f.year < 10000 && f.month < 100 && f.day < 100 && f.hour < 100 && f.minute < 100 && f.second < 100
  }

  /** The `parseInt` of each captured group of a stamp. */
  function FieldsOf(st: string): (f: Fields)
    requires IsStamp(st)
    ensures Writable(f)
  {
    DigitsSlice(st, 0, 8, 0, 4);
    DigitsSlice(st, 0, 8, 4, 6);
    DigitsSlice(st, 0, 8, 6, 8);
    DigitsSlice(st, 9, 15, 9, 11);
    DigitsSlice(st, 9, 15, 11, 13);
    DigitsSlice(st, 9, 15, 13, 15);
    Fields(Value(st[0..4]), Value(st[4..6]), Value(st[6..8]),
           Value(st[9..11]), Value(st[11..13]), Value(st[13..15]))
  }

  /** The optional `(Z|[+-]\d{4})` group. */
  datatype Zone = NoZone | Utc | Offset(plus: bool, hours: nat, minutes: nat)

  /** What the optional zone group captures at `j`: `Z` is tried before a signed offset. */
  function ZoneAt(s: string, j: nat): (z: Zone)
    ensures z.Offset? ==> z.hours < 100 && z.minutes < 100
  {
    if j < |s| && s[j] == 'Z' then Utc
    else if j + 5 <= |s| && (s[j] == '+' || s[j] == '-') && AllDigits(s[j + 1..j + 5]) then
      DigitsSlice(s, j + 1, j + 5, j + 1, j + 3);
      DigitsSlice(s, j + 1, j + 5, j + 3, j + 5);
      Offset(s[j] == '+', Value(s[j + 1..j + 3]), Value(s[j + 3..j + 5]))
    else NoZone
  }

  /** ECMAScript DayFromYear: the day number of January 1 of year `y` (floor divisions). */
  function DayFromYear(y: int): int {
    365 * (y - 1970) + (y - 1969) / 4 - (y - 1901) / 100 + (y - 1601) / 400
  }

  predicate IsLeap(y: int) {
    y % 4 == 0 && (y % 100 != 0 || y % 400 == 0)
  }

  function DaysInYear(y: int): int {
    if IsLeap(y) then 366 else 365
  }

  /** Days in month `m` (zero-based) of year `y`. */
  function DaysInMonth(y: int, m: int): int
    requires 0 <= m < 12
  {
    if m == 1 then (if IsLeap(y) then 29 else 28)
    else if m == 3 || m == 5 || m == 8 || m == 10 then 30
    else 31
  }

  /** Days from January 1 to the first of month `m` (zero-based) of year `y`. */
  function MonthStart(y: int, m: int): int
    requires 0 <= m <= 12
  {
    if m == 0 then 0 else MonthStart(y, m - 1) + DaysInMonth(y, m - 1)
  }

  /** ECMAScript MakeDay: month may be any integer; whole years are carried into the year. */
  function MakeDay(year: int, month: int, date: int): int {
    var ym := year + month / 12;
    var mn := month % 12;
    DayFromYear(ym) + MonthStart(ym, mn) + date - 1
  }

  /** ECMAScript MakeTime with zero milliseconds: msPerHour, msPerMinute and msPerSecond. */
  function MakeTime(hour: int, minute: int, second: int): int {
    hour * 3600000 + minute * 60000 + second * 1000
  }

  /** ECMAScript MakeDate: msPerDay is 86400000. */
  function MakeDate(day: int, time: int): int {
    day * 86400000 + time
  }

  /** `Date.UTC(year, month, day, hour, minute, second)`, month zero-based; years 0 to 99 mean 1900 to 1999. */
  function DateUtc(year: int, month: int, day: int, hour: int, minute: int, second: int): int {
    var fullYear := if 0 <= year <= 99 then 1900 + year else year;
    MakeDate(MakeDay(fullYear, month, day), MakeTime(hour, minute, second))
  }

  /** The day number of the fields' date, counted from 1970-01-01, years taken as written. */
  function DayNumber(f: Fields): int {
    MakeDay(f.year, f.month - 1, f.day)
  }

  /** The instant the fields name on the proleptic Gregorian calendar in UTC, years taken as written. */
  function Instant(f: Fields): int {
    MakeDate(DayNumber(f), MakeTime(f.hour, f.minute, f.second))
  }

  /** `sign * ((offsetHours * 60 + offsetMinutes) * 60 * 1000)`; zero without an offset. */
  function OffsetMs(z: Zone): int {
    match z
    case Offset(plus, hours, minutes) =>
      var ms := (hours * 60 + minutes) * 60000;
      if plus then ms else -ms
    case _ => 0
  }

  /** What the regular expression captures: the leftmost stamp's fields and the zone after it. */
  function Reading(s: string): Option<(Fields, Zone)> {
    match Leftmost(s, StampAt, 0)
    case None => None
    case Some(i) => Some((FieldsOf(s[i..i + 15]), ZoneAt(s, i + 15)))
  }

  /** The instant a reading names: `Date.UTC` of the fields, less the offset. */
  function Resolve(f: Fields, z: Zone): int {
    DateUtc(f.year, f.month - 1, f.day, f.hour, f.minute, f.second) - OffsetMs(z)
  }

  /** parseICSTime: the instant in milliseconds, or None where the JavaScript returns `null`. */
  function ParseIcsTime(s: string): Option<int> {
    match Reading(s)
    case None => None
    case Some((f, z)) => Some(Resolve(f, z))
  }

  /** `YYYYMMDDTHHMMSS`, each field zero-padded to its width. */
  function Format(f: Fields): string {
    Pad(f.year, 4) + Pad(f.month, 2) + Pad(f.day, 2) + "T" + Pad(f.hour, 2) + Pad(f.minute, 2) + Pad(f.second, 2)
  }

  /** A calendar date and time of day that exist. */
  predicate ValidFields(f: Fields) {
    1 <= f.month <= 12 && 1 <= f.day <= DaysInMonth(f.year, f.month - 1) &&
    f.hour < 24 && f.minute < 60 && f.second < 60
  }

  /** The result is null exactly when no stamp occurs anywhere in the text. */
  lemma ParseNull(s: string)
    ensures ParseIcsTime(s).None? <==> forall i :: !StampAt(s, i)
  {
    LeftmostSpec(s, StampAt, 0);
    if ParseIcsTime(s).None? {
      forall i
        ensures !StampAt(s, i)
      {
        if 0 <= i <= |s| {
          assert !StampAt(s, i);
        }
      }
    }
  }

  /** The leftmost stamp and the zone right after it are what is read. */
  lemma ReadingLeftmost(s: string, i: int)
    requires StampAt(s, i) && forall k :: 0 <= k < i ==> !StampAt(s, k)
    ensures Reading(s) == Some((FieldsOf(s[i..i + 15]), ZoneAt(s, i + 15)))
  {
    LeftmostAt(s, StampAt, 0, i);
  }

  /** An offset only shifts the UTC reading. */
  lemma ResolveShift(f: Fields, z: Zone)
    ensures Resolve(f, z) == Resolve(f, NoZone) - OffsetMs(z)
  {
  }

  /** The instant of a reading is its UTC reading less its offset. */
  lemma ParseOf(s: string, f: Fields, z: Zone)
    requires Reading(s) == Some((f, z))
    ensures ParseIcsTime(s) == Some(Resolve(f, NoZone) - OffsetMs(z))
  {
    ResolveShift(f, z);
  }

  lemma Prefix(a: string, b: string)
    ensures (a + b)[..|a|] == a && (a + b)[|a|..] == b
  {
  }

  /** A formatted stamp is a stamp and reads back as its own fields. */
  lemma FormatFields(f: Fields)
    requires Writable(f)
    ensures IsStamp(Format(f)) && FieldsOf(Format(f)) == f
  {
    FormatLayout(f);
    PadValue(f.year, 4);
    PadValue(f.month, 2);
    PadValue(f.day, 2);
    PadValue(f.hour, 2);
    PadValue(f.minute, 2);
    PadValue(f.second, 2);
  }

  /** Where each padded field sits in the formatted stamp. */
  lemma FormatLayout(f: Fields)
    ensures var st := Format(f);
      && IsStamp(st)
      && st[0..4] == Pad(f.year, 4) && st[4..6] == Pad(f.month, 2) && st[6..8] == Pad(f.day, 2)
      && st[9..11] == Pad(f.hour, 2) && st[11..13] == Pad(f.minute, 2) && st[13..15] == Pad(f.second, 2)
  {
    var y, mo, d, h, mi, se := Pad(f.year, 4), Pad(f.month, 2), Pad(f.day, 2), Pad(f.hour, 2), Pad(f.minute, 2), Pad(f.second, 2);
    var st := Format(f);
    assert st[..8] == y + mo + d;
    assert st[8] == 'T';
    assert st[9..] == h + mi + se;
    assert st[0..4] == y && st[4..6] == mo && st[6..8] == d;
    assert st[9..11] == h && st[11..13] == mi && st[13..15] == se;
  }

  /** A stamp followed by a suffix is read as the stamp's fields and the suffix's zone. */
  lemma ReadStamp(st: string, suffix: string)
    requires IsStamp(st)
    ensures Reading(st + suffix) == Some((FieldsOf(st), ZoneAt(suffix, 0)))
  {
    var s := st + suffix;
    Prefix(st, suffix);
    assert s[0..15] == st;
    assert Leftmost(s, StampAt, 0) == Some(0);
    assert ZoneAt(s, 15) == ZoneAt(suffix, 0) by {
      if 5 <= |suffix| {
        assert s[16..20] == suffix[1..5];
        assert s[16..18] == suffix[1..3] && s[18..20] == suffix[3..5];
      }
    }
  }

  /** A stamp with nothing after it reads as its fields with no zone. */
  lemma ReadPlain(st: string)
    requires IsStamp(st)
    ensures Reading(st) == Some((FieldsOf(st), NoZone))
  {
    ReadStamp(st, "");
    assert st + "" == st;
  }

  /** `Date.UTC` of the fields is the instant they name, once a two-digit year is moved to the 1900s. */
  lemma DateUtcInstant(f: Fields)
    ensures f.year >= 100 ==> Resolve(f, NoZone) == Instant(f) && Resolve(f, Utc) == Instant(f)
    ensures f.year < 100 ==> Resolve(f, NoZone) == Instant(f.(year := f.year + 1900))
  {
  }

  /**
    Round trip: for a year of four digits from 100 on, formatting the fields of an instant as
    `YYYYMMDDTHHMMSS`, with or without `Z`, and parsing gives back that instant.
  */
  lemma RoundTrip(f: Fields)
    requires Writable(f) && 100 <= f.year
    ensures ParseIcsTime(Format(f)) == Some(Instant(f))
    ensures ParseIcsTime(Format(f) + "Z") == Some(Instant(f))
  {
    FormatFields(f);
    ReadPlain(Format(f));
    ReadStamp(Format(f), "Z");
    DateUtcInstant(f);
  }

  /** Years 0 to 99 are read by `Date.UTC` as 1900 to 1999. */
  lemma TwoDigitYear(f: Fields)
    requires Writable(f) && f.year < 100
    ensures ParseIcsTime(Format(f)) == Some(Instant(f.(year := f.year + 1900)))
  {
    FormatFields(f);
    ReadPlain(Format(f));
    DateUtcInstant(f);
  }

  /**
    Whatever zone suffix follows a stamp, the instant is the reading of the bare stamp less the
    suffix's signed offset.
  */
  lemma SuffixShift(st: string, suffix: string)
    requires IsStamp(st)
    ensures ParseIcsTime(st).Some?
    ensures ParseIcsTime(st + suffix) == Some(ParseIcsTime(st).value - OffsetMs(ZoneAt(suffix, 0)))
  {
    ReadPlain(st);
    ReadStamp(st, suffix);
    ParseOf(st, FieldsOf(st), NoZone);
    ParseOf(st + suffix, FieldsOf(st), ZoneAt(suffix, 0));
  }

  /** The offset suffix `+hhmm` or `-hhmm`, hours and minutes zero-padded to two digits. */
  function OffsetText(plus: bool, hours: nat, minutes: nat): string {
    [if plus then '+' else '-'] + Pad(hours, 2) + Pad(minutes, 2)
  }

  /** A `+hhmm` or `-hhmm` suffix is read as that signed offset. */
  lemma ZoneOfSuffix(plus: bool, hours: nat, minutes: nat)
    requires hours < 100 && minutes < 100
    ensures ZoneAt(OffsetText(plus, hours, minutes), 0) == Offset(plus, hours, minutes)
  {
    var suffix := OffsetText(plus, hours, minutes);
    assert suffix[1..3] == Pad(hours, 2) && suffix[3..5] == Pad(minutes, 2);
    assert suffix[1..5] == Pad(hours, 2) + Pad(minutes, 2);
    PadValue(hours, 2);
    PadValue(minutes, 2);
  }

  /** `Z`, `+0000` and `-0000` are read as zones that shift nothing. */
  lemma ZeroZones()
    ensures ZoneAt("Z", 0) == Utc && OffsetMs(Utc) == 0
    ensures ZoneAt("+0000", 0) == Offset(true, 0, 0) && OffsetMs(Offset(true, 0, 0)) == 0
    ensures ZoneAt("-0000", 0) == Offset(false, 0, 0) && OffsetMs(Offset(false, 0, 0)) == 0
  {
    DoubleZero();
    assert "+0000"[1..5] == "0000" && "+0000"[1..3] == "00" && "+0000"[3..5] == "00";
    assert "-0000"[1..5] == "0000" && "-0000"[1..3] == "00" && "-0000"[3..5] == "00";
  }

  lemma DoubleZero()
    ensures Value("00") == 0
  {
    assert "00"[..1] == "0";
    assert "0"[..0] == "";
  }

  /** A suffix read as a zero shift gives the instant of the bare stamp. */
  lemma NoShift(st: string, suffix: string)
    requires IsStamp(st) && OffsetMs(ZoneAt(suffix, 0)) == 0
    ensures ParseIcsTime(st + suffix) == ParseIcsTime(st)
  {
    SuffixShift(st, suffix);
  }

  /** `+0000` and `-0000` name the same instant as `Z` and as no suffix at all. */
  lemma ZeroOffset(st: string)
    requires IsStamp(st)
    ensures ParseIcsTime(st + "+0000") == ParseIcsTime(st)
    ensures ParseIcsTime(st + "-0000") == ParseIcsTime(st)
    ensures ParseIcsTime(st + "Z") == ParseIcsTime(st)
  {
    ZeroZones();
    NoShift(st, "+0000");
    NoShift(st, "-0000");
    NoShift(st, "Z");
  }

  /** DayFromYear's three quotients step up exactly at years divisible by 4, 100 and 400. */
  lemma Leap4(y: int)
    ensures (y + 1 - 1969) / 4 - (y - 1969) / 4 == (if y % 4 == 0 then 1 else 0)
  {
  }

  lemma Leap100(y: int)
    ensures (y + 1 - 1901) / 100 - (y - 1901) / 100 == (if y % 100 == 0 then 1 else 0)
  {
  }

  /** DayFromYear's three quotients step up exactly at years divisible by 4, 100 and 400. */
  lemma Leap400(y: int)
    ensures (y + 1 - 1601) / 400 - (y - 1601) / 400 == (if y % 400 == 0 then 1 else 0)
  {
  }

  /** DayFromYear counts the days of each year: 366 in a leap year, 365 otherwise. */
  lemma YearLength(y: int)
    ensures DayFromYear(y + 1) == DayFromYear(y) + DaysInYear(y)
  {
    Leap4(y);
    Leap100(y);
    Leap400(y);
    LeapNesting(y);
    var d4 := (y + 1 - 1969) / 4 - (y - 1969) / 4;
    var d100 := (y + 1 - 1901) / 100 - (y - 1901) / 100;
    var d400 := (y + 1 - 1601) / 400 - (y - 1601) / 400;
    assert 365 * (y + 1 - 1970) == 365 * (y - 1970) + 365;
    assert DayFromYear(y + 1) == DayFromYear(y) + 365 + d4 - d100 + d400;
    assert DaysInYear(y) == 365 + d4 - d100 + d400;
  }

  /** A year divisible by 400 is divisible by 100, and one divisible by 100 is divisible by 4. */
  lemma LeapNesting(y: int)
    ensures y % 400 == 0 ==> y % 100 == 0
    ensures y % 100 == 0 ==> y % 4 == 0
  {
    if y % 400 == 0 {
      var q := y / 400;
      assert y == 100 * (4 * q);
      var e := 4 * q - y / 100;
      assert 100 * e == y % 100;
      assert e == 0;
    }
    if y % 100 == 0 {
      var q := y / 100;
      assert y == 4 * (25 * q);
      var e := 25 * q - y / 4;
      assert 4 * e == y % 4;
      assert e == 0;
    }
  }

  /** The calendar day after `f`, at the same time of day. */
  function NextDay(f: Fields): (g: Fields)
    requires ValidFields(f)
    ensures ValidFields(g)
  {
    if f.day < DaysInMonth(f.year, f.month - 1) then f.(day := f.day + 1)
    else if f.month < 12 then f.(month := f.month + 1, day := 1)
    else f.(year := f.year + 1, month := 1, day := 1)
  }

  /** MakeDay of a month within the year: no whole years to carry. */
  lemma MakeDayInYear(y: int, m: int, d: int)
    requires 0 <= m < 12
    ensures MakeDay(y, m, d) == DayFromYear(y) + MonthStart(y, m) + d - 1
  {
    assert m / 12 == 0 && m % 12 == m;
  }

  /** Days before December: 334, or 335 in a leap year. */
  lemma December(y: int)
    ensures MonthStart(y, 11) == if IsLeap(y) then 335 else 334
  {
    var leap := if IsLeap(y) then 1 else 0;
    assert MonthStart(y, 1) == 31;
    assert MonthStart(y, 2) == 59 + leap;
    assert MonthStart(y, 3) == 90 + leap;
    assert MonthStart(y, 4) == 120 + leap;
    assert MonthStart(y, 5) == 151 + leap;
    assert MonthStart(y, 6) == 181 + leap;
    assert MonthStart(y, 7) == 212 + leap;
    assert MonthStart(y, 8) == 243 + leap;
    assert MonthStart(y, 9) == 273 + leap;
    assert MonthStart(y, 10) == 304 + leap;
  }

  /** MakeDay moves on by one day to the next date, across month ends and year ends. */
  lemma DayStep(y: int, m: int, d: int)
    requires 0 <= m < 12 && 1 <= d <= DaysInMonth(y, m)
    ensures d < DaysInMonth(y, m) ==> MakeDay(y, m, d + 1) == MakeDay(y, m, d) + 1
    ensures d == DaysInMonth(y, m) && m < 11 ==> MakeDay(y, m + 1, 1) == MakeDay(y, m, d) + 1
    ensures d == DaysInMonth(y, m) && m == 11 ==> MakeDay(y + 1, 0, 1) == MakeDay(y, m, d) + 1
  {
    MakeDayInYear(y, m, d);
    if d < DaysInMonth(y, m) {
      MakeDayInYear(y, m, d + 1);
    } else if m < 11 {
      MakeDayInYear(y, m + 1, 1);
    } else {
      MakeDayInYear(y + 1, 0, 1);
      YearLength(y);
      December(y);
    }
  }

  /**
    The day count agrees with the calendar: the next calendar day is the next day number, across
    month ends, year ends and February 29. With Epoch this fixes DayNumber on every valid date.
  */
  lemma NextDayNumber(f: Fields)
    requires ValidFields(f)
    ensures DayNumber(NextDay(f)) == DayNumber(f) + 1
  {
    var m := f.month - 1;
    DayStep(f.year, m, f.day);
    if f.day < DaysInMonth(f.year, m) {
      assert NextDay(f) == f.(day := f.day + 1);
    } else if m < 11 {
      assert NextDay(f) == f.(month := f.month + 1, day := 1);
    } else {
      assert NextDay(f) == f.(year := f.year + 1, month := 1, day := 1);
    }
  }

  /** The epoch: 1970-01-01 is day 0. */
  lemma Epoch()
    ensures DayNumber(Fields(1970, 1, 1, 0, 0, 0)) == 0
  {
    assert MakeDay(1970, 0, 1) == 0;
    var f := Fields(1970, 1, 1, 0, 0, 0);
    assert f.year == 1970 && f.month - 1 == 0 && f.day == 1;
  }
}
