/** Printing and reading dates and datetimes (crates/elyra-core/src/datetime.rs). */
module DateText {
  import opened Wrappers
  import opened Calendar
  import opened Digits
  import opened Products
  import opened Texts

  // -------------------------------------------------------------------- reading

  function ParseDate(text: string): Option<int> {
    match Cut(Trim(text), {'-'})
    case None => None
    case Some((y, rest)) =>
      match Cut(rest, {'-'})
      case None => None
      case Some((m, d)) => DateFromFields(ParseI64(y), ParseU32(m), ParseU32(d))
  }

  function DateFromFields(year: Option<int>, month: Option<int>, day: Option<int>): Option<int> {
    var y :- year;
    var m :- month;
    var d :- day;
    if !(0 <= y <= 9999) || !(1 <= m <= 12) || d < 1 || d > MonthLength(y, m) then None
    else
      var days := DaysFromCivil(Civil(y, m, d));
      if -0x8000_0000 <= days < 0x8000_0000 then Some(days) else None
  }

  /** Checked 64-bit arithmetic. */
  function Checked(n: int): Option<int> {
    if -0x8000_0000_0000_0000 <= n < 0x8000_0000_0000_0000 then Some(n) else None
  }

  function ParseDatetime(text: string): Option<int> {
    var s := Trim(text);
    match Cut(s, {' ', 'T'})
    case None => DayMicros(ParseDate(s))
    case Some((d, t)) =>
      var start :- DayMicros(ParseDate(d));
      WithTime(start, t)
  }

  function DayMicros(days: Option<int>): Option<int> {
    var n :- days;
    var secs :- Checked(n * 86_400);
    Checked(secs * 1_000_000)
  }

  function WithTime(micros: int, t: string): Option<int> {
    match Cut(t, {'.'})
    case None => WithClock(micros, t)
    case Some((hms, frac)) =>
      var whole :- WithClock(micros, hms);
      WithFraction(whole, frac)
  }

  function WithClock(micros: int, hms: string): Option<int> {
    match Cut(hms, {':'})
    case None => WithFields(micros, ParseI64(hms), Some(0), Some(0))
    case Some((h, rest)) =>
      match Cut(rest, {':'})
      case None => WithFields(micros, ParseI64(h), ParseI64(rest), Some(0))
      case Some((mi, se)) => WithFields(micros, ParseI64(h), ParseI64(mi), ParseI64(se))
  }

  function WithFields(micros: int, hour: Option<int>, minute: Option<int>, second: Option<int>): Option<int> {
    var h :- hour;
    var mi :- minute;
    var se :- second;
    if !(0 <= h <= 23) || !(0 <= mi <= 59) || !(0 <= se <= 59) then None
    else Checked(micros + (h * 3_600 + mi * 60 + se) * 1_000_000)
  }

  /** At most six digits, read as if padded on the right to six. */
  function WithFraction(micros: int, frac: string): Option<int> {
    var f := if |frac| < 6 then frac + Zeros(6 - |frac|) else frac[..6];
    var n :- ParseI64(f);
    Checked(micros + n)
  }

  // ------------------------------------------------------------------- printing

  function Signed(n: int, width: nat): string
    requires width >= 1
  {
    if n >= 0 then Padded(Decimal(n), width) else "-" + Padded(Decimal(-n), width - 1)
  }

  function DateString(date: Civil): string
    requires 0 <= date.month && 0 <= date.day
  {
    Signed(date.year, 4) + "-" + (Padded(Decimal(date.month), 2) + "-" + Padded(Decimal(date.day), 2))
  }

  function FormatDate(days: int): string {
    var date := CivilFromDays(days);
    DaysOfCivil(days);
    DateString(date)
  }

  function ClockString(tod: nat): string {
    FieldsString(tod / 3600, tod % 3600 / 60, tod % 60)
  }

  function FieldsString(h: nat, mi: nat, se: nat): string {
    Padded(Decimal(h), 2) + ":" + (Padded(Decimal(mi), 2) + ":" + Padded(Decimal(se), 2))
  }

  function FormatDatetime(micros: int): string {
    var secs, frac := micros / 1_000_000, micros % 1_000_000;
    var date := FormatDate(secs / 86_400) + " ";
    if frac == 0 then date + ClockString(secs % 86_400)
    else date + (ClockString(secs % 86_400) + "." + Padded(Decimal(frac), 6))
  }

  // ---------------------------------------------------------------- round trips

  /** No space and no date-time separator anywhere. */
  ghost predicate Clean(s: string) {
    forall i :: 0 <= i < |s| ==> s[i] != 'T' && !IsSpace(s[i])
  }

  lemma {:induction false} CleanConcat(a: string, b: string)
    requires Clean(a) && Clean(b)
    ensures Clean(a + b)
  {
  }

  /** A padded number holds no separator, and reads back in either integer type it fits. */
  lemma {:induction false} Field(n: nat, width: nat)
    requires width >= 1
    ensures
      var f := Padded(Decimal(n), width);
      && f != "" && AllDigits(f) && Clean(f)
      && (forall i :: 0 <= i < |f| ==> f[i] !in {'-', ':', '.'})
      && ParseI64(f) == (if n <= 0x7fff_ffff_ffff_ffff then Some(n) else None)
      && ParseU32(f) == (if n <= 0xffff_ffff then Some(n) else None)
  {
    PaddedNumber(n, width);
    var f := Padded(Decimal(n), width);
    forall i | 0 <= i < |f| ensures f[i] !in {'-', ':', '.', 'T'} && !IsSpace(f[i]) {
      assert IsDigit(f[i]);
    }
    ParseDigits(f, -0x8000_0000_0000_0000, 0x7fff_ffff_ffff_ffff);
    ParseDigits(f, 0, 0xffff_ffff);
  }

  lemma {:induction false} TwoCuts(a: string, b: string, c: string, sep: char)
    requires (forall i :: 0 <= i < |a| ==> a[i] != sep) && (forall i :: 0 <= i < |b| ==> b[i] != sep)
    ensures Cut(a + [sep] + (b + [sep] + c), {sep}) == Some((a, b + [sep] + c))
    ensures Cut(b + [sep] + c, {sep}) == Some((b, c))
  {
    CutAt(a, sep, b + [sep] + c, {sep});
    CutAt(b, sep, c, {sep});
  }

  lemma {:induction false} Joined(a: string, c: char, b: string)
    requires Clean(a) && Clean(b) && c != 'T' && !IsSpace(c)
    ensures Clean(a + [c] + b)
  {
    CleanConcat(a, [c]);
    CleanConcat(a + [c], b);
  }

  lemma {:induction false} SignedClean(n: int)
    ensures Clean(Signed(n, 4))
  {
    if n >= 0 {
      Field(n, 4);
    } else {
      Field(-n, 3);
      CleanConcat("-", Padded(Decimal(-n), 3));
    }
  }

  lemma {:induction false} DateStringClean(date: Civil)
    requires 0 <= date.month && 0 <= date.day
    ensures DateString(date) != "" && Clean(DateString(date))
  {
    Field(date.month, 2);
    Field(date.day, 2);
    SignedClean(date.year);
    var md := Padded(Decimal(date.month), 2) + "-" + Padded(Decimal(date.day), 2);
    Joined(Padded(Decimal(date.month), 2), '-', Padded(Decimal(date.day), 2));
    Joined(Signed(date.year, 4), '-', md);
  }

  lemma {:induction false} ParseYear(y: int, rest: string)
    requires y < 0
    ensures ParseDate(Signed(y, 4) + rest) == None || Trim(Signed(y, 4) + rest) != Signed(y, 4) + rest
  {
    var s := Signed(y, 4) + rest;
    CutAt("", '-', s[1..], {'-'});
    assert "" + "-" + s[1..] == s;
  }

  lemma {:induction false} ParseDateFields(y: nat, m: nat, d: nat)
    ensures
      var t := Padded(Decimal(y), 4) + "-" + (Padded(Decimal(m), 2) + "-" + Padded(Decimal(d), 2));
      Trim(t) == t ==>
        ParseDate(t) == DateFromFields(ParseI64(Padded(Decimal(y), 4)), ParseU32(Padded(Decimal(m), 2)),
                                       ParseU32(Padded(Decimal(d), 2)))
  {
    Field(y, 4);
    Field(m, 2);
    TwoCuts(Padded(Decimal(y), 4), Padded(Decimal(m), 2), Padded(Decimal(d), 2), '-');
  }

  lemma {:induction false} DateFieldsRead(date: Civil, y: Option<int>)
    requires Valid(date)
    requires y == Some(date.year) || (y == None && date.year > 9999)
    ensures DateFromFields(y, Some(date.month), Some(date.day)) ==
            if 0 <= date.year <= 9999 then Some(DaysFromCivil(date)) else None
  {
    if 0 <= date.year <= 9999 {
      DaysBounded(date);
      assert date == Civil(date.year, date.month, date.day);
    }
  }

  lemma {:induction false} ParseDateString(date: Civil)
    requires Valid(date)
    ensures ParseDate(DateString(date)) == if 0 <= date.year <= 9999 then Some(DaysFromCivil(date)) else None
  {
    var s := DateString(date);
    DateStringClean(date);
    TrimEnds(s);
    var rest := "-" + (Padded(Decimal(date.month), 2) + "-" + Padded(Decimal(date.day), 2));
    if date.year < 0 {
      ParseYear(date.year, rest);
      AssociateDate(date, rest);
    } else {
      Field(date.year, 4);
      Field(date.month, 2);
      Field(date.day, 2);
      var y := ParseI64(Padded(Decimal(date.year), 4));
      DateFieldsRead(date, y);
      ParseDateFields(date.year, date.month, date.day);
      assert ParseDate(s) == DateFromFields(y, Some(date.month), Some(date.day));
    }
  }

  lemma {:induction false} AssociateDate(date: Civil, rest: string)
    requires 0 <= date.month && 0 <= date.day
    requires rest == "-" + (Padded(Decimal(date.month), 2) + "-" + Padded(Decimal(date.day), 2))
    ensures DateString(date) == Signed(date.year, 4) + rest
  {
  }

  /** A printed date reads back exactly when its year is one the reader takes; otherwise reading fails. */
  lemma {:induction false} DateRoundTrip(days: int)
    ensures ParseDate(FormatDate(days)) == if 0 <= CivilFromDays(days).year <= 9999 then Some(days) else None
  {
    DaysOfCivil(days);
    ParseDateString(CivilFromDays(days));
  }

  ghost predicate NoPoint(s: string) {
    forall i :: 0 <= i < |s| ==> s[i] != '.'
  }

  lemma {:induction false} NoPointConcat(a: string, b: string)
    requires NoPoint(a) && NoPoint(b)
    ensures NoPoint(a + b)
  {
  }

  lemma {:induction false} NoPointJoined(a: string, b: string)
    requires NoPoint(a) && NoPoint(b)
    ensures NoPoint(a + ":" + b)
  {
    NoPointConcat(a, ":");
    NoPointConcat(a + ":", b);
  }

  lemma {:induction false} FieldPlain(n: nat)
    ensures Padded(Decimal(n), 2) != "" && Clean(Padded(Decimal(n), 2)) && NoPoint(Padded(Decimal(n), 2))
  {
    Field(n, 2);
  }

  lemma {:induction false} JoinedPlain(a: string, b: string, c: string)
    requires a != "" && Clean(a) && Clean(b) && Clean(c) && NoPoint(a) && NoPoint(b) && NoPoint(c)
    ensures
      var s := a + ":" + (b + ":" + c);
      s != "" && Clean(s) && NoPoint(s)
  {
    Joined(b, ':', c);
    Joined(a, ':', b + ":" + c);
    NoPointJoined(b, c);
    NoPointJoined(a, b + ":" + c);
  }

  lemma {:induction false} FieldsPlain(h: nat, mi: nat, se: nat)
    ensures
      var c := FieldsString(h, mi, se);
      c != "" && Clean(c) && NoPoint(c)
  {
    FieldPlain(h);
    FieldPlain(mi);
    FieldPlain(se);
    JoinedPlain(Padded(Decimal(h), 2), Padded(Decimal(mi), 2), Padded(Decimal(se), 2));
  }

  lemma {:induction false} FieldsRead(start: int, h: nat, mi: nat, se: nat)
    requires h <= 23 && mi <= 59 && se <= 59
    ensures WithClock(start, FieldsString(h, mi, se)) == WithFields(start, Some(h), Some(mi), Some(se))
  {
    Field(h, 2);
    Field(mi, 2);
    Field(se, 2);
    TwoCuts(Padded(Decimal(h), 2), Padded(Decimal(mi), 2), Padded(Decimal(se), 2), ':');
  }

  /** A clock text: no space and no point, and it reads as its seconds whatever day it is added to. */
  ghost predicate Reads(clock: string, tod: nat) {
    && clock != "" && Clean(clock)
    && NoPoint(clock)
    && forall start :: WithClock(start, clock) == Checked(start + tod * 1_000_000)
  }

  lemma {:induction false} FieldsReads(h: nat, mi: nat, se: nat, tod: nat)
    requires h <= 23 && mi <= 59 && se <= 59 && tod == h * 3600 + mi * 60 + se
    ensures Reads(FieldsString(h, mi, se), tod)
  {
    FieldsPlain(h, mi, se);
    forall start ensures WithClock(start, FieldsString(h, mi, se)) == Checked(start + tod * 1_000_000) {
      FieldsRead(start, h, mi, se);
      ClockFields(start, h, mi, se);
    }
  }

  lemma {:induction false} ClockReads(tod: nat)
    requires tod < 86_400
    ensures Reads(ClockString(tod), tod)
  {
    FieldsReads(tod / 3600, tod % 3600 / 60, tod % 60, tod);
  }

  lemma {:induction false} ClockFields(start: int, h: int, mi: int, se: int)
    requires 0 <= h <= 23 && 0 <= mi <= 59 && 0 <= se <= 59
    ensures WithFields(start, Some(h), Some(mi), Some(se)) == Checked(start + (h * 3600 + mi * 60 + se) * 1_000_000)
  {
  }

  lemma {:induction false} FractionReads(whole: int, frac: nat)
    requires frac < 1_000_000
    ensures WithFraction(whole, Padded(Decimal(frac), 6)) == Checked(whole + frac)
  {
    assert Pow10(6) == 1_000_000 by {
      assert Pow10(2) == 100 && Pow10(4) == 10_000;
    }
    PaddedNumber(frac, 6);
    Field(frac, 6);
    var f := Padded(Decimal(frac), 6);
    assert f[..6] == f;
  }

  /** The time part, as printed. */
  function TimeString(clock: string, frac: nat): string {
    if frac == 0 then clock else clock + "." + Padded(Decimal(frac), 6)
  }

  ghost predicate Fits(n: int) {
    -0x8000_0000_0000_0000 <= n < 0x8000_0000_0000_0000
  }

  lemma {:induction false} TimeReads(start: int, clock: string, tod: nat, frac: nat)
    requires frac < 1_000_000 && Reads(clock, tod)
    requires Fits(start + tod * 1_000_000) && Fits(start + tod * 1_000_000 + frac)
    ensures WithTime(start, TimeString(clock, frac)) == Some(start + tod * 1_000_000 + frac)
  {
    assert WithClock(start, clock) == Some(start + tod * 1_000_000);
    if frac == 0 {
      CutNone(clock, {'.'});
    } else {
      PointReads(start, clock, start + tod * 1_000_000, frac);
    }
  }

  lemma {:induction false} PointReads(start: int, clock: string, whole: int, frac: nat)
    requires frac < 1_000_000 && WithClock(start, clock) == Some(whole) && Fits(whole + frac)
    requires NoPoint(clock)
    ensures WithTime(start, clock + "." + Padded(Decimal(frac), 6)) == Some(whole + frac)
  {
    CutAt(clock, '.', Padded(Decimal(frac), 6), {'.'});
    FractionReads(whole, frac);
  }

  lemma {:induction false} TimeStringClean(clock: string, frac: nat)
    requires clock != "" && Clean(clock)
    ensures TimeString(clock, frac) != "" && Clean(TimeString(clock, frac))
  {
    if frac != 0 {
      Field(frac, 6);
      Joined(clock, '.', Padded(Decimal(frac), 6));
    }
  }

  lemma {:induction false} SplitDatetime(date: string, time: string)
    requires date != "" && time != "" && Clean(date) && Clean(time)
    ensures Trim(date + " " + time) == date + " " + time
    ensures Cut(date + " " + time, {' ', 'T'}) == Some((date, time))
  {
    var s := date + " " + time;
    assert s[0] == date[0] && s[|s| - 1] == time[|time| - 1];
    TrimEnds(s);
    CutAt(date, ' ', time, {' ', 'T'});
  }

  /** The years the reader takes. */
  predicate ReadableYear(days: int) {
    0 <= CivilFromDays(days).year <= 9999
  }

  /** The day a moment falls in. */
  function DayOfMicros(micros: int): int {
    micros / 1_000_000 / 86_400
  }

  lemma {:induction false} StartReads(days: int)
    requires -1_000_000 < days < 3_000_000
    ensures DayMicros(Some(days)) == Some(days * 86_400 * 1_000_000)
  {
  }

  lemma {:induction false} DatetimeReads(date: string, days: int, clock: string, tod: nat, frac: nat)
    requires date != "" && Clean(date) && Reads(clock, tod)
    requires tod < 86_400 && frac < 1_000_000
    requires ParseDate(date) == None || (ParseDate(date) == Some(days) && -1_000_000 < days < 3_000_000)
    ensures ParseDatetime(date + " " + TimeString(clock, frac)) ==
            if ParseDate(date).Some? then Some(days * 86_400 * 1_000_000 + tod * 1_000_000 + frac) else None
  {
    TimeStringClean(clock, frac);
    SplitDatetime(date, TimeString(clock, frac));
    if ParseDate(date).Some? {
      StartReads(days);
      TimeReads(days * 86_400 * 1_000_000, clock, tod, frac);
    }
  }

  lemma {:induction false} DateReads(days: int)
    ensures FormatDate(days) != "" && Clean(FormatDate(days))
    ensures ParseDate(FormatDate(days)) == if ReadableYear(days) then Some(days) else None
    ensures ReadableYear(days) ==> -1_000_000 < days < 3_000_000
  {
    DaysOfCivil(days);
    DateStringClean(CivilFromDays(days));
    DateRoundTrip(days);
    if ReadableYear(days) { DaysBounded(CivilFromDays(days)); }
  }

  lemma {:induction false} DatetimeString(micros: int, days: int, tod: int, frac: int)
    requires days == DayOfMicros(micros) && tod == micros / 1_000_000 % 86_400 && frac == micros % 1_000_000
    ensures FormatDatetime(micros) == FormatDate(days) + " " + TimeString(ClockString(tod), frac)
    ensures micros == days * 86_400 * 1_000_000 + tod * 1_000_000 + frac
  {
  }

  /** A printed datetime reads back exactly when its year is 0 to 9999; otherwise reading fails. */
  lemma {:induction false} DatetimeRoundTrip(micros: int)
    ensures ParseDatetime(FormatDatetime(micros)) == if ReadableYear(DayOfMicros(micros)) then Some(micros) else None
  {
    var days, tod, frac := DayOfMicros(micros), micros / 1_000_000 % 86_400, micros % 1_000_000;
    DatetimeString(micros, days, tod, frac);
    DateReads(days);
    ClockReads(tod);
    DatetimeReads(FormatDate(days), days, ClockString(tod), tod, frac);
  }

  /** Whatever text is read as a date is a day of a valid date in years 0 to 9999, so it prints and reads back. */
  lemma {:induction false} ParseDateIsValid(text: string, days: int)
    requires ParseDate(text) == Some(days)
    ensures 0 <= CivilFromDays(days).year <= 9999
    ensures ParseDate(FormatDate(days)) == Some(days)
  {
    var (y, rest) := Cut(Trim(text), {'-'}).value;
    var (m, d) := Cut(rest, {'-'}).value;
    var date := Civil(ParseI64(y).value, ParseU32(m).value, ParseU32(d).value);
    CivilOfDays(date);
    DateRoundTrip(days);
  }

  // ------------------------------------------------------------------ what texts mean

  /** The digits of `s` from `lo` to `hi` are those of `n`. */
  ghost predicate Shows(s: string, lo: nat, hi: nat, n: int) {
    lo <= hi <= |s| && AllDigits(s[lo..hi]) && Number(s[lo..hi]) == n
  }

  lemma {:induction false} TwoDigits(n: nat)
    requires n < 100
    ensures
      var s := Padded(Decimal(n), 2);
      |s| == 2 && AllDigits(s) && Number(s) == n
  {
    assert Pow10(2) == 100;
    PaddedNumber(n, 2);
  }

  /** Four digits of the year, two of the month and two of the day, with hyphens between. */
  lemma {:induction false} DatePrints(days: int)
    requires ReadableYear(days)
    ensures
      var s, date := FormatDate(days), CivilFromDays(days);
      && |s| == 10 && s[4] == '-' && s[7] == '-'
      && Shows(s, 0, 4, date.year) && Shows(s, 5, 7, date.month) && Shows(s, 8, 10, date.day)
  {
    var s, date := FormatDate(days), CivilFromDays(days);
    DaysOfCivil(days);
    assert Pow10(4) == 10_000 by { assert Pow10(2) == 100; }
    PaddedNumber(date.year, 4);
    TwoDigits(date.month);
    TwoDigits(date.day);
    Laid(Padded(Decimal(date.year), 4), '-', Padded(Decimal(date.month), 2), Padded(Decimal(date.day), 2));
  }

  /** Where the parts of a date or a time stand. */
  lemma {:induction false} Laid(a: string, c: char, b: string, d: string)
    requires |b| == 2 && |d| == 2
    ensures
      var s, n := a + [c] + (b + [c] + d), |a|;
      && |s| == n + 6 && s[n] == c && s[n + 3] == c
      && s[0..n] == a && s[n + 1..n + 3] == b && s[n + 4..n + 6] == d
  {
  }

  /** Two digits each of the hour, the minute and the second, with colons between. */
  lemma {:induction false} ClockPrints(tod: nat, h: nat, mi: nat, se: nat)
    requires h < 24 && mi < 60 && se < 60 && tod == (h * 60 + mi) * 60 + se
    ensures
      var s := ClockString(tod);
      && |s| == 8 && s[2] == ':' && s[5] == ':'
      && Shows(s, 0, 2, h) && Shows(s, 3, 5, mi) && Shows(s, 6, 8, se)
  {
    ClockParts(tod, h, mi, se);
    TwoDigits(h);
    TwoDigits(mi);
    TwoDigits(se);
    Laid(Padded(Decimal(h), 2), ':', Padded(Decimal(mi), 2), Padded(Decimal(se), 2));
  }

  lemma {:induction false} ClockParts(tod: nat, h: nat, mi: nat, se: nat)
    requires h < 24 && mi < 60 && se < 60 && tod == (h * 60 + mi) * 60 + se
    ensures tod / 3600 == h && tod % 3600 / 60 == mi && tod % 60 == se
  {
  }

  /** A moment is printed as its date and, after a space, its time of day, with six places if it has a fraction. */
  lemma {:induction false} DatetimePrints(micros: int, days: int, tod: nat, frac: nat)
    requires tod < 24 * 60 * 60 && frac < 1_000_000
    requires micros == days * (24 * 60 * 60 * 1_000_000) + tod * 1_000_000 + frac
    ensures FractionShown(FormatDatetime(micros), FormatDate(days) + " " + ClockString(tod), frac)
  {
    MomentParts(micros, days, tod, frac);
    DatetimeString(micros, days, tod, frac);
    ShowFraction(FormatDate(days), ClockString(tod), frac);
  }

  lemma {:induction false} MomentParts(micros: int, days: int, tod: nat, frac: nat)
    requires tod < 86_400 && frac < 1_000_000 && micros == days * 86_400_000_000 + tod * 1_000_000 + frac
    ensures days == DayOfMicros(micros) && tod == micros / 1_000_000 % 86_400 && frac == micros % 1_000_000
  {
    var secs := days * 86_400 + tod;
    assert micros == secs * 1_000_000 + frac;
    assert micros / 1_000_000 == secs;
  }

  ghost predicate FractionShown(s: string, whole: string, frac: nat) {
    if frac == 0 then s == whole
    else |s| == |whole| + 7 && s[..|whole|] == whole && s[|whole|] == '.' && Shows(s, |whole| + 1, |whole| + 7, frac)
  }

  lemma {:induction false} ShowFraction(date: string, clock: string, frac: nat)
    requires frac < 1_000_000
    ensures FractionShown(date + " " + TimeString(clock, frac), date + " " + clock, frac)
  {
    if frac > 0 {
      SixDigits(frac);
      var whole, f := date + " " + clock, Padded(Decimal(frac), 6);
      var s := whole + ("." + f);
      assert date + " " + TimeString(clock, frac) == s;
      assert s[|whole| + 1..|whole| + 7] == f;
    }
  }

  lemma {:induction false} SixDigits(n: nat)
    requires n < 1_000_000
    ensures
      var s := Padded(Decimal(n), 6);
      |s| == 6 && AllDigits(s) && Number(s) == n
  {
    Million();
    PaddedNumber(n, 6);
  }

  /** Up to six digits, with zeros to make it six. */
  lemma {:induction false} PaddedFraction(frac: string, n: nat)
    requires AllDigits(frac) && |frac| <= 6 && n * Pow10(|frac|) == Number(frac) * 1_000_000
    ensures
      var f := frac + Zeros(6 - |frac|);
      |f| == 6 && AllDigits(f) && Number(f) == n
  {
    var k := 6 - |frac|;
    NumberConcat(frac, Zeros(k));
    NumberOfZeros(k);
    Pow10Add(|frac|, k);
    Million();
    SameFraction(Number(frac), Pow10(|frac|), Pow10(k), n);
  }

  lemma {:induction false} SameFraction(a: nat, p: nat, q: nat, n: nat)
    requires p > 0 && p * q == 1_000_000 && n * p == a * 1_000_000
    ensures a * q == n
  {
    assert (a * q) * p == a * (p * q);
    Cancel(a * q, n, p);
  }

  lemma {:induction false} Million()
    ensures Pow10(6) == 1_000_000
  {
    assert Pow10(2) == 100 && Pow10(4) == 10_000;
  }

  lemma {:induction false} SixRead(f: string)
    requires |f| == 6 && AllDigits(f)
    ensures ParseI64(f) == Some(Number(f))
  {
    NumberBound(f);
    Million();
    ParseDigits(f, -0x8000_0000_0000_0000, 0x7fff_ffff_ffff_ffff);
  }

  /** A fraction of up to six digits counts millionths; digits after the sixth are left out. */
  lemma {:induction false} FractionMeans(micros: int, frac: string, n: nat)
    requires AllDigits(frac)
    requires if |frac| <= 6 then n * Pow10(|frac|) == Number(frac) * 1_000_000 else n == Number(frac[..6])
    ensures WithFraction(micros, frac) ==
            if -0x8000_0000_0000_0000 <= micros + n <= 0x7fff_ffff_ffff_ffff then Some(micros + n) else None
  {
    if |frac| <= 6 {
      PaddedFraction(frac, n);
      SixRead(frac + Zeros(6 - |frac|));
      assert |frac| == 6 ==> frac + Zeros(0) == frac == frac[..6];
    } else {
      SixRead(frac[..6]);
    }
  }

  /** An hour alone, or an hour and a minute, are taken on the hour or on the minute. */
  lemma {:induction false} ShortClockMeans(micros: int, h: string, mi: string)
    requires h != "" && AllDigits(h) && mi != "" && AllDigits(mi)
    ensures WithClock(micros, h) == WithFields(micros, ParseI64(h), Some(0), Some(0))
    ensures WithClock(micros, h + ":" + mi) == WithFields(micros, ParseI64(h), ParseI64(mi), Some(0))
  {
    CutNone(h, {':'});
    CutNone(mi, {':'});
    CutAt(h, ':', mi, {':'});
  }

  /** A time of day counts if it has an hour below 24 and a minute and a second below 60, and its sum fits 64 bits. */
  lemma {:induction false} FieldsMean(micros: int, h: int, mi: int, se: int)
    ensures
      var sum := micros + ((h * 60 + mi) * 60 + se) * 1_000_000;
      WithFields(micros, Some(h), Some(mi), Some(se)) ==
      if 0 <= h < 24 && 0 <= mi < 60 && 0 <= se < 60 && -0x8000_0000_0000_0000 <= sum <= 0x7fff_ffff_ffff_ffff
      then Some(sum) else None
  {
  }

  /**
   * Three runs of digits with hyphens between are a date exactly if they are a year up to 9999, a month and a day of
   * that month; and then the day read is that day.
   */
  lemma {:induction false} DateMeans(y: string, m: string, d: string)
    requires y != "" && m != "" && d != "" && AllDigits(y) && AllDigits(m) && AllDigits(d)
    ensures
      var r, date := ParseDate(y + "-" + (m + "-" + d)), Civil(Number(y), Number(m), Number(d));
      (r.Some? <==> Valid(date) && date.year <= 9999) && (r.Some? ==> CivilFromDays(r.value) == date)
  {
    DateCut(y, m, d);
    ParseDigits(y, -0x8000_0000_0000_0000, 0x7fff_ffff_ffff_ffff);
    ParseDigits(m, 0, 0xffff_ffff);
    ParseDigits(d, 0, 0xffff_ffff);
    FieldsDate(Civil(Number(y), Number(m), Number(d)));
  }

  lemma {:induction false} DateCut(y: string, m: string, d: string)
    requires y != "" && m != "" && d != "" && AllDigits(y) && AllDigits(m) && AllDigits(d)
    ensures ParseDate(y + "-" + (m + "-" + d)) == DateFromFields(ParseI64(y), ParseU32(m), ParseU32(d))
  {
    var s := y + "-" + (m + "-" + d);
    assert s[0] == y[0] && s[|s| - 1] == d[|d| - 1];
    TrimEnds(s);
    TwoCuts(y, m, d, '-');
  }

  lemma {:induction false} FieldsDate(date: Civil)
    requires date.year >= 0
    ensures
      var r := DateFromFields(Some(date.year), Some(date.month), Some(date.day));
      (r.Some? <==> Valid(date) && date.year <= 9999) && (r.Some? ==> CivilFromDays(r.value) == date)
  {
    if Valid(date) && date.year <= 9999 {
      CivilOfDays(date);
      DaysBounded(date);
    }
  }
}
