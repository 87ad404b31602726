/**
 Rebuilding a UTC timestamp from a device's local date and time and the UTC
 time of day in the same report.
 */
module UtcTime {
  import opened Common

  // ------------------------------------------------------------------
  // The calendar
  // ------------------------------------------------------------------

  datatype Date = Date(year: int, month: int, day: int)

  predicate IsLeap(year: int) {
    year % 4 == 0 && (year % 100 != 0 || year % 400 == 0)
  }

  function DaysIn(year: int, month: int): int {
    if month == 2 then (if IsLeap(year) then 29 else 28)
    else if month == 4 || month == 6 || month == 9 || month == 11 then 30
    else 31
  }

  predicate ValidDate(d: Date) {
    1 <= d.month <= 12 && 1 <= d.day <= DaysIn(d.year, d.month)
  }

  function NextDay(d: Date): Date {
    if d.day < DaysIn(d.year, d.month) then d.(day := d.day + 1)
    else if d.month < 12 then Date(d.year, d.month + 1, 1)
    else Date(d.year + 1, 1, 1)
  }

  function PreviousDay(d: Date): Date {
    if d.day > 1 then d.(day := d.day - 1)
    else if d.month > 1 then Date(d.year, d.month - 1, DaysIn(d.year, d.month - 1))
    else Date(d.year - 1, 12, 31)
  }

  function DaysBeforeYear(year: int): int {
    365 * year + (year + 3) / 4 - (year + 99) / 100 + (year + 399) / 400
  }

  function DaysBeforeMonth(year: int, month: int): int
    requires 1 <= month <= 12
    decreases month
  {
    if month == 1 then 0 else DaysBeforeMonth(year, month - 1) + DaysIn(year, month - 1)
  }

  /** A day count: consecutive days have consecutive numbers. */
  function Ordinal(d: Date): int
    requires ValidDate(d)
  {
    DaysBeforeYear(d.year) + DaysBeforeMonth(d.year, d.month) + d.day
  }

  lemma YearLength(year: int)
    ensures DaysBeforeMonth(year, 12) + 31 == if IsLeap(year) then 366 else 365
    ensures DaysBeforeYear(year + 1) == DaysBeforeYear(year) + DaysBeforeMonth(year, 12) + 31
  {
    MonthSums(year);
    LeapDays(year);
  }

  lemma MonthSums(year: int)
    ensures DaysBeforeMonth(year, 12) + 31 == if IsLeap(year) then 366 else 365
  {
    var feb := DaysIn(year, 2);
    assert DaysBeforeMonth(year, 2) == 31;
    assert DaysBeforeMonth(year, 3) == 31 + feb;
    assert DaysBeforeMonth(year, 4) == 62 + feb;
    assert DaysBeforeMonth(year, 5) == 92 + feb;
    assert DaysBeforeMonth(year, 6) == 123 + feb;
    assert DaysBeforeMonth(year, 7) == 153 + feb;
    assert DaysBeforeMonth(year, 8) == 184 + feb;
    assert DaysBeforeMonth(year, 9) == 215 + feb;
    assert DaysBeforeMonth(year, 10) == 245 + feb;
    assert DaysBeforeMonth(year, 11) == 276 + feb;
    assert DaysBeforeMonth(year, 12) == 306 + feb;
  }

  lemma LeapDays(year: int)
    ensures DaysBeforeYear(year + 1) - DaysBeforeYear(year) == if IsLeap(year) then 366 else 365
  {
    Every4(year);
    Every100(year);
    Every400(year);
    Centuries(year);
  }

  lemma Every4(year: int)
    ensures (year + 4) / 4 - (year + 3) / 4 == if year % 4 == 0 then 1 else 0
  {}

  lemma Every100(year: int)
    ensures (year + 100) / 100 - (year + 99) / 100 == if year % 100 == 0 then 1 else 0
  {}

  lemma Every400(year: int)
    ensures (year + 400) / 400 - (year + 399) / 400 == if year % 400 == 0 then 1 else 0
  {}

  lemma Centuries(year: int)
    ensures year % 400 == 0 ==> year % 100 == 0
    ensures year % 100 == 0 ==> year % 4 == 0
  {}

  lemma NextDayCounts(d: Date)
    requires ValidDate(d)
    ensures ValidDate(NextDay(d)) && Ordinal(NextDay(d)) == Ordinal(d) + 1
    ensures PreviousDay(NextDay(d)) == d
  {
    YearLength(d.year);
    if d.day == DaysIn(d.year, d.month) && d.month < 12 {
      assert DaysBeforeMonth(d.year, d.month + 1) == DaysBeforeMonth(d.year, d.month) + DaysIn(d.year, d.month);
    }
  }

  lemma PreviousDayCounts(d: Date)
    requires ValidDate(d)
    ensures ValidDate(PreviousDay(d)) && Ordinal(PreviousDay(d)) == Ordinal(d) - 1
    ensures NextDay(PreviousDay(d)) == d
  {
    NextDayCounts(PreviousDay(d));
  }

  predicate Earlier(d: Date, e: Date) {
    d.year < e.year || (d.year == e.year && (d.month < e.month || (d.month == e.month && d.day < e.day)))
  }

  lemma {:induction false} MonthsGrow(year: int, m: int, n: int)
    requires 1 <= m <= n <= 12
    ensures DaysBeforeMonth(year, m) <= DaysBeforeMonth(year, n)
    ensures m < n ==> DaysBeforeMonth(year, m) + DaysIn(year, m) <= DaysBeforeMonth(year, n)
    decreases n
  {
    if m < n {
      MonthsGrow(year, m, n - 1);
    }
  }

  lemma {:induction false} YearsGrow(y: int, z: int)
    requires y < z
    ensures DaysBeforeYear(y) + DaysBeforeMonth(y, 12) + 31 <= DaysBeforeYear(z)
    decreases z - y
  {
    YearLength(y);
    if y + 1 < z {
      YearsGrow(y + 1, z);
      YearLength(y + 1);
    }
  }

  lemma LastOfYear(d: Date)
    requires ValidDate(d)
    ensures DaysBeforeMonth(d.year, d.month) + d.day <= DaysBeforeMonth(d.year, 12) + 31
    ensures 0 < DaysBeforeMonth(d.year, d.month) + d.day
  {
    MonthsGrow(d.year, d.month, 12);
    MonthsGrow(d.year, 1, d.month);
  }

  /** The day count orders dates as the calendar does, so it identifies them. */
  lemma OrdinalOrders(d: Date, e: Date)
    requires ValidDate(d) && ValidDate(e)
    ensures Earlier(d, e) <==> Ordinal(d) < Ordinal(e)
    ensures d == e <==> Ordinal(d) == Ordinal(e)
  {
    if Earlier(d, e) {
      EarlierCounts(d, e);
    } else if Earlier(e, d) {
      EarlierCounts(e, d);
    }
  }

  lemma EarlierCounts(d: Date, e: Date)
    requires ValidDate(d) && ValidDate(e) && Earlier(d, e)
    ensures Ordinal(d) < Ordinal(e)
  {
    if d.year < e.year {
      YearsGrow(d.year, e.year);
      LastOfYear(d);
      LastOfYear(e);
    } else if d.month < e.month {
      MonthsGrow(d.year, d.month, e.month);
    }
  }

  // ------------------------------------------------------------------
  // Clock readings
  // ------------------------------------------------------------------

  /** A date and time to the second, on whichever clock. */
  datatype Stamp = Stamp(date: Date, hour: int, minute: int, second: int)

  datatype TimeOfDay = TimeOfDay(hour: int, minute: int, second: int)

  predicate ValidTime(hour: int, minute: int, second: int) {
    0 <= hour < 24 && 0 <= minute < 60 && 0 <= second < 60
  }

  predicate ValidStamp(s: Stamp) {
    ValidDate(s.date) && ValidTime(s.hour, s.minute, s.second)
  }

  predicate ValidTimeOfDay(t: TimeOfDay) {
    ValidTime(t.hour, t.minute, t.second)
  }

  function TimeOf(s: Stamp): TimeOfDay {
    TimeOfDay(s.hour, s.minute, s.second)
  }

  /** Whole minutes since the start of the day count. */
  function Minutes(s: Stamp): int
    requires ValidDate(s.date)
  {
    Ordinal(s.date) * 1440 + s.hour * 60 + s.minute
  }

  lemma StampDetermined(s: Stamp, t: Stamp)
    requires ValidStamp(s) && ValidStamp(t)
    ensures s == t <==> Minutes(s) == Minutes(t) && s.second == t.second
  {
    if Minutes(s) == Minutes(t) && s.second == t.second {
      assert Ordinal(s.date) == Minutes(s) / 1440 && Ordinal(t.date) == Minutes(t) / 1440;
      OrdinalOrders(s.date, t.date);
    }
  }

  /** `s - timedelta(minutes=offset)` for offsets of less than a day. */
  function MinusMinutes(s: Stamp, offset: int): Stamp
    requires ValidStamp(s) && -1440 < offset < 1440
  {
    var m := s.hour * 60 + s.minute - offset;
    if m < 0 then Stamp(PreviousDay(s.date), (m + 1440) / 60, (m + 1440) % 60, s.second)
    else if m >= 1440 then Stamp(NextDay(s.date), (m - 1440) / 60, (m - 1440) % 60, s.second)
    else Stamp(s.date, m / 60, m % 60, s.second)
  }

  lemma MinusMinutesCounts(s: Stamp, offset: int)
    requires ValidStamp(s) && -1440 < offset < 1440
    ensures ValidStamp(MinusMinutes(s, offset))
    ensures Minutes(MinusMinutes(s, offset)) == Minutes(s) - offset
  {
    NextDayCounts(s.date);
    PreviousDayCounts(s.date);
  }

  // ------------------------------------------------------------------
  // The reconstruction
  // ------------------------------------------------------------------

  /** `offset` moved by whole days into the half-open day (-720, 720]. */
  function Wrap(offset: int): int
    requires -1440 < offset < 1440
  {
    if offset > 720 then offset - 1440 else if offset <= -720 then offset + 1440 else offset
  }

  function Resolve(local: Stamp, utc: TimeOfDay): Stamp
    requires ValidStamp(local) && ValidTimeOfDay(utc)
  {
    var offset := Wrap(local.hour * 60 + local.minute - (utc.hour * 60 + utc.minute));
    MinusMinutes(local, offset).(second := utc.second)
  }

  method WrapOffset(initial: int) returns (offset: int)
    ensures -720 < offset <= 720
    ensures (offset - initial) % 1440 == 0
    ensures -1440 < initial < 1440 ==> offset == Wrap(initial)
  {
    offset := initial;
    while offset > 720
      invariant (offset - initial) % 1440 == 0
      invariant offset == initial || (-720 < offset < initial)
      decreases offset
    {
      offset := offset - 1440;
    }
    while offset <= -720
      invariant (offset - initial) % 1440 == 0
      invariant offset == initial || (offset <= 720 && initial < offset) || (-720 < offset <= 720)
      decreases -offset
    {
      offset := offset + 1440;
    }
  }

  /** How far the reconstructed instant lies behind the local clock's minute. */
  function Lag(local: Stamp, instant: Stamp): int
    requires ValidDate(local.date) && ValidDate(instant.date)
  {
    Minutes(local) - Minutes(instant)
  }

  ghost predicate Matches(local: Stamp, utc: TimeOfDay, instant: Stamp)
    requires ValidStamp(local)
  {
    && ValidStamp(instant)
    && TimeOf(instant) == utc
    && -720 < Lag(local, instant) <= 720
  }

  /** Minutes of the day that differ by whole days are the same hour and minute. */
  lemma SameMinuteOfDay(s: Stamp, utc: TimeOfDay, days: int)
    requires ValidStamp(s) && ValidTimeOfDay(utc)
    requires s.hour * 60 + s.minute - (utc.hour * 60 + utc.minute) == 1440 * days
    ensures s.hour == utc.hour && s.minute == utc.minute
  {
    assert -1440 < 1440 * days < 1440;
    assert days == 0;
    assert 60 * (s.hour - utc.hour) == utc.minute - s.minute;
  }

  lemma ResolveMatches(local: Stamp, utc: TimeOfDay)
    requires ValidStamp(local) && ValidTimeOfDay(utc)
    ensures Matches(local, utc, Resolve(local, utc))
  {
    hide Ordinal, MinusMinutes, ValidDate;
    var raw := local.hour * 60 + local.minute - (utc.hour * 60 + utc.minute);
    var offset := Wrap(raw);
    var wrapped := if raw > 720 then -1 else if raw <= -720 then 1 else 0;
    var shifted := MinusMinutes(local, offset);
    MinusMinutesCounts(local, offset);
    SameMinuteOfDay(shifted, utc, Ordinal(local.date) - Ordinal(shifted.date) - wrapped);
  }

  lemma MatchesOnce(local: Stamp, utc: TimeOfDay, s: Stamp, t: Stamp)
    requires ValidStamp(local) && Matches(local, utc, s) && Matches(local, utc, t)
    ensures s == t
  {
    hide Ordinal, ValidDate;
    var days := Ordinal(s.date) - Ordinal(t.date);
    assert Minutes(s) - Minutes(t) == 1440 * days;
    StampDetermined(s, t);
  }

  /**
   The result has the reported UTC time of day and lies within half a day of
   the local minute, and it is the only instant that does.
   */
  lemma ResolveUnique(local: Stamp, utc: TimeOfDay, instant: Stamp)
    requires ValidStamp(local) && ValidTimeOfDay(utc)
    ensures Matches(local, utc, instant) <==> instant == Resolve(local, utc)
  {
    hide Matches, Resolve, ValidDate;
    ResolveMatches(local, utc);
    if Matches(local, utc, instant) {
      MatchesOnce(local, utc, instant, Resolve(local, utc));
    }
  }

  /** The local clock of a device `zone` minutes ahead of UTC at instant `t`. */
  function LocalClock(t: Stamp, zone: int): Stamp
    requires ValidStamp(t) && -1440 < zone < 1440
  {
    MinusMinutes(t, -zone)
  }

  /**
   Whatever the zone, whatever the day, month or year boundary between the two
   clocks, and whatever seconds the local clock shows, the true instant comes back.
   */
  lemma TrueInstantRecovered(t: Stamp, zone: int, localSecond: int)
    requires ValidStamp(t) && -720 < zone <= 720 && 0 <= localSecond < 60
    ensures ValidStamp(LocalClock(t, zone))
    ensures Resolve(LocalClock(t, zone).(second := localSecond), TimeOf(t)) == t
  {
    MinusMinutesCounts(t, -zone);
    ResolveUnique(LocalClock(t, zone).(second := localSecond), TimeOf(t), t);
  }

  /** Outside that range a zone is indistinguishable from one a day away, and the wrong day comes back. */
  lemma FarZonesMisread(t: Stamp, zone: int)
    requires ValidStamp(t) && -1440 < zone < 1440
    ensures ValidStamp(LocalClock(t, zone))
    ensures Resolve(LocalClock(t, zone), TimeOf(t)) == t <==> -720 < zone <= 720
  {
    MinusMinutesCounts(t, -zone);
    ResolveUnique(LocalClock(t, zone), TimeOf(t), t);
  }

  // ------------------------------------------------------------------
  // The report's text fields
  // ------------------------------------------------------------------

  predicate IsDigit(c: char) {
    '0' <= c <= '9'
  }

  predicate AllDigits(s: string) {
    forall c :: c in s ==> IsDigit(c)
  }

  /** Two digits at `at`, as a number. */
  function Pair(s: string, at: nat): (n: int)
    requires at + 2 <= |s| && AllDigits(s)
    ensures 0 <= n < 100
  {
    assert s[at] in s && s[at + 1] in s;
    (s[at] as int - '0' as int) * 10 + (s[at + 1] as int - '0' as int)
  }

  /** yymmddhhmm or yymmddhhmmss. */
  function ParseLocal(value: string): Option<Stamp> {
    if value == [] || !AllDigits(value) || (|value| != 10 && |value| != 12) then None
    else
      var s := Stamp(Date(2000 + Pair(value, 0), Pair(value, 2), Pair(value, 4)),
                     Pair(value, 6), Pair(value, 8), if |value| == 12 then Pair(value, 10) else 0);
      if ValidStamp(s) then Some(s) else None
  }

  /** The text in front of the first '.'. */
  function Head(value: string): string {
    if value == [] || value[0] == '.' then [] else [value[0]] + Head(value[1..])
  }

  /** hhmmss or hhmmss.sss. */
  function ParseUtc(value: string): Option<TimeOfDay> {
    var head := Head(value);
    if |head| != 6 || !AllDigits(head) then None
    else
      var t := TimeOfDay(Pair(head, 0), Pair(head, 2), Pair(head, 4));
      if ValidTimeOfDay(t) then Some(t) else None
  }

  method ResolveUtcTimestamp(localValue: string, utcValue: string) returns (r: Option<Stamp>)
    ensures r == if ParseLocal(localValue).None? || ParseUtc(utcValue).None? then None
                 else Some(Resolve(ParseLocal(localValue).value, ParseUtc(utcValue).value))
  {
    var local := ParseLocal(localValue);
    var utc := ParseUtc(utcValue);
    if local.None? || utc.None? {
      return None;
    }
    var localMinutes := local.value.hour * 60 + local.value.minute;
    var utcMinutes := utc.value.hour * 60 + utc.value.minute;
    var offset := WrapOffset(localMinutes - utcMinutes);
    var shifted := MinusMinutes(local.value.(second := 0), offset);
    r := Some(shifted.(second := utc.value.second));
  }

  function TwoDigits(n: int): (s: string)
    requires 0 <= n < 100
    ensures |s| == 2 && IsDigit(s[0]) && IsDigit(s[1])
  {
    [('0' as int + n / 10) as char, ('0' as int + n % 10) as char]
  }

  /** The device's rendering of its local clock, with or without seconds. */
  function FormatLocal(s: Stamp, seconds: bool): string
    requires ValidStamp(s) && 2000 <= s.date.year < 2100
  {
    TwoDigits(s.date.year - 2000) + TwoDigits(s.date.month) + TwoDigits(s.date.day)
    + TwoDigits(s.hour) + TwoDigits(s.minute) + if seconds then TwoDigits(s.second) else []
  }

  function FormatUtc(t: TimeOfDay): string
    requires ValidTimeOfDay(t)
  {
    TwoDigits(t.hour) + TwoDigits(t.minute) + TwoDigits(t.second)
  }

  lemma PairReadsBack(s: string, at: nat, n: int)
    requires 0 <= n < 100 && at + 2 <= |s| && AllDigits(s) && s[at..at + 2] == TwoDigits(n)
    ensures Pair(s, at) == n
  {
    assert s[at] == s[at..at + 2][0] && s[at + 1] == s[at..at + 2][1];
  }

  lemma LocalReadsBack(s: Stamp, seconds: bool)
    requires ValidStamp(s) && 2000 <= s.date.year < 2100
    ensures ParseLocal(FormatLocal(s, seconds)) == Some(if seconds then s else s.(second := 0))
  {
    hide Pair;
    var v := FormatLocal(s, seconds);
    assert AllDigits(v);
    assert v[0..2] == TwoDigits(s.date.year - 2000);
    assert v[2..4] == TwoDigits(s.date.month) && v[4..6] == TwoDigits(s.date.day);
    assert v[6..8] == TwoDigits(s.hour) && v[8..10] == TwoDigits(s.minute);
    PairReadsBack(v, 0, s.date.year - 2000);
    PairReadsBack(v, 2, s.date.month);
    PairReadsBack(v, 4, s.date.day);
    PairReadsBack(v, 6, s.hour);
    PairReadsBack(v, 8, s.minute);
    if seconds {
      assert v[10..12] == TwoDigits(s.second);
      PairReadsBack(v, 10, s.second);
    }
  }

  lemma {:induction false} HeadOfDigits(digits: string, tail: string)
    requires AllDigits(digits) && (tail == [] || tail[0] == '.')
    ensures Head(digits + tail) == digits
  {
    if digits == [] {
      assert digits + tail == tail;
    } else {
      assert digits[0] in digits;
      assert (digits + tail)[1..] == digits[1..] + tail;
      HeadOfDigits(digits[1..], tail);
    }
  }

  lemma UtcReadsBack(t: TimeOfDay, fraction: string)
    requires ValidTimeOfDay(t) && (fraction == [] || fraction[0] == '.')
    ensures ParseUtc(FormatUtc(t) + fraction) == Some(t)
  {
    hide Pair, Head;
    var v := FormatUtc(t);
    assert AllDigits(v);
    HeadOfDigits(v, fraction);
    assert v[0..2] == TwoDigits(t.hour) && v[2..4] == TwoDigits(t.minute) && v[4..6] == TwoDigits(t.second);
    PairReadsBack(v, 0, t.hour);
    PairReadsBack(v, 2, t.minute);
    PairReadsBack(v, 4, t.second);
  }

  lemma PairPrints(s: string, at: nat)
    requires at + 2 <= |s| && AllDigits(s)
    ensures TwoDigits(Pair(s, at)) == s[at..at + 2]
  {
    assert s[at] in s && s[at + 1] in s;
  }

  /** The local field is accepted exactly if it is the print of a date and time of this century. */
  lemma LocalAcceptedExactly(value: string, s: Stamp)
    ensures ParseLocal(value) == Some(s) <==>
      && ValidStamp(s) && 2000 <= s.date.year < 2100
      && (value == FormatLocal(s, true) || (value == FormatLocal(s, false) && s.second == 0))
  {
    hide Pair, TwoDigits;
    if ParseLocal(value) == Some(s) {
      PairPrints(value, 0);
      PairPrints(value, 2);
      PairPrints(value, 4);
      PairPrints(value, 6);
      PairPrints(value, 8);
      var front := value[0..2] + value[2..4] + value[4..6] + value[6..8] + value[8..10];
      if |value| == 12 {
        PairPrints(value, 10);
        assert value == front + value[10..12];
      } else {
        assert value == front;
      }
    }
    if ValidStamp(s) && 2000 <= s.date.year < 2100 {
      hide ParseLocal, FormatLocal;
      LocalReadsBack(s, true);
      LocalReadsBack(s, false);
    }
  }

  lemma {:induction false} HeadEnds(value: string)
    ensures Head(value) <= value && '.' !in Head(value)
    ensures |Head(value)| == |value| || value[|Head(value)|] == '.'
  {
    if value != [] && value[0] != '.' {
      HeadEnds(value[1..]);
      assert value == [value[0]] + value[1..];
    }
  }

  /** And the UTC field exactly if it is that of a time of day, alone or followed by a fraction. */
  lemma UtcAcceptedExactly(value: string, t: TimeOfDay)
    ensures ParseUtc(value) == Some(t) <==>
      ValidTimeOfDay(t) && FormatUtc(t) <= value && (|value| == 6 || value[6] == '.')
  {
    hide Pair, TwoDigits, Head;
    if ParseUtc(value) == Some(t) {
      HeadEnds(value);
      var head := Head(value);
      PairPrints(head, 0);
      PairPrints(head, 2);
      PairPrints(head, 4);
      assert head == head[0..2] + head[2..4] + head[4..6];
    }
    if ValidTimeOfDay(t) && FormatUtc(t) <= value && (|value| == 6 || value[6] == '.') {
      hide ParseUtc, FormatUtc;
      UtcReadsBack(t, value[6..]);
      assert value == FormatUtc(t) + value[6..];
    }
  }

  /** Year first, hours before minutes before seconds. */
  lemma SampleFields()
    ensures ParseLocal("240229135958") == Some(Stamp(Date(2024, 2, 29), 13, 59, 58))
    ensures ParseUtc("135958.25") == Some(TimeOfDay(13, 59, 58))
  {
    hide ParseLocal, ParseUtc;
    var s := Stamp(Date(2024, 2, 29), 13, 59, 58);
    assert FormatLocal(s, true) == "240229135958";
    LocalReadsBack(s, true);
    assert FormatUtc(TimeOf(s)) + ".25" == "135958.25";
    UtcReadsBack(TimeOf(s), ".25");
  }

  /** End to end: the two text fields a device sends determine the instant it sent them at. */
  lemma FieldsDetermineInstant(t: Stamp, zone: int, localSecond: int, seconds: bool, fraction: string)
    requires ValidStamp(t) && -720 < zone <= 720 && 0 <= localSecond < 60
    requires fraction == [] || fraction[0] == '.'
    requires 2000 <= LocalClock(t, zone).date.year < 2100
    ensures ValidStamp(LocalClock(t, zone))
    ensures
      var clock := LocalClock(t, zone).(second := localSecond);
      var local, utc := ParseLocal(FormatLocal(clock, seconds)), ParseUtc(FormatUtc(TimeOf(t)) + fraction);
      local.Some? && utc.Some? && Resolve(local.value, utc.value) == t
  {
    hide Resolve, LocalClock, FormatLocal, FormatUtc, ParseLocal, ParseUtc, ValidDate;
    TrueInstantRecovered(t, zone, if seconds then localSecond else 0);
    LocalReadsBack(LocalClock(t, zone).(second := localSecond), seconds);
    UtcReadsBack(TimeOf(t), fraction);
  }
}
