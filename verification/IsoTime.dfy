// Timestamps with an offset: printing them in ISO form, and reading the calendar-date forms back.
module IsoTime {
  import opened Prelude
  import opened Decimal

  /** Fields of an aware datetime; the offset from UTC is in microseconds. */
  datatype Fields = Fields(year: nat, month: nat, day: nat, hour: nat, minute: nat, second: nat, micros: nat,
                           offset: int)

  function DaysIn(year: nat, month: nat): nat {
    if month == 2 then (if year % 4 == 0 && (year % 100 != 0 || year % 400 == 0) then 29 else 28)
    else if month in {4, 6, 9, 11} then 30
    else 31
  }

  const DAY_MICROS := 86_400_000_000

  predicate Valid(t: Fields) {
    && 1 <= t.year <= 9999 && 1 <= t.month <= 12 && 1 <= t.day <= DaysIn(t.year, t.month)
    && t.hour < 24 && t.minute < 60 && t.second < 60 && t.micros < 1_000_000
    && -DAY_MICROS < t.offset < DAY_MICROS
  }

  type Time = t: Fields | Valid(t) witness Fields(1, 1, 1, 0, 0, 0, 0, 0)

  function Magnitude(offset: int): nat {
    if offset < 0 then -offset else offset
  }

  function OffsetMicros(t: Time): nat {
    Magnitude(t.offset) % 1_000_000
  }

  function OffsetSeconds(t: Time): nat {
    Magnitude(t.offset) / 1_000_000 % 60
  }

  // --- printing --------------------------------------------------------------------------------

  function Two(n: nat): (s: string)
    requires n < 100
    ensures |s| == 2 && AllDigits(s)
  {
    [DigitChar(n / 10), DigitChar(n % 10)]
  }

  function Six(n: nat): (s: string)
    requires n < 1_000_000
    ensures |s| == 6 && AllDigits(s)
  {
    Two(n / 10_000) + Two(n / 100 % 100) + Two(n % 100)
  }

  /** Hours and minutes. */
  function Short(hour: nat, minute: nat): string
    requires hour < 100 && minute < 100
  {
    Two(hour) + ":" + Two(minute)
  }

  /** Down to seconds, and to microseconds when there are any. */
  function Full(hour: nat, minute: nat, second: nat, micros: nat): string
    requires hour < 100 && minute < 100 && second < 100 && micros < 1_000_000
  {
    Short(hour, minute) + ":" + Two(second) + (if micros == 0 then "" else "." + Six(micros))
  }

  function DateText(t: Time): (s: string)
    ensures |s| == 10
  {
    Two(t.year / 100) + Two(t.year % 100) + "-" + Two(t.month) + "-" + Two(t.day)
  }

  function ZoneText(t: Time): string {
    var m := Magnitude(t.offset);
    var hour, minute := m / 3_600_000_000, m / 60_000_000 % 60;
    if OffsetSeconds(t) == 0 && OffsetMicros(t) == 0 then Short(hour, minute)
    else Full(hour, minute, OffsetSeconds(t), OffsetMicros(t))
  }

  /** `isoformat` of an aware datetime. */
  function Print(t: Time): string {
    DateText(t) + "T" + Full(t.hour, t.minute, t.second, t.micros) + (if t.offset < 0 then "-" else "+") + ZoneText(t)
  }

  /** A time shows a fraction of a second, and so does its offset. */
  predicate TwoFractions(t: Time) {
    t.micros != 0 && OffsetMicros(t) != 0
  }

  /** How long a printed time is; only the two fractions together take it past 40 characters, and then to 42. */
  lemma PrintLength(t: Time)
    ensures |Print(t)| == 19 + (if t.micros != 0 then 7 else 0) + 6
                          + (if OffsetSeconds(t) != 0 || OffsetMicros(t) != 0 then 3 else 0)
                          + (if OffsetMicros(t) != 0 then 7 else 0)
    ensures |Print(t)| <= 42
    ensures |Print(t)| > 40 <==> TwoFractions(t)
  {
  }

  // --- reading ---------------------------------------------------------------------------------

  /** Two digits at a position. */
  function PairAt(s: string, i: nat): Option<nat> {
    if i + 2 <= |s| && IsDigit(s[i]) && IsDigit(s[i + 1]) then Some(10 * DigitValue(s[i]) + DigitValue(s[i + 1]))
    else None
  }

  /** What a clock text gives; `whole` says that nothing was left over behind it. */
  datatype Clock = Clock(hour: nat, minute: nat, second: nat, micros: nat, whole: bool)

  function ClockOf(parts: seq<nat>, micros: nat, whole: bool): Clock
    requires 1 <= |parts| <= 3
  {
    Clock(parts[0], if |parts| > 1 then parts[1] else 0, if |parts| > 2 then parts[2] else 0, micros, whole)
  }

  /** A fraction: at most six digits count, further digits are skipped. */
  function ReadFraction(s: string, parts: seq<nat>): Option<Clock>
    requires 1 <= |parts| <= 3
  {
    var n := if |s| < 6 then |s| else 6;
    if !AllDigits(s[..n]) then None
    else Some(ClockOf(parts, Value(s[..n] + seq(6 - n, _ => '0')), AllDigits(s[n..])))
  }

  /** Hours, minutes and seconds from a position on, with colons throughout or none. */
  function ReadParts(s: string, pos: nat, colons: bool, done: seq<nat>): Option<Clock>
    requires |done| < 3
    decreases 3 - |done|, 0
  {
    match PairAt(s, pos)
    case None => None
    case Some(v) =>
      var parts := done + [v];
      if pos + 3 >= |s| then Some(ClockOf(parts, 0, pos + 2 == |s|))
      else
        var c := s[pos + 2];
        var colons' := if done == [] then c == ':' else colons;
        if colons' && c == ':' then ReadOn(s, pos + 3, colons', parts)
        else if c == '.' || c == ',' then ReadFraction(s[pos + 3..], parts)
        else if !colons' then ReadOn(s, pos + 2, colons', parts)
        else None
  }

  function ReadOn(s: string, pos: nat, colons: bool, parts: seq<nat>): Option<Clock>
    requires 1 <= |parts| <= 3 && pos <= |s|
    decreases 3 - |parts|, 1
  {
    if |parts| == 3 then ReadFraction(s[pos..], parts) else ReadParts(s, pos, colons, parts)
  }

  function ReadClock(s: string): Option<Clock> {
    ReadParts(s, 0, false, [])
  }

  predicate MarksZone(c: char) {
    c == '+' || c == '-' || c == 'Z'
  }

  /** Where the offset begins, or the length of the text. */
  function ZoneAt(s: string): (i: nat)
    ensures i <= |s|
  {
    if s == [] || MarksZone(s[0]) then 0 else 1 + ZoneAt(s[1..])
  }

  /** The offset in microseconds; an offset of less than a second is read as UTC. */
  function ReadZone(s: string): Option<int>
    requires s != []
  {
    if s[0] == 'Z' then (if |s| == 1 then Some(0) else None)
    else
      match ReadClock(s[1..])
      case None => None
      case Some(c) =>
        var seconds := 3600 * c.hour + 60 * c.minute + c.second;
        if !c.whole then None
        else if seconds == 0 then Some(0)
        else Some((if s[0] == '-' then -1 else 1) * (1_000_000 * seconds + c.micros))
  }

  /** Year, month and day, with dashes or without. */
  function ReadDate(s: string): Option<(nat, nat, nat)> {
    var dash := if |s| > 4 && s[4] == '-' then 1 else 0;
    var century, year := PairAt(s, 0), PairAt(s, 2);
    var month, day := PairAt(s, 4 + dash), PairAt(s, 6 + 2 * dash);
    if century.None? || year.None? || month.None? || day.None? || |s| != 8 + 2 * dash then None
    else if dash == 1 && s[7] != '-' then None
    else Some((100 * century.value + year.value, month.value, day.value))
  }

  /**
   * `datetime.fromisoformat` on calendar dates; None when the text does not parse, or is without a time or an offset.
   */
  function ReadTime(s: string): Option<Time> {
    var at := if |s| > 4 && s[4] == '-' then 10 else 8;
    if |s| <= at + 1 then None
    else
      var date, rest := ReadDate(s[..at]), s[at + 1..];
      var z := ZoneAt(rest);
      if date.None? || z == |rest| then None
      else
        var clock, zone := ReadClock(rest[..z]), ReadZone(rest[z..]);
        if clock.None? || zone.None? then None
        else
          var (year, month, day) := date.value;
          var c := clock.value;
          var t := Fields(year, month, day, c.hour, c.minute, c.second, c.micros, zone.value);
          if Valid(t) then Some(t) else None
  }

  // --- what is printed reads back --------------------------------------------------------------

  /** An offset that reading can give. */
  predicate Readable(t: Time) {
    Magnitude(t.offset) < 1_000_000 ==> t.offset == 0
  }

  lemma DigitsOf(d: nat)
    requires d < 10
    ensures DigitValue(DigitChar(d)) == d
  {
  }

  lemma TwoReads(n: nat, s: string, i: nat)
    requires n < 100 && i + 2 <= |s| && s[i..i + 2] == Two(n)
    ensures PairAt(s, i) == Some(n)
  {
    DigitsOf(n / 10);
    DigitsOf(n % 10);
    assert s[i] == s[i..i + 2][0] && s[i + 1] == s[i..i + 2][1];
  }

  lemma ValueTwo(s: string, n: nat)
    requires AllDigits(s) && n < 100
    ensures AllDigits(s + Two(n)) && Value(s + Two(n)) == 100 * Value(s) + n
  {
    var t := s + [DigitChar(n / 10)];
    assert s + Two(n) == t + [DigitChar(n % 10)];
    assert Init(s + Two(n)) == t && Init(t) == s;
    DigitsOf(n / 10);
    DigitsOf(n % 10);
  }

  lemma SixReads(n: nat)
    requires n < 1_000_000
    ensures Value(Six(n)) == n
  {
    hide Value, AllDigits;
    var a, b, c := n / 10_000, n / 100 % 100, n % 100;
    NoValue();
    assert [] + Two(a) == Two(a);
    ValueTwo([], a);
    ValueTwo(Two(a), b);
    ValueTwo(Two(a) + Two(b), c);
  }

  lemma NoValue()
    ensures AllDigits([]) && Value([]) == 0
  {
  }

  lemma ShortReads(hour: nat, minute: nat)
    requires hour < 100 && minute < 100
    ensures ReadClock(Short(hour, minute)) == Some(Clock(hour, minute, 0, 0, true))
  {
    var s := Short(hour, minute);
    hide Two, PairAt;
    TwoReads(hour, s, 0);
    TwoReads(minute, s, 3);
    assert ReadParts(s, 3, true, [hour]) == Some(ClockOf([hour] + [minute], 0, true));
    assert [] + [hour] == [hour];
  }

  lemma FullReads(hour: nat, minute: nat, second: nat, micros: nat)
    requires hour < 100 && minute < 100 && second < 100 && micros < 1_000_000
    ensures ReadClock(Full(hour, minute, second, micros)) == Some(Clock(hour, minute, second, micros, true))
  {
    var s := Full(hour, minute, second, micros);
    hide Two, Six, PairAt, ReadFraction;
    TwoReads(hour, s, 0);
    TwoReads(minute, s, 3);
    TwoReads(second, s, 6);
    var parts := [hour] + [minute] + [second];
    if micros != 0 {
      assert s[9..] == Six(micros);
      FractionReads(micros, parts);
    }
    assert ReadParts(s, 6, true, [hour] + [minute]) == Some(ClockOf(parts, micros, true));
    assert ReadParts(s, 3, true, [hour]) == ReadParts(s, 6, true, [hour] + [minute]);
    assert [] + [hour] == [hour];
  }

  lemma FractionReads(micros: nat, parts: seq<nat>)
    requires micros < 1_000_000 && 1 <= |parts| <= 3
    ensures ReadFraction(Six(micros), parts) == Some(ClockOf(parts, micros, true))
  {
    var s := Six(micros);
    assert s[..6] == s && s[6..] == [] && s[..6] + seq(0, _ => '0') == s;
    SixReads(micros);
  }

  lemma DateReads(t: Time)
    ensures ReadDate(DateText(t)) == Some((t.year, t.month, t.day))
  {
    var s := DateText(t);
    hide Two, PairAt;
    TwoReads(t.year / 100, s, 0);
    TwoReads(t.year % 100, s, 2);
    TwoReads(t.month, s, 5);
    TwoReads(t.day, s, 8);
  }

  lemma {:induction false} ZoneFound(a: string, b: string)
    requires forall i :: 0 <= i < |a| ==> !MarksZone(a[i])
    requires b != [] && MarksZone(b[0])
    ensures ZoneAt(a + b) == |a|
  {
    if a == [] {
      assert a + b == b;
    } else {
      assert (a + b)[1..] == a[1..] + b;
      ZoneFound(a[1..], b);
    }
  }

  /** An offset as hours, minutes, seconds and microseconds. */
  lemma OffsetParts(t: Time)
    ensures var m := Magnitude(t.offset);
            && m == 1_000_000 * (3600 * (m / 3_600_000_000) + 60 * (m / 60_000_000 % 60) + OffsetSeconds(t))
               + OffsetMicros(t)
            && m / 3_600_000_000 < 24 && m / 60_000_000 % 60 < 60 && OffsetSeconds(t) < 60
               && OffsetMicros(t) < 1_000_000
  {
  }

  lemma ZoneClock(t: Time)
    ensures var m := Magnitude(t.offset);
            ReadClock(ZoneText(t)) == Some(Clock(m / 3_600_000_000, m / 60_000_000 % 60, OffsetSeconds(t),
                                                 OffsetMicros(t), true))
  {
    hide ReadClock, Short, Full, OffsetSeconds, OffsetMicros, Valid;
    OffsetParts(t);
    var hour, minute := Magnitude(t.offset) / 3_600_000_000, Magnitude(t.offset) / 60_000_000 % 60;
    ShortReads(hour, minute);
    FullReads(hour, minute, OffsetSeconds(t), OffsetMicros(t));
  }

  lemma ZoneReads(t: Time)
    requires Readable(t)
    ensures ReadZone((if t.offset < 0 then "-" else "+") + ZoneText(t)) == Some(t.offset)
  {
    hide ReadClock, ZoneText, OffsetSeconds, OffsetMicros, Valid;
    var s := (if t.offset < 0 then "-" else "+") + ZoneText(t);
    assert s[1..] == ZoneText(t);
    OffsetParts(t);
    ZoneClock(t);
  }

  lemma ClockPlain(hour: nat, minute: nat, second: nat, micros: nat)
    requires hour < 100 && minute < 100 && second < 100 && micros < 1_000_000
    ensures forall c :: c in Full(hour, minute, second, micros) ==> IsDigit(c) || c == ':' || c == '.'
    ensures forall c :: c in Short(hour, minute) ==> IsDigit(c) || c == ':'
  {
    hide Two, Six;
    assert forall c :: c in Two(hour) || c in Two(minute) || c in Two(second) || c in Six(micros) ==> IsDigit(c);
  }

  /** A printed time reads back as itself. */
  lemma TimeReadsBack(t: Time)
    requires Readable(t)
    ensures ReadTime(Print(t)) == Some(t)
  {
    hide ReadClock, ReadZone, ReadDate, DateText, Full, ZoneText, ZoneAt, DaysIn;
    var clock, zone := Full(t.hour, t.minute, t.second, t.micros), (if t.offset < 0 then "-" else "+") + ZoneText(t);
    var s := Print(t);
    assert s == DateText(t) + "T" + clock + zone;
    DateShape(t);
    assert s[..10] == DateText(t) && s[4] == DateText(t)[4];
    assert s[11..] == clock + zone;
    ClockPlain(t.hour, t.minute, t.second, t.micros);
    assert forall i :: 0 <= i < |clock| ==> clock[i] in clock;
    ZoneFound(clock, zone);
    assert (clock + zone)[..|clock|] == clock && (clock + zone)[|clock|..] == zone;
    DateReads(t);
    FullReads(t.hour, t.minute, t.second, t.micros);
    ZoneReads(t);
  }

  lemma DateShape(t: Time)
    ensures DateText(t)[4] == '-'
  {
  }

  /** Reading gives only times that read back. */
  lemma ReadIsReadable(s: string)
    ensures ReadTime(s).Some? ==> Readable(ReadTime(s).value)
  {
    hide ReadClock, ReadDate, ZoneAt;
  }

  lemma DatePlain(t: Time)
    ensures forall c :: c in DateText(t) ==> IsDigit(c) || c == '-'
  {
    hide Two;
    var a, b, c, d := Two(t.year / 100), Two(t.year % 100), Two(t.month), Two(t.day);
    assert forall x :: x in a || x in b || x in c || x in d ==> IsDigit(x);
    assert DateText(t) == a + b + "-" + c + "-" + d;
  }

  lemma ZonePlain(t: Time)
    ensures forall c :: c in ZoneText(t) ==> IsDigit(c) || c == ':' || c == '.'
  {
    hide Short, Full, OffsetSeconds, OffsetMicros, Valid;
    OffsetParts(t);
    ClockPlain(Magnitude(t.offset) / 3_600_000_000, Magnitude(t.offset) / 60_000_000 % 60, OffsetSeconds(t),
               OffsetMicros(t));
  }

  lemma PrintStarts(t: Time)
    ensures IsDigit(Print(t)[0])
  {
    assert Print(t)[0] == DateText(t)[0] == Two(t.year / 100)[0];
  }

  /** Printing never uses the letter that stands for UTC. */
  lemma NoZulu(t: Time)
    ensures 'Z' !in Print(t)
  {
    hide DateText, ZoneText, Full;
    DatePlain(t);
    ZonePlain(t);
    ClockPlain(t.hour, t.minute, t.second, t.micros);
  }

  // --- a time that outgrows what is read -------------------------------------------------------

  const LOST: Time := Fields(2024, 1, 1, 0, 0, 0, 100_000, 1_000_001)
  const SHORT := "2024-01-01" + "T" + "00:00:00.1" + "+" + "00:00:01.000001"
  const LONG := "2024-01-01" + "T" + "00:00:00.100000" + "+" + "00:00:01.000001"

  lemma LostDate()
    ensures DateText(LOST) == "2024-01-01"
  {
    assert Two(20) == "20" && Two(24) == "24" && Two(1) == "01";
  }

  lemma LostClock()
    ensures Full(0, 0, 0, 100_000) == "00:00:00.100000"
  {
    hide Two, Six;
    SomeDigits();
    assert Short(0, 0) == "00:00";
    assert "." + Six(100_000) == ".100000";
  }

  lemma LostOffset()
    ensures Full(0, 0, 1, 1) == "00:00:01.000001"
  {
    hide Two, Six;
    SomeDigits();
    assert Short(0, 0) == "00:00";
    assert "." + Six(1) == ".000001";
  }

  lemma SomeDigits()
    ensures Two(0) == "00" && Two(1) == "01" && Two(10) == "10" && Six(1) == "000001" && Six(100_000) == "100000"
  {
  }

  lemma LostZone()
    ensures ZoneText(LOST) == "00:00:01.000001"
  {
    assert OffsetSeconds(LOST) == 1 && OffsetMicros(LOST) == 1;
    LostOffset();
    hide Full;
  }

  lemma LostPrints()
    ensures Print(LOST) == LONG && |LONG| == 42 && |SHORT| == 37
  {
    LostDate();
    LostClock();
    LostZone();
    hide DateText, ZoneText, Full;
  }

  lemma TenthReads()
    ensures ReadClock("00:00:00.1") == Some(Clock(0, 0, 0, 100_000, true))
  {
    var s := "00:00:00.1";
    assert Two(0) == "00";
    TwoReads(0, s, 0);
    TwoReads(0, s, 3);
    TwoReads(0, s, 6);
    assert s[9..] == "1";
    TenthFraction();
    hide PairAt, ReadFraction;
    var parts := [0] + [0] + [0];
    assert ReadParts(s, 6, true, [0] + [0]) == Some(Clock(0, 0, 0, 100_000, true));
    assert ReadParts(s, 3, true, [0]) == ReadParts(s, 6, true, [0] + [0]);
    assert [] + [0] == [0];
  }

  lemma TenthFraction()
    ensures ReadFraction("1", [0, 0, 0]) == Some(Clock(0, 0, 0, 100_000, true))
  {
    var s := "1";
    hide Two, Six;
    SomeDigits();
    assert s[..1] == s && s[1..] == [] && s[..1] + seq(5, _ => '0') == Six(100_000);
    SixReads(100_000);
  }

  lemma ShortSplits(date: string, clock: string, zone: string)
    requires date == "2024-01-01" && clock == "00:00:00.1" && zone == "+" + "00:00:01.000001"
    ensures SHORT[..10] == date && SHORT[4] == '-' && SHORT[11..] == clock + zone
    ensures ZoneAt(clock + zone) == 10 && (clock + zone)[..10] == clock && (clock + zone)[10..] == zone
  {
    hide ZoneAt;
    assert SHORT == date + "T" + clock + zone;
    ZoneFound(clock, zone);
  }

  /** 37 characters that read as a time which prints with 42. */
  lemma ShortReadsLong()
    ensures ReadTime(SHORT) == Some(LOST) && Print(LOST) == LONG
  {
    hide ReadClock, ReadZone, ReadDate, DateText, Full, ZoneText, ZoneAt, Print;
    LostPrints();
    LostDate();
    LostZone();
    TenthReads();
    DateReads(LOST);
    ZoneReads(LOST);
    ShortSplits("2024-01-01", "00:00:00.1", "+" + "00:00:01.000001");
  }

  const EARLY: Time := Fields(987, 3, 5, 6, 7, 8, 90_001, -16_200_000_000)
  const LATE: Time := Fields(2024, 12, 31, 23, 59, 0, 0, 20_705_000_000)

  /** Year, month and day, then hours, minutes and seconds, each with its fixed number of digits. */
  lemma PrintedExamples()
    ensures Print(EARLY) == "0987-03-05" + "T" + "06:07:08.090001" + "-" + "04:30"
    ensures Print(LATE) == "2024-12-31" + "T" + "23:59:00" + "+" + "05:45:05"
  {
    MoreDates();
    MoreClocks();
    MoreZones();
    hide DateText, ZoneText, Full, Short;
  }

  lemma MoreDates()
    ensures DateText(EARLY) == "0987-03-05" && DateText(LATE) == "2024-12-31"
  {
    MorePairs();
    hide Two;
  }

  lemma MoreClocks()
    ensures Full(6, 7, 8, 90_001) == "06:07:08.090001" && Full(23, 59, 0, 0) == "23:59:00"
  {
    MorePairs();
    hide Two;
    assert Short(6, 7) == "06:07" && Short(23, 59) == "23:59";
    assert "." + Six(90_001) == ".090001";
  }

  lemma MoreZones()
    ensures ZoneText(EARLY) == "04:30" && ZoneText(LATE) == "05:45:05"
  {
    MorePairs();
    hide Two;
    assert OffsetSeconds(EARLY) == 0 == OffsetMicros(EARLY) && OffsetSeconds(LATE) == 5 && OffsetMicros(LATE) == 0;
    assert Short(4, 30) == "04:30" && Short(5, 45) == "05:45";
    assert Full(5, 45, 5, 0) == "05:45:05";
  }

  lemma MorePairs()
    ensures Two(0) == "00" && Two(1) == "01" && Two(3) == "03" && Two(4) == "04" && Two(5) == "05" && Two(6) == "06"
    ensures Two(7) == "07" && Two(8) == "08" && Two(9) == "09" && Two(12) == "12" && Two(20) == "20" && Two(23) == "23"
    ensures Two(24) == "24" && Two(30) == "30" && Two(31) == "31" && Two(45) == "45" && Two(59) == "59"
            && Two(87) == "87"
  {
  }
}
