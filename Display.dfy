/** The text the dashboard shows: the time left until the next Pluto Time
    (format_next), the local date and clock time of it (format_date), and the choice
    among "It's Pluto Time now!", "After sunset" and "Before sunrise" (make_text). */
module Display {
  import opened JsNumbers
  import opened CrossingFinder

  /** Five minutes, in days: closer than this, it is Pluto Time now. */
  const MinDt: real := 5.0 / (60.0 * 24.0)

  lemma EmptyPrefix(s: string)
    ensures "" + s == s
  {
  }

  // ---------------------------------------------------------------------
  // format_next

  datatype Duration = Duration(days: int, hours: nat, minutes: nat)

  /** The days, hours and minutes format_next takes out of a day count, each part the floor
      of what is left; the minute carry cannot fire over exact reals but is kept. */
  function SplitDuration(dd: real): Duration {
    var d := dd.Floor;
    var hh := (dd - d as real) * 24.0;
    var h := hh.Floor;
    var mm := (hh - h as real) * 60.0;
    var m := mm.Floor;
    var carry := m > 59;
    Duration(d, if carry then h + 1 else h, if carry then 0 else m)
  }

  /** The split is the whole days, then hours 0-23, then minutes 0-59, of dd, and it brackets dd
      to the minute: the parts count the whole minutes in dd. */
  lemma SplitDurationBounds(dd: real)
    ensures var p := SplitDuration(dd);
      && p.days == dd.Floor
      && 0 <= p.hours <= 23 && 0 <= p.minutes <= 59
      && p.days as real + p.hours as real / 24.0 + p.minutes as real / 1440.0 <= dd
      && dd < p.days as real + p.hours as real / 24.0 + (p.minutes + 1) as real / 1440.0
      && p.days * 1440 + p.hours * 60 + p.minutes == (dd * 1440.0).Floor
  {
    var d := dd.Floor;
    var hh := (dd - d as real) * 24.0;
    var h := hh.Floor;
    var mm := (hh - h as real) * 60.0;
    var m := mm.Floor;
    var total := d * 1440 + h * 60 + m;
    assert total as real <= dd * 1440.0 < total as real + 1.0;
  }

  /** Two durations in range that stand for the same number of whole minutes are the same, so
      SplitDuration is the only split of dd into days, hours (0-23) and minutes (0-59) that
      brackets it. */
  lemma SplitDurationUnique(dd: real, p: Duration)
    requires 0 <= p.hours <= 23 && 0 <= p.minutes <= 59
    requires p.days as real + p.hours as real / 24.0 + p.minutes as real / 1440.0 <= dd
    requires dd < p.days as real + p.hours as real / 24.0 + (p.minutes + 1) as real / 1440.0
    ensures p == SplitDuration(dd)
  {
    var q := SplitDuration(dd);
    SplitDurationBounds(dd);
    var v := p.days * 1440 + p.hours * 60 + p.minutes;
    assert v as real <= dd * 1440.0 < v as real + 1.0;
    assert v == q.days * 1440 + q.hours * 60 + q.minutes;
  }

  function DaysSegment(d: int): string {
    if d > 0 then NatToString(d) + " days, " else ""
  }

  function HoursSegment(h: nat): string {
    if h > 0 then NatToString(h) + " hours, " else ""
  }

  function MinutesSegment(m: nat): string {
    NatToString(m) + " minutes"
  }

  /** The text format_next builds: the days and hours segments only when positive, the
      minutes segment always. */
  function DurationText(p: Duration): string {
    DaysSegment(p.days) + (HoursSegment(p.hours) + MinutesSegment(p.minutes))
  }

  /** format_next(dd). */
  method FormatNext(dd: real) returns (ret: string)
    ensures ret == DurationText(SplitDuration(dd))
  {
    var d := dd.Floor;
    var hh := (dd - d as real) * 24.0;
    var h := hh.Floor;
    var mm := (hh - h as real) * 60.0;
    var m := mm.Floor;
    if m > 59 {
      m := 0;
      h := h + 1;
    }
    assert Duration(d, h, m) == SplitDuration(dd);
    ret := "";
    if d > 0 {
      EmptyPrefix(IntToString(d));
      ret := ret + IntToString(d) + " days, ";
    }
    assert ret == DaysSegment(d);
    if h > 0 {
      ret := ret + IntToString(h) + " hours, ";
    }
    assert ret == DaysSegment(d) + HoursSegment(h);
    ret := ret + IntToString(m) + " minutes";
    assert ret == DaysSegment(d) + (HoursSegment(h) + MinutesSegment(m));
  }

  datatype Option<T> = None | Some(value: T)

  /** Reads "<digits><unit>" at the head of s, giving the number and what follows the unit. */
  function ReadSegment(s: string, unit: string): Option<(nat, string)> {
    var k := LeadingDigits(s);
    if 0 < k && unit <= s[k..] then Some((DigitsValue(s[..k]), s[k + |unit|..])) else None
  }

  /** Reads a duration text back: a missing days or hours segment reads as zero. */
  function ParseDuration(s: string): Option<Duration> {
    var r := ReadSegment(s, " days, ");
    if r.Some? then ParseHours(r.value.0, r.value.1) else ParseHours(0, s)
  }

  function ParseHours(days: nat, s: string): Option<Duration> {
    var r := ReadSegment(s, " hours, ");
    if r.Some? then ParseMinutes(days, r.value.0, r.value.1) else ParseMinutes(days, 0, s)
  }

  function ParseMinutes(days: nat, hours: nat, s: string): Option<Duration> {
    var r := ReadSegment(s, " minutes");
    if r.Some? && r.value.1 == [] then Some(Duration(days, hours, r.value.0)) else None
  }

  lemma ReadSegmentOfNumeral(n: nat, unit: string, rest: string)
    requires |unit| > 0 && !IsDigit(unit[0])
    ensures ReadSegment(NatToString(n) + unit + rest, unit) == Some((n, rest))
  {
    var a := NatToString(n);
    var s := a + unit + rest;
    assert s == a + (unit + rest);
    LeadingDigitsOfNumeral(n, unit + rest);
    NatToStringDigits(n);
    assert s[|a|..] == unit + rest;
    assert s[|a| + |unit|..] == rest;
  }

  lemma ReadSegmentMismatch(n: nat, unit: string, other: string, rest: string)
    requires |unit| >= 2 && |other| >= 2 && !IsDigit(other[0]) && unit[1] != other[1]
    ensures ReadSegment(NatToString(n) + other + rest, unit) == None
  {
    var a := NatToString(n);
    var s := a + other + rest;
    assert s == a + (other + rest);
    LeadingDigitsOfNumeral(n, other + rest);
    assert s[|a|..] == other + rest;
  }

  lemma ParseMinutesSegment(days: nat, hours: nat, m: nat)
    ensures ParseMinutes(days, hours, MinutesSegment(m)) == Some(Duration(days, hours, m))
  {
    assert MinutesSegment(m) == NatToString(m) + " minutes" + [];
    ReadSegmentOfNumeral(m, " minutes", []);
  }

  lemma ParseHoursSegment(days: nat, h: nat, m: nat)
    ensures ParseHours(days, HoursSegment(h) + MinutesSegment(m)) == Some(Duration(days, h, m))
  {
    var tail := MinutesSegment(m);
    var s := HoursSegment(h) + tail;
    ParseMinutesSegment(days, h, m);
    if h > 0 {
      ReadHoursSegment(h, tail);
      ParseHoursRead(days, s, h, tail);
    } else {
      assert s == tail;
      NoHoursSegment(m);
      ParseHoursRead(days, s, 0, s);
    }
  }

  lemma ParseHoursRead(days: nat, s: string, h: nat, rest: string)
    requires ReadSegment(s, " hours, ") == Some((h, rest)) || (ReadSegment(s, " hours, ") == None && h == 0 && rest == s)
    ensures ParseHours(days, s) == ParseMinutes(days, h, rest)
  {
  }

  lemma ReadHoursSegment(h: nat, tail: string)
    requires h > 0
    ensures ReadSegment(HoursSegment(h) + tail, " hours, ") == Some((h, tail))
  {
    assert HoursSegment(h) + tail == NatToString(h) + " hours, " + tail;
    ReadSegmentOfNumeral(h, " hours, ", tail);
  }

  lemma NoHoursSegment(m: nat)
    ensures ReadSegment(MinutesSegment(m), " hours, ") == None
  {
    assert MinutesSegment(m) == NatToString(m) + " minutes" + [];
    ReadSegmentMismatch(m, " hours, ", " minutes", []);
  }

  /** Reading the text of a duration with no negative part gives the duration back. */
  lemma DurationTextRoundTrip(p: Duration)
    requires p.days >= 0
    ensures ParseDuration(DurationText(p)) == Some(p)
  {
    if p.days > 0 {
      RoundTripWithDays(p);
    } else {
      RoundTripWithoutDays(p);
    }
  }

  lemma RoundTripWithDays(p: Duration)
    requires p.days > 0
    ensures ParseDuration(DurationText(p)) == Some(p)
  {
    var tail := HoursSegment(p.hours) + MinutesSegment(p.minutes);
    assert DurationText(p) == DaysSegment(p.days) + tail;
    ParseHoursSegment(p.days, p.hours, p.minutes);
    ReadDaysSegment(p.days, tail);
    ParseDurationRead(DurationText(p), p.days, tail);
  }

  lemma RoundTripWithoutDays(p: Duration)
    requires p.days == 0
    ensures ParseDuration(DurationText(p)) == Some(p)
  {
    var tail := HoursSegment(p.hours) + MinutesSegment(p.minutes);
    assert DurationText(p) == tail;
    ParseHoursSegment(p.days, p.hours, p.minutes);
    NoDaysSegment(p.hours, p.minutes);
    ParseDurationRead(tail, 0, tail);
  }

  lemma ParseDurationRead(s: string, d: nat, rest: string)
    requires ReadSegment(s, " days, ") == Some((d, rest)) || (ReadSegment(s, " days, ") == None && d == 0 && rest == s)
    ensures ParseDuration(s) == ParseHours(d, rest)
  {
  }

  lemma ReadDaysSegment(d: nat, tail: string)
    requires d > 0
    ensures ReadSegment(DaysSegment(d) + tail, " days, ") == Some((d, tail))
  {
    assert DaysSegment(d) + tail == NatToString(d) + " days, " + tail;
    ReadSegmentOfNumeral(d, " days, ", tail);
  }

  lemma NoDaysSegment(h: nat, m: nat)
    ensures ReadSegment(HoursSegment(h) + MinutesSegment(m), " days, ") == None
  {
    var tail := MinutesSegment(m);
    if h > 0 {
      assert HoursSegment(h) + tail == NatToString(h) + " hours, " + tail;
      ReadSegmentMismatch(h, " days, ", " hours, ", tail);
    } else {
      assert HoursSegment(h) + tail == NatToString(m) + " minutes" + [];
      ReadSegmentMismatch(m, " days, ", " minutes", []);
    }
  }

  // ---------------------------------------------------------------------
  // format_date

  datatype Meridiem = AM | PM
  datatype ClockTime = ClockTime(hour: int, meridiem: Meridiem)

  function MeridiemText(m: Meridiem): string {
    match m
    case AM => "AM"
    case PM => "PM"
  }

  /** How a 12-hour clock time is conventionally read as an hour of the day:
      12 AM is midnight and 12 PM is noon. */
  function Hours24(c: ClockTime): int {
    match c.meridiem
    case AM => if c.hour == 12 then 0 else c.hour
    case PM => if c.hour == 12 then 12 else c.hour + 12
  }

  /** The 12-hour rule as format_date writes it: only hours above 12 are reduced and marked PM. */
  function ClockAsWritten(hr: int): (c: ClockTime)
    ensures c.meridiem == PM <==> hr > 12
    ensures c.hour + (if c.meridiem == PM then 12 else 0) == hr
    ensures 0 <= hr < 24 ==> 0 <= c.hour <= 12
  {
    if hr > 12 then ClockTime(hr - 12, PM) else ClockTime(hr, AM)
  }

  /** Noon comes out as 12 AM, which reads as midnight, and midnight comes out as 0 AM,
      an hour no 12-hour clock shows. */
  lemma ClockAsWrittenMisreadsNoonAndMidnight()
    ensures ClockAsWritten(12) == ClockTime(12, AM) && Hours24(ClockAsWritten(12)) != 12
    ensures ClockAsWritten(0) == ClockTime(0, AM) && ClockAsWritten(0).hour !in {1, 2, 3, 4, 5, 6, 7, 8, 9, 10, 11, 12}
  {
  }

  /** The 12-hour rule corrected: hours 1 to 12 with PM from noon on, and reading it back
      gives the hour of the day. */
  function Clock12(hr: int): (c: ClockTime)
    requires 0 <= hr < 24
    ensures 1 <= c.hour <= 12
    ensures c.meridiem == PM <==> hr >= 12
    ensures Hours24(c) == hr
  {
    if hr >= 12 then ClockTime(if hr > 12 then hr - 12 else hr, PM)
    else ClockTime(if hr == 0 then 12 else hr, AM)
  }

  /** The correction changes only noon and midnight. */
  lemma Clock12AgreesAwayFromNoonAndMidnight(hr: int)
    requires 0 <= hr < 24
    ensures Clock12(hr) == ClockAsWritten(hr) <==> hr != 0 && hr != 12
  {
  }

  type Month = m: int | 0 <= m < 12
  type Hour = h: int | 0 <= h < 24
  type Minute = m: int | 0 <= m < 60
  type DayOfMonth = d: int | 1 <= d <= 31 witness 1

  /** What the Date accessors report for the local time zone: getMonth, getDate, getHours,
      getMinutes, and the zone name taken from toString. */
  datatype LocalTime = LocalTime(month: Month, day: DayOfMonth, hours: Hour, minutes: Minute, zone: string)

  const MonthNames: seq<string> := [
    "January", "February", "March", "April", "May", "June",
    "July", "August", "September", "October", "November", "December"]

  /** The minutes, padded with a zero below 10. */
  function MinuteText(m: Minute): string {
    if m < 10 then "0" + NatToString(m) else NatToString(m)
  }

  /** The minutes always take two digits, and they read back as the minutes. */
  lemma MinuteTextDigits(m: Minute)
    ensures var s := MinuteText(m);
      |s| == 2 && AllDigits(s) && DigitsValue(s) == m
  {
    NatToStringDigits(m);
    if m < 10 {
      DigitsValueLeadingZero(NatToString(m));
    } else {
      NatToStringDigits(m / 10);
      assert m / 10 < 10;
    }
  }

  /** The text format_date builds, with the 12-hour rule as written. */
  function DateText(t: LocalTime): string {
    var c := ClockAsWritten(t.hours);
    MonthNames[t.month] + " " + IntToString(t.day) + " at " + IntToString(c.hour) + ":"
      + MinuteText(t.minutes) + " " + MeridiemText(c.meridiem) + " " + t.zone
  }

  /** format_date, given the local calendar view of the Date get_date builds. */
  method FormatDate(t: LocalTime) returns (ret: string)
    ensures ret == DateText(t)
  {
    var min := t.minutes;
    var minText := IntToString(min);
    if min < 10 {
      minText := "0" + minText;
    }
    var off: int;
    if min > 59 {
      minText := "00";
      off := 1;
    } else {
      off := 0;
    }
    var hr := off + t.hours;
    var ap: Meridiem;
    if hr > 12 {
      hr := hr - 12;
      ap := PM;
    } else {
      ap := AM;
    }
    ret := MonthNames[t.month] + " " + IntToString(t.day) + " at " + IntToString(hr) + ":"
      + minText + " " + MeridiemText(ap) + " " + t.zone;
  }

  // ---------------------------------------------------------------------
  // make_text

  datatype Notice = PlutoTimeNow | AfterSunset | BeforeSunrise

  /** Pluto Time is now when the next crossing is at most five minutes away; otherwise the
      crossing ahead is after sunset when the Sun is above the target angle now, before
      sunrise when it is not. */
  function ChooseNotice(ele: real, next: real, jd: real): (n: Notice)
    ensures n == PlutoTimeNow <==> next - jd <= MinDt
    ensures n == AfterSunset <==> next - jd > MinDt && !Below(ele)
    ensures n == BeforeSunrise <==> next - jd > MinDt && Below(ele)
  {
    if next - jd <= MinDt then PlutoTimeNow
    else if ele > TargetAngle then AfterSunset
    else BeforeSunrise
  }

  function NoticeText(n: Notice): string {
    match n
    case PlutoTimeNow => "It's Pluto Time now!"
    case AfterSunset => "After sunset"
    case BeforeSunrise => "Before sunrise"
  }

  /** For a crossing that FindTime found n steps ahead: it is Pluto Time now exactly when
      n is at most 29 (30 steps of 0.000115741 days are just over five minutes); "After
      sunset" announces a crossing downward through the target, "Before sunrise" one upward. */
  lemma NoticeOfCrossing(f: real -> real, jd: real, n: nat)
    requires FirstCrossingAt(f, jd, n)
    ensures var notice := ChooseNotice(f(jd), Sample(jd, n), jd);
      && (notice == PlutoTimeNow <==> n <= 29)
      && (notice == AfterSunset ==> !Below(f(Sample(jd, n))) && Below(f(Sample(jd, n + 1))))
      && (notice == BeforeSunrise ==> Below(f(Sample(jd, n))) && !Below(f(Sample(jd, n + 1))))
  {
    assert Sample(jd, n) - jd == n as real * Step;
    if n >= 30 {
      assert n as real * Step >= 30.0 * Step;
    }
    assert OnStartSide(f, jd, n);
  }

  function ElevationSpan(ele: real): string {
    "<span style=\"font-size: 14px;\">Current Solar Elevation Angle: " + ToFixed1(ele) + " degrees</span>"
  }

  /** The announcement of a crossing still ahead: the notice, the local date of the crossing
      and the time left until it. */
  function CountdownHtml(notice: string, date: string, left: string): string {
    "<div style=\"font-size:18px;\"><b>" + notice + " on " + date + "</b><br>(" + left + " away)</div>"
  }

  /** What make_text writes before the elevation: the Pluto Time notice when the crossing at
      `next` is at most five minutes after jd, otherwise which crossing comes next, its local date
      and the time left until it. */
  function MakeTextHeadline(ele: real, next: real, jd: real, local: LocalTime): string {
    match ChooseNotice(ele, next, jd)
    case PlutoTimeNow => "<p>It's Pluto Time now!"
    case notice => CountdownHtml(NoticeText(notice), DateText(local), DurationText(SplitDuration(next - jd)))
  }

  /** make_text(ele, next, jd), given the local calendar view of get_date(next). */
  method MakeText(ele: real, next: real, jd: real, local: LocalTime) returns (ret: string)
    ensures ret == MakeTextHeadline(ele, next, jd, local) + ElevationSpan(ele)
  {
    var mindt := 5.0 / (60.0 * 24.0);
    ret := "";
    var dt := next - jd;
    if dt <= mindt {
      EmptyPrefix("<p>It's Pluto Time now!");
      ret := ret + "<p>It's Pluto Time now!";
      assert ret == MakeTextHeadline(ele, next, jd, local);
    } else {
      var tnext := FormatNext(dt);
      var suns := if ele > TargetAngle then "After sunset" else "Before sunrise";
      var dnext := FormatDate(local);
      EmptyPrefix("<div style=\"font-size:18px;\"><b>");
      ret := ret + "<div style=\"font-size:18px;\"><b>" + suns + " on " + dnext + "</b><br>("
        + tnext + " away)</div>";
      assert suns == NoticeText(ChooseNotice(ele, next, jd));
      assert SplitDuration(dt) == SplitDuration(next - jd);
      assert ret == MakeTextHeadline(ele, next, jd, local);
    }
    ret := ret + ElevationSpan(ele);
  }
}
