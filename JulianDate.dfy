/** The two linear transforms between JavaScript clock time (milliseconds since
    the Unix epoch) and the Julian Date the solar formulas work in. */
module JulianDate {
  import opened JsNumbers

  /** The Julian Date of the Unix epoch, 1970-01-01T00:00:00Z. */
  const UnixEpochJd: real := 2440587.5
  /** Milliseconds in one day. */
  const MsPerDay: real := 86400000.0

  /** get_jd: seconds since the epoch (getTime() * 1e-3) over the seconds of a day,
      plus the Julian Date of the epoch. */
  function JulianDateOfMillis(ms: real): (jd: real)
    ensures jd - UnixEpochJd == ms / MsPerDay
  {
    ms * 0.001 / 86400.0 + UnixEpochJd
  }

  /** The argument get_date hands to Date.setTime: days since the epoch, in milliseconds. */
  function MillisOfJulianDate(jd: real): (ms: real)
    ensures ms == (jd - UnixEpochJd) * MsPerDay
  {
    (jd - UnixEpochJd) * 86400.0 * 1000.0
  }

  /** The time value of the Date that get_date returns: setTime keeps only the
      integer part of its argument (toward zero). */
  function DateMillis(jd: real): int {
    Trunc(MillisOfJulianDate(jd))
  }

  lemma MillisRoundTrip(ms: real)
    ensures MillisOfJulianDate(JulianDateOfMillis(ms)) == ms
  {
  }

  lemma JulianDateRoundTrip(jd: real)
    ensures JulianDateOfMillis(MillisOfJulianDate(jd)) == jd
  {
  }

  /** The Date that get_date builds from get_jd's value of an integer clock reading
      has exactly that reading. */
  lemma DateOfClockReading(ms: int)
    ensures DateMillis(JulianDateOfMillis(ms as real)) == ms
  {
    MillisRoundTrip(ms as real);
    TruncOfIntegral(ms);
  }

  /** The Date that get_date builds is at most one millisecond from the Julian Date. */
  lemma DateMillisWithinOne(jd: real)
    ensures var exact := MillisOfJulianDate(jd);
      exact - 1.0 < DateMillis(jd) as real < exact + 1.0
  {
  }

  /** Later clock readings give later Julian Dates, and one day of milliseconds is one day. */
  lemma JulianDateMonotone(ms1: real, ms2: real)
    ensures ms1 < ms2 <==> JulianDateOfMillis(ms1) < JulianDateOfMillis(ms2)
    ensures JulianDateOfMillis(ms1 + MsPerDay) == JulianDateOfMillis(ms1) + 1.0
  {
  }
}
