/** The low-precision solar position formula behind solar_elevation: the exact
    scaffolding (time of day, Julian centuries, the truncating remainders, the
    hour-angle branch, the four-band refraction correction) over exact reals, with
    the trigonometric functions supplied by the caller. */
module SolarPosition {
  import opened JsNumbers

  const EccentEarthOrbit: real := 0.0167042317652
  const SinObliqCorr: real := 0.397764267077
  const VarY: real := 0.0430314896879

  /** Math.PI: the double nearest to pi, which is exactly 884279719003555 / 2^48. */
  const MathPi: real := 884279719003555.0 / 281474976710656.0

  /** The Julian Date of the epoch J2000.0. */
  const J2000: real := 2451545.0

  function Degrees(radians: real): real {
    radians * 180.0 / MathPi
  }

  /** The trigonometric functions the formula calls (Math.sin, Math.cos, Math.asin,
      Math.acos, Math.tan). They stay abstract; the only thing the model needs of them
      is that tan is non-zero at the elevations where the refraction divides by it.
      Math.tan is non-zero at every non-zero double (no non-zero double is a multiple
      of pi), and the refraction never divides at elevation 0. */
  datatype TrigFunctions = TrigFunctions(
    sin: real -> real, cos: real -> real, asin: real -> real, acos: real -> real, tan: real -> real)

  ghost predicate TanUsable(t: TrigFunctions) {
    forall e :: RefractionDefined(Degrees(e), t.tan(e))
  }

  type Trig = t: TrigFunctions | TanUsable(t)
    witness TrigFunctions(x => x, x => x, x => x, x => x, x => 1.0)

  // ---------------------------------------------------------------------
  // Time arguments

  /** time_ut: the fraction of the UT day, counted from midnight (Julian Dates start at noon). */
  function TimeUt(jd: real): (r: real)
    ensures 0.0 <= r < 1.0
    ensures IsIntegral(jd - 0.5 - r)
  {
    jd - 0.5 - (jd - 0.5).Floor as real
  }

  /** The time of day repeats every whole day. */
  lemma TimeUtPeriodic(jd: real, days: int)
    ensures TimeUt(jd + days as real) == TimeUt(jd)
  {
    assert (jd + days as real - 0.5).Floor == (jd - 0.5).Floor + days;
  }

  /** It is UT midnight exactly at the Julian Dates n + 0.5. */
  lemma TimeUtMidnight(jd: real)
    ensures TimeUt(jd) == 0.0 <==> IsIntegral(jd - 0.5)
  {
  }

  /** julian_century: Julian centuries of 36525 days since J2000.0. */
  function JulianCentury(jd: real): (c: real)
    ensures jd == J2000 + 36525.0 * c
  {
    (jd - J2000) / 36525.0
  }

  /** The mean longitude of the Sun (degrees) before reduction. */
  function MeanLongitude(jc: real): real {
    280.46646 + jc * (36000.76983 + jc * 0.0003032)
  }

  /** geom_mean_long_sun, reduced by JavaScript's `% 360` to less than a full turn either way. */
  function GeomMeanLongSun(jc: real): (l: real)
    ensures -360.0 < l < 360.0
  {
    JsRem(MeanLongitude(jc), 360.0)
  }

  /** The reduction keeps the sign of the mean longitude (it truncates, it does not floor) and
      removes only whole turns. */
  lemma GeomMeanLongSunTurns(jc: real)
    ensures MeanLongitude(jc) >= 0.0 ==> GeomMeanLongSun(jc) >= 0.0
    ensures MeanLongitude(jc) < 0.0 ==> GeomMeanLongSun(jc) <= 0.0
    ensures IsIntegral((MeanLongitude(jc) - GeomMeanLongSun(jc)) / 360.0)
  {
  }

  /** true_solar_time: minutes of the day, wrapped by JavaScript's `% 1440`, then scaled by
      pi / 180 as the source does (so one day of minutes spans 8 pi). */
  function TrueSolarTime(timeUt: real, eqOfTime: real, longitude: real): (tst: real)
    ensures -8.0 * MathPi < tst < 8.0 * MathPi
    ensures timeUt * 1440.0 + eqOfTime + 4.0 * longitude >= 0.0 ==> tst >= 0.0
    ensures timeUt * 1440.0 + eqOfTime + 4.0 * longitude < 0.0 ==> tst <= 0.0
    ensures IsIntegral((timeUt * 1440.0 + eqOfTime + 4.0 * longitude - tst * 180.0 / MathPi) / 1440.0)
  {
    var r := JsRem(timeUt * 1440.0 + eqOfTime + 4.0 * longitude, 1440.0);
    assert r * MathPi / 180.0 * 180.0 / MathPi == r;
    r * MathPi / 180.0
  }

  /** hour_angle: a quarter of the true solar time, moved by pi toward zero. */
  function HourAngle(tst: real): (h: real)
    ensures -8.0 * MathPi < tst < 8.0 * MathPi ==> -MathPi <= h < MathPi
    ensures h == tst / 4.0 - MathPi || h == tst / 4.0 + MathPi
    ensures tst >= 0.0 ==> h < tst / 4.0
  {
    if tst < 0.0 then tst / 4.0 + MathPi else tst / 4.0 - MathPi
  }

  /** Whatever the time, the equation of time and the longitude, the hour angle is in [-pi, pi). */
  lemma HourAngleInRange(timeUt: real, eqOfTime: real, longitude: real)
    ensures var h := HourAngle(TrueSolarTime(timeUt, eqOfTime, longitude));
      -MathPi <= h < MathPi
  {
  }

  /** At true solar noon (720 minutes) the hour angle is zero. */
  lemma HourAngleAtSolarNoon(timeUt: real, eqOfTime: real, longitude: real)
    requires timeUt * 1440.0 + eqOfTime + 4.0 * longitude == 720.0
    ensures HourAngle(TrueSolarTime(timeUt, eqOfTime, longitude)) == 0.0
  {
    JsRemSmall(720.0, 1440.0);
  }

  // ---------------------------------------------------------------------
  // Atmospheric refraction

  /** tan is only divided by in the two bands 5 < W2 <= 85 and W2 <= -0.575. */
  predicate RefractionDefined(w2: real, tane: real) {
    (5.0 < w2 <= 85.0 || w2 <= -0.575) ==> tane != 0.0
  }

  /** Math.pow(x, n) / x ** n for a natural exponent. */
  function Pow(x: real, n: nat): (p: real)
    ensures x != 0.0 ==> p != 0.0
    ensures x > 0.0 ==> p > 0.0
  {
    if n == 0 then 1.0 else x * Pow(x, n - 1)
  }

  /** The near-horizon polynomial with its terms multiplied out. */
  function HorizonQuartic(w: real): real {
    1735.0 - 518.2 * w + 103.4 * w * w - 12.79 * w * w * w + 0.711 * w * w * w * w
  }

  /** Multiplied out by tan^5, the tan series of the 5-85 degree band is a polynomial in tan. */
  lemma TanSeriesScaled(t: real)
    requires t != 0.0
    ensures (58.1 / t - 0.07 / Pow(t, 3) + 0.000086 / Pow(t, 5)) * Pow(t, 5)
      == 58.1 * Pow(t, 4) - 0.07 * Pow(t, 2) + 0.000086
  {
    var p1, p2, p3, p4, p5 := Pow(t, 1), Pow(t, 2), Pow(t, 3), Pow(t, 4), Pow(t, 5);
    PowStep(t, 0);
    PowStep(t, 1);
    PowStep(t, 2);
    PowStep(t, 3);
    PowStep(t, 4);
    assert p1 == t;
    Regroup(t, p3);
    SeriesTimesPower(t, p2, p3, p4, p5);
  }

  /** The same identity with the powers as plain numbers related only by the products used. */
  lemma SeriesTimesPower(t: real, p2: real, p3: real, p4: real, p5: real)
    requires t != 0.0 && p3 != 0.0 && p5 != 0.0 && p5 == t * p4 && p5 == p3 * p2
    ensures (58.1 / t - 0.07 / p3 + 0.000086 / p5) * p5 == 58.1 * p4 - 0.07 * p2 + 0.000086
  {
    QuotientTimes(58.1, t, p5, p4);
    QuotientTimes(0.07, p3, p5, p2);
    QuotientTimes(0.000086, p5, p5, 1.0);
    Distribute(58.1 / t, 0.07 / p3, 0.000086 / p5, p5);
  }

  lemma PowStep(x: real, n: nat)
    ensures Pow(x, n + 1) == x * Pow(x, n)
  {
  }

  lemma Regroup(t: real, p: real)
    ensures t * (t * p) == p * (t * t)
  {
  }

  /** (a / x) * y == a * z when y == x * z. */
  lemma QuotientTimes(a: real, x: real, y: real, z: real)
    requires x != 0.0 && y == x * z
    ensures (a / x) * y == a * z
  {
    assert (a / x) * y == (a / x) * x * z;
  }

  lemma Distribute(a: real, b: real, c: real, y: real)
    ensures (a - b + c) * y == a * y - b * y + c * y
  {
  }

  /** atmo, in arc seconds, chosen by the band the uncorrected elevation W2 (degrees) is in. */
  function Refraction(w2: real, tane: real): (atmo: real)
    requires RefractionDefined(w2, tane)
    ensures w2 > 85.0 ==> atmo == 0.0
    ensures -0.575 < w2 <= 5.0 ==> atmo == HorizonQuartic(w2)
    ensures w2 <= -0.575 ==> atmo * tane == -20.772
    ensures 5.0 < w2 <= 85.0 ==> atmo * Pow(tane, 5) == 58.1 * Pow(tane, 4) - 0.07 * Pow(tane, 2) + 0.000086
  {
    if w2 > 85.0 then 0.0
    else if w2 > 5.0 then
      TanSeriesScaled(tane);
      58.1 / tane - 0.07 / Pow(tane, 3) + 0.000086 / Pow(tane, 5)
    else if w2 > -0.575 then 1735.0 + w2 * (-518.2 + w2 * (103.4 + w2 * (-12.79 + w2 * 0.711)))
    else -20.772 / tane
  }

  /** At the horizon the correction is 1735 arc seconds, whatever tan says. */
  lemma RefractionAtHorizon(tane: real)
    ensures Refraction(0.0, tane) == 1735.0
  {
  }

  /** The value solar_elevation returns: the uncorrected elevation plus the refraction in degrees. */
  function ApparentElevation(w2: real, tane: real): (e: real)
    requires RefractionDefined(w2, tane)
    ensures w2 > 85.0 ==> e == w2
    ensures (e - w2) * 3600.0 == Refraction(w2, tane)
  {
    w2 + Refraction(w2, tane) / 3600.0
  }

  // ---------------------------------------------------------------------
  // The whole formula

  /** The intermediate quantities of solar_elevation that the result depends on. */
  datatype SunGeometry = SunGeometry(
    timeUt: real, julianCentury: real, hourAngle: real, elevation: real, tane: real)

  function Geometry(trig: Trig, latitude: real, longitude: real, jd: real): (g: SunGeometry)
    ensures 0.0 <= g.timeUt < 1.0
    ensures jd == J2000 + 36525.0 * g.julianCentury
    ensures -MathPi <= g.hourAngle < MathPi
    ensures g.tane == trig.tan(g.elevation)
    ensures RefractionDefined(Degrees(g.elevation), g.tane)
  {
    var latitudeR := latitude * MathPi / 180.0;
    var timeUt := TimeUt(jd);
    var jc := JulianCentury(jd);
    var gmlsR := GeomMeanLongSun(jc) * MathPi / 180.0;
    var gmas := 357.52911 + jc * (35999.05029 - 0.0001537 * jc);
    var gmasR := gmas * MathPi / 180.0;
    var sunEqOfCtrR := (trig.sin(gmasR) * (1.914602 - jc * (0.004817 + 0.000014 * jc))
      + trig.sin(2.0 * gmasR) * (0.019993 - 0.000101 * jc)
      + trig.sin(3.0 * gmasR) * 0.000289) * MathPi / 180.0;
    var sunAppLongR := gmlsR + sunEqOfCtrR;
    var sunDeclinR := trig.asin(SinObliqCorr * trig.sin(sunAppLongR));
    var eqOfTime := 4.0 * (180.0 / MathPi) * (VarY * trig.sin(2.0 * gmlsR)
      - 2.0 * EccentEarthOrbit * trig.sin(gmasR)
      + 4.0 * EccentEarthOrbit * VarY * trig.sin(gmasR) * trig.cos(2.0 * gmlsR)
      - 0.5 * VarY * VarY * trig.sin(4.0 * gmlsR)
      - 1.25 * EccentEarthOrbit * EccentEarthOrbit * trig.sin(2.0 * gmasR));
    var hourAngle := HourAngle(TrueSolarTime(timeUt, eqOfTime, longitude));
    var zenith := trig.acos(trig.sin(latitudeR) * trig.sin(sunDeclinR)
      + trig.cos(latitudeR) * trig.cos(sunDeclinR) * trig.cos(hourAngle));
    var elevation := MathPi / 2.0 - zenith;
    SunGeometry(timeUt, jc, hourAngle, elevation, trig.tan(elevation))
  }

  /** solar_elevation at a location (degrees) and a Julian Date. */
  function SolarElevation(trig: Trig, latitude: real, longitude: real, jd: real): (e: real)
    ensures var g := Geometry(trig, latitude, longitude, jd);
      var w2 := Degrees(g.elevation);
      && (w2 > 85.0 ==> e == w2)
      && (e - w2) * 3600.0 == Refraction(w2, g.tane)
  {
    var g := Geometry(trig, latitude, longitude, jd);
    ApparentElevation(Degrees(g.elevation), g.tane)
  }

  /** The elevation as a function of time alone, the form the crossing scan takes it in. */
  function ElevationAt(trig: Trig, latitude: real, longitude: real): real -> real {
    jd => SolarElevation(trig, latitude, longitude, jd)
  }
}
