# Pluto Time, modelled in Dafny

The PlutoTime module for the MagicMirror dashboard shows when "Pluto Time" comes next at the configured location. Pluto Time is the moment around sunrise or sunset when daylight on Earth is as bright as noon on Pluto, which happens when the Sun is 1.5 degrees below the horizon.

On each refresh the module does the following:
1. It reads the clock and converts it to a Julian Date.
2. It computes the solar elevation with a low-precision solar position formula.
3. It scans forward in steps of 0.000115741 days (about ten seconds) until the elevation crosses -1.5 degrees.
4. It renders one of three notices:
   - "It's Pluto Time now!" when the crossing is at most five minutes away;
   - "After sunset" / "Before sunrise" otherwise, with the local date of the crossing and the time left until it.
5. It appends the current elevation, rounded to a tenth of a degree.

The repository holds two near-identical copies of this logic:
- `PlutoTime.js`, the current module;
- `plutotime.js`, an older copy. It uses `Math.pow` instead of `**` and has no `start` hook.

The model describes both at once. The table cites `PlutoTime.js`. Where a row's "states" column cites `plutotime.js`, those are the matching lines of the older copy.

The modules follow the program's structure:

- `JsNumbers`: the JavaScript number semantics the code relies on, over exact reals:
  - `Math.trunc`;
  - the truncating remainder `%`;
  - the decimal rendering of integer-valued numbers;
  - `toFixed(1)`;
  - reading digits back.
- `JulianDate`: `get_jd` and `get_date`, the linear transforms between Unix milliseconds and Julian Dates. It also models `Date.setTime` dropping the fractional millisecond.
- `SolarPosition`: `solar_elevation`. This covers the time of day, the Julian century, the two `%` reductions, the hour-angle branch and the four-band refraction correction. The trigonometric functions are passed in as a record of functions.
- `CrossingFinder`: `find_time`, as a method with the source's two `while` loops. It also carries a cap on the number of steps.
- `Display`: `format_next`, `format_date` and `make_text`. Each is a method proved against a specification function, with lemmas about that function (a parse-back round trip, the bracketing of the time left, the 12-hour clock).
- `Dashboard`: `getDom`, composing all of the above. It takes the clock reading, the location, the step cap and the time zone's calendar view as parameters.

## Model

| member | source | states |
|---|---|---|
| JsNumbers.Trunc | PlutoTime.js:22 | The integer toward zero: 0 <= t <= x < t + 1 for x >= 0, and t - 1 < x <= t <= 0 for negative x. `Date.setTime` keeps this part of its argument (plutotime.js:20). |
| JsNumbers.JsRem | PlutoTime.js:32 | JavaScript `%` for a positive divisor. The remainder has the dividend's sign and magnitude below the divisor, and the dividend minus it is a whole multiple of the divisor. Used at PlutoTime.js:46 too (plutotime.js:30, 44). |
| JsNumbers.JsRemSmall | PlutoTime.js:46 | A dividend already strictly between -b and b is its own remainder (plutotime.js:44). |
| JsNumbers.NatToStringDigits | PlutoTime.js:119-124 | The numeral that `${d}` prints for a natural number is a non-empty run of digits. It is a single digit exactly below ten, has no leading zero, and reading it back gives the number. Digits without a leading zero are unique for their value, so this is the canonical decimal (plutotime.js:103-105). |
| JsNumbers.LeadingDigitsOfNumeral | PlutoTime.js:119-124 | A numeral followed by a non-digit is read back exactly up to that non-digit. |
| JsNumbers.RoundTenths | PlutoTime.js:103 | The nearest count of tenths, a tie going up: n/10 - 0.05 <= a < n/10 + 0.05 (plutotime.js:90). |
| JsNumbers.ToFixed1Digits | PlutoTime.js:103 | `toFixed(1)` gives a minus sign exactly for negative x, then a whole part without a leading zero, a point and one digit. In tenths, that is the magnitude of x rounded to the nearest tenth (plutotime.js:90). |
| JulianDate.JulianDateOfMillis | PlutoTime.js:14-18 | `get_jd`: the Julian Date less that of the Unix epoch is the milliseconds over 86400000 (plutotime.js:12-16). |
| JulianDate.MillisRoundTrip | PlutoTime.js:16-22 | ms to JD to ms is the identity in exact arithmetic (plutotime.js:14-20). |
| JulianDate.JulianDateRoundTrip | PlutoTime.js:16-22 | JD to ms to JD is the identity in exact arithmetic. |
| JulianDate.DateOfClockReading | PlutoTime.js:20-24 | The Date that `get_date` builds from `get_jd`'s value of an integer clock reading has exactly that time value (plutotime.js:18-22). |
| JulianDate.DateMillisWithinOne | PlutoTime.js:22 | After `setTime` truncates, the Date is less than one millisecond from the Julian Date. |
| JulianDate.JulianDateMonotone | PlutoTime.js:14-18 | Later readings give later Julian Dates (both directions), and one day of milliseconds is one day. |
| SolarPosition.TimeUt | PlutoTime.js:30 | The time of day lies in [0, 1) and differs from jd - 0.5 by a whole number of days (plutotime.js:28). |
| SolarPosition.TimeUtPeriodic | PlutoTime.js:30 | Shifting jd by whole days leaves the time of day unchanged. |
| SolarPosition.TimeUtMidnight | PlutoTime.js:30 | The time of day is 0 exactly at the Julian Dates n + 0.5. |
| SolarPosition.JulianCentury | PlutoTime.js:31 | jd = 2451545 + 36525 * centuries (plutotime.js:29). |
| SolarPosition.GeomMeanLongSun | PlutoTime.js:32 | The mean longitude reduced by `% 360` lies in (-360, 360) (plutotime.js:30). |
| SolarPosition.GeomMeanLongSunTurns | PlutoTime.js:32 | The reduction keeps the sign of the mean longitude, both for a non-negative one and for a negative one (truncation, not floor), and removes only whole turns of 360 degrees. |
| SolarPosition.TrueSolarTime | PlutoTime.js:46 | The minutes wrapped by `% 1440` and scaled by pi/180 lie in (-8 pi, 8 pi) and take the sign of the argument. Converted back to minutes, the result differs from the argument by a whole number of days of 1440 minutes (plutotime.js:44). |
| SolarPosition.HourAngle | PlutoTime.js:48-52 | The sign branch is a quarter of the solar time shifted by pi toward zero, and lies in [-pi, pi) on the range TrueSolarTime produces (plutotime.js:46-47). |
| SolarPosition.HourAngleInRange | PlutoTime.js:46-52 | For every time, equation of time and longitude, the hour angle lies in [-pi, pi). |
| SolarPosition.HourAngleAtSolarNoon | PlutoTime.js:46-52 | At 720 true solar minutes the hour angle is 0. |
| SolarPosition.Pow | PlutoTime.js:61 | `tane ** n` (`Math.pow` at plutotime.js:54) is non-zero for non-zero tane and positive for positive tane. |
| SolarPosition.Refraction | PlutoTime.js:58-66 | One band by the thresholds 85, 5 and -0.575. Above 85 it is 0. From -0.575 to 5 it is the Horner quartic. Below -0.575, atmo * tane = -20.772. From 5 to 85 it is the series 58.1/tane - 0.07/tane^3 + 0.000086/tane^5, stated multiplied out by tane^5 (plutotime.js:53-56). |
| SolarPosition.TanSeriesScaled | PlutoTime.js:61 | Multiplied by tane^5, the series of the 5 to 85 band equals 58.1 tane^4 - 0.07 tane^2 + 0.000086 (`Math.pow` at plutotime.js:54). |
| SolarPosition.RefractionAtHorizon | PlutoTime.js:62-63 | At W2 = 0 the correction is 1735 arc seconds. |
| SolarPosition.ApparentElevation | PlutoTime.js:67 | The result is W2 plus atmo/3600, and is W2 itself above 85 degrees (plutotime.js:57). |
| SolarPosition.Geometry | PlutoTime.js:27-57 | The intermediate quantities: time of day in [0, 1), the century relation, hour angle in [-pi, pi), and tan taken at the elevation where refraction may divide by it (plutotime.js:25-52). |
| SolarPosition.SolarElevation | PlutoTime.js:26-68 | `solar_elevation`: the degrees of the elevation plus the refraction over 3600, uncorrected above 85 degrees (plutotime.js:24-58). |
| CrossingFinder.FindTime | PlutoTime.js:71-83 | The result is start + n * 0.000115741 for some n below the cap, so it is at least start. Samples 0..n are on the starting side (`<=` -1.5 below, `>` above) and sample n + 1 is not. It reports NotFound exactly when every sample up to the cap stays on the starting side (plutotime.js:61-74). |
| CrossingFinder.FirstCrossingUnique | PlutoTime.js:73-80 | The first crossing is unique, so n is the least count after which the scan changes side. |
| CrossingFinder.FirstCrossingExists | PlutoTime.js:73-80 | If sample m is on the other side, a first crossing exists before m, so a cap of at least m finds it. |
| CrossingFinder.NoCrossingBelowCap | PlutoTime.js:73-80 | When the scan stays on one side up to the cap, no first crossing lies below it. |
| Display.SplitDurationBounds | PlutoTime.js:108-116 | d = floor(dd). The hours are 0-23 and the minutes 0-59 after the carry. d + h/24 + m/1440 <= dd < d + h/24 + (m+1)/1440, so the parts count the whole minutes in dd (plutotime.js:95-101). |
| Display.SplitDurationUnique | PlutoTime.js:108-116 | Any in-range split that brackets dd to the minute is the one `format_next` takes. |
| Display.FormatNext | PlutoTime.js:108-126 | `format_next(dd)` builds the days segment iff d > 0, the hours segment iff h > 0, and the minutes segment always, from the split above (plutotime.js:95-107). |
| Display.DurationTextRoundTrip | PlutoTime.js:117-124 | Reading the text back gives the days, hours and minutes it was built from, a missing segment reading as zero. So the segments are placed and separated unambiguously. |
| Display.ClockAsWritten | PlutoTime.js:153-159 | The 12-hour rule as written: PM exactly when the hour exceeds 12. The clock hour is the hour less 12 for PM and the hour itself for AM, so 0..12 over a day (plutotime.js:117-121). |
| Display.ClockAsWrittenMisreadsNoonAndMidnight | PlutoTime.js:153-159 | As written, noon shows as 12 AM, which reads as midnight, and midnight shows as 0 AM. |
| Display.Clock12 | PlutoTime.js:153-159 | The corrected rule: clock hours 1..12, PM exactly from noon on, and reading it back gives the hour of the day. |
| Display.Clock12AgreesAwayFromNoonAndMidnight | PlutoTime.js:153-159 | The correction changes the result exactly at hours 0 and 12. |
| Display.MinuteTextDigits | PlutoTime.js:144-147 | The minutes are zero-padded to exactly two digits that read back as the minutes (plutotime.js:113-114). |
| Display.FormatDate | PlutoTime.js:128-163 | `format_date`: the month name, the day, the clock hour and AM/PM by the rule as written (ClockAsWritten), the padded minutes and the zone, in the source's order (plutotime.js:109-125). |
| Display.ChooseNotice | PlutoTime.js:86-95 | Pluto Time now iff next - jd <= 5/1440. Otherwise "After sunset" iff the elevation is above -1.5, else "Before sunrise" (plutotime.js:77-84). |
| Display.NoticeOfCrossing | PlutoTime.js:86-95 | For a crossing found n steps ahead: Pluto Time now iff n <= 29. "After sunset" announces a downward crossing, "Before sunrise" an upward one. |
| Display.MakeText | PlutoTime.js:85-106 | `make_text`: the notice chosen as above (with the date and time left when it is not now), then the elevation line, always (plutotime.js:76-93). |
| Dashboard.TimeLeftIsSteps | PlutoTime.js:198-202 | The time left to a crossing n steps ahead is n steps, at most five minutes exactly when n <= 29 (plutotime.js:144-148). |
| Dashboard.PanelAtSteps | PlutoTime.js:198-211 | The panel shows "It's Pluto Time now!" exactly for n <= 29. Otherwise it counts down n steps to sunset when the Sun is above -1.5, to sunrise when not. |
| Dashboard.RenderPanel | PlutoTime.js:198-212 | `getDom`'s own rendering: the notice (a different countdown template from `make_text`'s), then the elevation line (plutotime.js:144-156). |
| Dashboard.GetDom | PlutoTime.js:190-216 | One refresh. It renders the panel for the first crossing from the Julian Date of the clock reading, with the date of `get_date(next)`, and reports NoCrossingFound exactly when the capped scan stays on one side (plutotime.js:136-160). |

## Left out

- Trigonometry: `Math.sin`, `cos`, `asin`, `acos` and `tan` are parameters of the model (`TrigFunctions`). The only assumption is that tan is non-zero where the refraction divides by it. No numeric value of the elevation is modelled.
- Floating point: all arithmetic is over exact reals. Rounding is not modelled, nor the drift of `b += 0.000115741` across many additions; sample k is start + k * step exactly. The minute carry in `format_next` can fire only through rounding, so it is kept in the code but never fires here. The `min > 59` branch of `format_date` never fires, because `getMinutes()` is an integer from 0 to 59; it is kept in the code.
- `get_jd` multiplies by `1e-3`, modelled as the exact 0.001.
- CrossingFinder.FindTime: the source loop has no bound and never ends in polar day or night. The model stops after `cap` steps and reports NotFound, so its promise holds only for crossings below the cap.
- Dashboard.GetDom: inherits FindTime's cap. The clock (`new Date().getTime()`) is a parameter.
- The Date accessors and the time zone are not modelled: `getMonth`, `getDate`, `getHours`, `getMinutes`, and the zone name split out of `toString()` (PlutoTime.js:160). `FormatDate` takes that local calendar view as input (`LocalTime`), and `GetDom` takes the time zone's view as a function of the time value.
- JsNumbers.JsRem: only positive divisors, the only ones the code uses.
- Date time values out of range (NaN) are not modelled.
- `longitude_r` is computed but never used by the source, so it is left out.
- The DOM, `Module.register`, the `start` hook with its one-second `setInterval`, `Log.info` and `moment.locale` are not modelled; the module's configured location is a parameter, so the config defaults (latitude 34.2, longitude -118.1) are not modelled.
- `make_text` (Display.MakeText) is modelled, but `getDom` does not call it: the source renders its own variant (Dashboard.RenderPanel).

## Findings

| source | as written | input that shows it | evidently intended | confidence | as-written member | corrected member |
|---|---|---|---|---|---|---|
| PlutoTime.js:153-159 | only hours above 12 are reduced and marked PM, all others AM (same at plutotime.js:117-121) | hour 12 gives "12 AM"; hour 0 gives "0 AM" | noon as "12 PM" and midnight as "12 AM" | not executed | Display.ClockAsWrittenMisreadsNoonAndMidnight | Display.Clock12 |

The display text keeps the rule as written, so FormatDate, MakeText, RenderPanel and GetDom print what the module prints. Clock12 is the corrected rule beside it.
