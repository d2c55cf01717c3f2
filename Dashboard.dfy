/** getDom: one refresh of the dashboard panel. It reads the clock, computes the solar
    elevation now, scans for the next Pluto Time crossing and renders the panel text. */
module Dashboard {
  import opened JulianDate
  import opened SolarPosition
  import opened CrossingFinder
  import opened Display

  /** Shown(html): the panel's innerHTML. NoCrossingFound: the scan reached its cap. */
  datatype Refresh = Shown(html: string) | NoCrossingFound

  /** The panel's announcement of a crossing still ahead (getDom's own variant of make_text's). */
  function DomCountdownHtml(notice: string, date: string, left: string): string {
    "<div style=\"font-size:18px; LINE-HEIGHT:20px;\">" + notice + " on " + date + "<br>(" + left
      + " away)</div>"
  }

  /** The first line of the panel: the Pluto Time notice when the crossing at `next` is at most
      five minutes after jd, otherwise which crossing comes next, its local date and the time
      left until it. */
  function PanelHeadline(ele: real, next: real, jd: real, local: LocalTime): string {
    match ChooseNotice(ele, next, jd)
    case PlutoTimeNow => NoticeText(PlutoTimeNow)
    case notice => DomCountdownHtml(NoticeText(notice), DateText(local), DurationText(SplitDuration(next - jd)))
  }

  /** The whole panel: the headline, then the current elevation. */
  function PanelHtml(ele: real, next: real, jd: real, local: LocalTime): string {
    PanelHeadline(ele, next, jd, local) + ElevationSpan(ele)
  }

  /** For a crossing n scan steps ahead: the panel announces Pluto Time exactly when n is at
      most 29, and otherwise counts down n steps to the sunset crossing when the Sun is above the
      target angle now, to the sunrise crossing when it is not. */
  lemma PanelAtSteps(ele: real, jd: real, n: nat, local: LocalTime)
    ensures n <= 29 ==> PanelHeadline(ele, Sample(jd, n), jd, local) == "It's Pluto Time now!"
    ensures n > 29 ==>
      PanelHeadline(ele, Sample(jd, n), jd, local)
        == DomCountdownHtml(if Below(ele) then "Before sunrise" else "After sunset", DateText(local),
             DurationText(SplitDuration(n as real * Step)))
  {
    TimeLeftIsSteps(jd, n);
    assert SplitDuration(Sample(jd, n) - jd) == SplitDuration(n as real * Step);
  }

  /** The time left until a crossing n steps ahead is n steps, which is at most five minutes
      exactly when n is at most 29. */
  lemma TimeLeftIsSteps(jd: real, n: nat)
    ensures Sample(jd, n) - jd == n as real * Step
    ensures n <= 29 <==> Sample(jd, n) - jd <= MinDt
  {
    if n >= 30 {
      assert n as real * Step >= 30.0 * Step;
    }
  }

  /** The panel getDom renders from the elevation now, the next crossing and the local calendar
      view of it (getDom builds it in place rather than calling make_text). */
  method RenderPanel(ele: real, next: real, jd: real, local: LocalTime) returns (html: string)
    ensures html == PanelHtml(ele, next, jd, local)
  {
    var mindt := 5.0 / (60.0 * 24.0);
    var dt := next - jd;
    if dt <= mindt {
      html := "It's Pluto Time now!";
      assert html == PanelHeadline(ele, next, jd, local);
    } else {
      var tnext := FormatNext(dt);
      var suns := if ele > TargetAngle then "After sunset" else "Before sunrise";
      var dnext := FormatDate(local);
      html := "<div style=\"font-size:18px; LINE-HEIGHT:20px;\">" + suns + " on " + dnext + "<br>("
        + tnext + " away)</div>";
      assert suns == NoticeText(ChooseNotice(ele, next, jd));
      assert SplitDuration(dt) == SplitDuration(next - jd);
      assert html == PanelHeadline(ele, next, jd, local);
    }
    html := html + ElevationSpan(ele);
  }

  /** getDom, given the clock reading nowMs (Date.getTime), the configured location, a cap on
      the scan and the time zone's calendar view of a time value (the Date accessors). */
  method GetDom(trig: Trig, latitude: real, longitude: real, nowMs: int, cap: nat,
                localOf: int -> LocalTime) returns (r: Refresh)
    ensures var f := ElevationAt(trig, latitude, longitude);
      var jd := JulianDateOfMillis(nowMs as real);
      && (r.NoCrossingFound? <==> StaysUpTo(f, jd, cap))
      && (r.Shown? ==>
            exists n: nat :: n < cap && FirstCrossingAt(f, jd, n)
              && r.html == PanelHtml(f(jd), Sample(jd, n), jd, localOf(DateMillis(Sample(jd, n)))))
  {
    var julianDate := JulianDateOfMillis(nowMs as real);
    var sunElevation := SolarElevation(trig, latitude, longitude, julianDate);
    ghost var f := ElevationAt(trig, latitude, longitude);
    var found := FindTime(ElevationAt(trig, latitude, longitude), julianDate, cap);
    if found.NotFound? {
      return NoCrossingFound;
    }
    var next := found.time;
    ghost var n: nat :| n < cap && next == Sample(julianDate, n) && FirstCrossingAt(f, julianDate, n);
    assert f(julianDate) == sunElevation;
    var html := RenderPanel(sunElevation, next, julianDate, localOf(DateMillis(next)));
    r := Shown(html);
  }
}
