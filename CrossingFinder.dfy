/** find_time: the fixed-step forward scan for the next moment the solar elevation
    crosses the Pluto Time angle, with an explicit cap on the number of steps. */
module CrossingFinder {

  /** The elevation (degrees) at which sunlight on Earth is as bright as noon on Pluto. */
  const TargetAngle: real := -1.5
  /** The scan step in days (about ten seconds). */
  const Step: real := 0.000115741

  /** Found(t): t is the last sample still on the starting side of the target.
      NotFound: no crossing within the cap. */
  datatype Outcome = Found(time: real) | NotFound

  /** The two sides of the target: at or below it, and above it. */
  predicate Below(e: real) {
    e <= TargetAngle
  }

  /** The k-th sample of a scan that starts at `start`. */
  function Sample(start: real, k: nat): real {
    start + k as real * Step
  }

  predicate OnStartSide(f: real -> real, start: real, k: nat) {
    Below(f(Sample(start, k))) == Below(f(start))
  }

  /** Samples 0 through n are all on the starting side. */
  ghost predicate StaysUpTo(f: real -> real, start: real, n: nat) {
    forall k: nat :: k <= n ==> OnStartSide(f, start, k)
  }

  /** Sample n is the last one before the elevation changes side. */
  ghost predicate FirstCrossingAt(f: real -> real, start: real, n: nat) {
    StaysUpTo(f, start, n) && !OnStartSide(f, start, n + 1)
  }

  /** find_time, taking at most `cap` steps. The source loops for as long as the next
      sample stays on the side the start is on; here the loop also stops after `cap` steps,
      which is reported as NotFound. */
  method FindTime(f: real -> real, start: real, cap: nat) returns (r: Outcome)
    ensures r.Found? ==> start <= r.time
    ensures r.Found? ==> exists n: nat :: n < cap && r.time == Sample(start, n) && FirstCrossingAt(f, start, n)
    ensures r.NotFound? <==> StaysUpTo(f, start, cap)
  {
    var b := start;
    var i: nat := 0;
    if f(start) <= TargetAngle {
      while i < cap && f(b + Step) <= TargetAngle
        invariant i <= cap && b == Sample(start, i)
        invariant StaysUpTo(f, start, i)
      {
        assert b + Step == Sample(start, i + 1);
        b := b + Step;
        i := i + 1;
      }
    } else {
      while i < cap && f(b + Step) > TargetAngle
        invariant i <= cap && b == Sample(start, i)
        invariant StaysUpTo(f, start, i)
      {
        assert b + Step == Sample(start, i + 1);
        b := b + Step;
        i := i + 1;
      }
    }
    if i < cap {
      assert b + Step == Sample(start, i + 1);
      assert FirstCrossingAt(f, start, i);
      r := Found(b);
    } else {
      r := NotFound;
    }
  }

  /** The first crossing is unique, so FindTime's result is determined by f, start and cap. */
  lemma FirstCrossingUnique(f: real -> real, start: real, n: nat, m: nat)
    requires FirstCrossingAt(f, start, n) && FirstCrossingAt(f, start, m)
    ensures n == m
  {
  }

  /** If any sample up to and including sample m is on the other side, a first crossing comes
      before it; so FindTime with a cap of at least m returns Found. */
  lemma {:induction false} FirstCrossingExists(f: real -> real, start: real, m: nat)
    requires !OnStartSide(f, start, m)
    ensures exists n: nat :: n < m && FirstCrossingAt(f, start, n)
    decreases m
  {
    assert Sample(start, 0) == start;
    assert m > 0;
    if StaysUpTo(f, start, m - 1) {
      assert FirstCrossingAt(f, start, m - 1);
    } else {
      var k: nat :| k <= m - 1 && !OnStartSide(f, start, k);
      FirstCrossingExists(f, start, k);
    }
  }

  /** A scan that reports no crossing within the cap saw every sample up to the cap on one side,
      so there is no crossing to find below it. */
  lemma NoCrossingBelowCap(f: real -> real, start: real, cap: nat, n: nat)
    requires StaysUpTo(f, start, cap) && n < cap
    ensures !FirstCrossingAt(f, start, n)
  {
    assert OnStartSide(f, start, n + 1);
  }
}
