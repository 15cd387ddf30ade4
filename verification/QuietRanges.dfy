/** The quiet PCM of a segment (`analyze_exclusivity`): windows between beeps, cut by the segment's
    clock knots into ranges of whole samples. */
module QuietRanges {
  import opened Basics
  import opened ClockKnots

  /** A half-open window of milliseconds. */
  datatype Window = Window(start: real, end: real)
  /** A half-open range of samples. */
  datatype Range = Range(low: int, high: int)

  const GUARD_MS := 1250.0
  const BEEP_MS := 150.0

  // ---- windows ----

  /** The gaps between consecutive beeps that leave something after the guards. */
  function QuietWindows(expected: seq<real>): seq<Window> {
    if |expected| < 2 then []
    else
      var left, right := expected[0], expected[1];
      (if right - left > BEEP_MS + 2.0 * GUARD_MS then [Window(left + BEEP_MS + GUARD_MS, right - GUARD_MS)] else [])
      + QuietWindows(expected[1..])
  }

  ghost predicate Apart(windows: seq<Window>) {
    forall i, j :: 0 <= i < j < |windows| ==> windows[i].end <= windows[j].start
  }

  ghost predicate Increasing(v: seq<real>) {
    forall i, j :: 0 <= i < j < |v| ==> v[i] < v[j]
  }

  lemma {:induction false} WindowsAreApart(expected: seq<real>)
    requires Increasing(expected)
    ensures Apart(QuietWindows(expected))
    ensures forall i :: 0 <= i < |QuietWindows(expected)| ==>
        QuietWindows(expected)[i].start >= expected[0] + BEEP_MS + GUARD_MS
  {
    if |expected| >= 2 {
      WindowsAreApart(expected[1..]);
    }
  }

  ghost predicate InWindow(windows: seq<Window>, t: real) {
    exists i :: 0 <= i < |windows| && windows[i].start <= t < windows[i].end
  }

  /** From the guard after a beep's end to the guard before its onset there is no beep. */
  ghost predicate ClearOf(onset: real, t: real) {
    t >= onset + BEEP_MS + GUARD_MS || t < onset - GUARD_MS
  }

  /** Between the first beep and the last, and clear of every beep. */
  ghost predicate IsQuiet(expected: seq<real>, t: real) {
    && |expected| > 0 && expected[0] <= t < expected[|expected| - 1]
    && forall i :: 0 <= i < |expected| ==> ClearOf(expected[i], t)
  }

  lemma InWindowOfConcat(v: seq<Window>, w: seq<Window>, t: real)
    ensures InWindow(v + w, t) <==> InWindow(v, t) || InWindow(w, t)
  {
    if i :| 0 <= i < |v| && v[i].start <= t < v[i].end {
      assert (v + w)[i] == v[i];
    }
    if i :| 0 <= i < |w| && w[i].start <= t < w[i].end {
      assert (v + w)[|v| + i] == w[i];
    }
  }

  /** The windows hold exactly the quiet instants, with the whole guard on both sides of each beep. */
  lemma {:induction false} WindowsAreQuiet(expected: seq<real>, t: real)
    requires Increasing(expected)
    ensures InWindow(QuietWindows(expected), t) <==> IsQuiet(expected, t)
  {
    if |expected| >= 2 {
      var left, right, rest := expected[0], expected[1], expected[1..];
      var first := if right - left > BEEP_MS + 2.0 * GUARD_MS
                   then [Window(left + BEEP_MS + GUARD_MS, right - GUARD_MS)] else [];
      WindowsAreQuiet(rest, t);
      InWindowOfConcat(first, QuietWindows(rest), t);
      assert InWindow(first, t) <==> left + BEEP_MS + GUARD_MS <= t < right - GUARD_MS by {
        if left + BEEP_MS + GUARD_MS <= t < right - GUARD_MS {
          assert first[0].start <= t < first[0].end;
        }
      }
      QuietInFirstOrLater(expected, t);
    }
  }

  lemma QuietInFirstOrLater(expected: seq<real>, t: real)
    requires Increasing(expected) && |expected| >= 2
    ensures IsQuiet(expected, t) <==>
              expected[0] + BEEP_MS + GUARD_MS <= t < expected[1] - GUARD_MS || IsQuiet(expected[1..], t)
  {
    var rest := expected[1..];
    assert forall i :: 1 <= i < |expected| ==> expected[i] == rest[i - 1];
    if IsQuiet(expected, t) {
      assert ClearOf(expected[0], t) && ClearOf(expected[1], t);
    }
    if IsQuiet(rest, t) {
      assert ClearOf(rest[0], t);
    }
  }

  // ---- cutting one window by one pair of knots ----

  function Ceil(x: real): int {
    -((-x).Floor)
  }

  /** The first sample at or after a time. */
  function FirstAt(a: Knot, b: Knot, at: real): int
    requires a.ms < b.ms
  {
    Ceil(a.sample as real + Along(at - a.ms as real, (b.sample - a.sample) as real, (b.ms - a.ms) as real))
  }

  function Max(x: real, y: real): real { if x >= y then x else y }
  function Min(x: real, y: real): real { if x <= y then x else y }

  function Cut(a: Knot, b: Knot, w: Window): Option<Range>
    requires a.ms < b.ms
  {
    var left, right := Max(a.ms as real, w.start), Min(b.ms as real, w.end);
    if left >= right then None
    else
      var low, high := FirstAt(a, b, left), FirstAt(a, b, right);
      if low < high then Some(Range(low, high)) else None
  }

  lemma CeilIsLeast(x: real, s: int)
    ensures s >= Ceil(x) <==> s as real >= x
  {
  }

  lemma DivideBy(x: real, y: real, q: real)
    requires q > 0.0
    ensures x >= y / q <==> x * q >= y
    ensures y / q >= x <==> y >= x * q
  {
    assert (y / q) * q == y;
    if x > y / q {
      assert (x - y / q) * q > 0.0;
    } else if x < y / q {
      assert (y / q - x) * q > 0.0;
    }
  }

  lemma AlongInverts(d: real, t: real, p: real, q: real)
    requires p > 0.0 && q > 0.0
    ensures d >= Along(t, p, q) <==> Along(d, q, p) >= t
  {
    DivideBy(d, t * p, q);
    DivideBy(t, d * q, p);
  }

  /** A sample is at or after the first sample of a time exactly when its own time is. */
  lemma FirstAtIsExact(a: Knot, b: Knot, at: real, s: int)
    requires a.sample < b.sample && a.ms < b.ms
    ensures s >= FirstAt(a, b, at) <==> TimeIn(a, b, s) >= at
  {
    var ds, dm := (b.sample - a.sample) as real, (b.ms - a.ms) as real;
    var d, t := (s - a.sample) as real, at - a.ms as real;
    CeilIsLeast(a.sample as real + Along(t, ds, dm), s);
    AlongInverts(d, t, ds, dm);
  }

  /** Exactly the samples whose time lies in the clipped window are selected. */
  lemma CutIsExact(a: Knot, b: Knot, w: Window, s: int)
    requires a.sample < b.sample && a.ms < b.ms
    ensures (Cut(a, b, w).Some? && Cut(a, b, w).value.low <= s < Cut(a, b, w).value.high)
       <==> Max(a.ms as real, w.start) <= TimeIn(a, b, s) < Min(b.ms as real, w.end)
  {
    FirstAtIsExact(a, b, Max(a.ms as real, w.start), s);
    FirstAtIsExact(a, b, Min(b.ms as real, w.end), s);
  }

  lemma TimeStaysBetween(a: Knot, b: Knot, s: int)
    requires a.sample < b.sample && a.ms < b.ms
    ensures a.sample <= s < b.sample <==> a.ms as real <= TimeIn(a, b, s) < b.ms as real
  {
    FirstAtIsExact(a, b, a.ms as real, s);
    FirstAtIsExact(a, b, b.ms as real, s);
    AlongWhole((b.sample - a.sample) as real, (b.ms - a.ms) as real);
  }

  /** Within its own pair of knots a sample is selected exactly when it is quiet. */
  lemma CutSelectsQuiet(a: Knot, b: Knot, w: Window, s: int)
    requires a.sample < b.sample && a.ms < b.ms
    ensures (Cut(a, b, w).Some? && Cut(a, b, w).value.low <= s < Cut(a, b, w).value.high)
       <==> a.sample <= s < b.sample && w.start <= TimeIn(a, b, s) < w.end
  {
    CutIsExact(a, b, w, s);
    TimeStaysBetween(a, b, s);
  }

  /** The milliseconds credited to a range. */
  function Credit(a: Knot, b: Knot, r: Range): real
    requires a.sample < b.sample
  {
    Along((r.high - r.low) as real, (b.ms - a.ms) as real, (b.sample - a.sample) as real)
  }

  /** They miss the clipped window by less than one sample period. */
  lemma CreditIsWithinOnePeriod(a: Knot, b: Knot, w: Window)
    requires a.sample < b.sample && a.ms < b.ms && Cut(a, b, w).Some?
    ensures var period := (b.ms - a.ms) as real / (b.sample - a.sample) as real;
            var credit := Credit(a, b, Cut(a, b, w).value);
            var width := Min(b.ms as real, w.end) - Max(a.ms as real, w.start);
            -period < credit - width < period
  {
    var ds, dm := (b.sample - a.sample) as real, (b.ms - a.ms) as real;
    var left, right := Max(a.ms as real, w.start), Min(b.ms as real, w.end);
    var low, high := FirstAt(a, b, left), FirstAt(a, b, right);
    var tl, tr := left - a.ms as real, right - a.ms as real;
    CeilIsClose(a.sample as real + Along(tl, ds, dm));
    CeilIsClose(a.sample as real + Along(tr, ds, dm));
    Rescale((high - low) as real, tl, tr, ds, dm);
  }

  lemma CeilIsClose(x: real)
    ensures x <= Ceil(x) as real < x + 1.0
  {
  }

  lemma Rescale(n: real, tl: real, tr: real, ds: real, dm: real)
    requires ds > 0.0 && dm > 0.0 && -1.0 < n - (Along(tr, ds, dm) - Along(tl, ds, dm)) < 1.0
    ensures -(dm / ds) < Along(n, dm, ds) - (tr - tl) < dm / ds
  {
    var k := dm / ds;
    assert k > 0.0;
    assert tr * ds / dm * k == tr && tl * ds / dm * k == tl;
    assert n * dm / ds == n * k;
    var e := n - (tr * ds / dm - tl * ds / dm);
    assert e * k == n * k - (tr - tl);
    assert (1.0 - e) * k > 0.0 && (e + 1.0) * k > 0.0;
  }

  // ---- a whole segment ----

  /** The ranges of one pair of knots, window by window. */
  function PairRanges(a: Knot, b: Knot, quiet: seq<Window>): seq<Range>
    requires a.ms < b.ms
  {
    if quiet == [] then []
    else
      var n := |quiet| - 1;
      var cut := Cut(a, b, quiet[n]);
      PairRanges(a, b, quiet[..n]) + (if cut.Some? then [cut.value] else [])
  }

  /** All ranges of a segment, pair by pair. */
  function SegmentRanges(knots: seq<Knot>, quiet: seq<Window>): seq<Range>
    requires IsTimeline(knots)
  {
    if |knots| < 2 then []
    else
      var n := |knots| - 1;
      assert IsTimeline(knots[..n]);
      SegmentRanges(knots[..n], quiet) + PairRanges(knots[n - 1], knots[n], quiet)
  }

  /** The interpolated time of a sample of the segment. */
  function Time(knots: seq<Knot>, s: int): real
    requires IsTimeline(knots) && |knots| >= 2 && knots[0].sample <= s
    decreases |knots|
  {
    var n := |knots| - 1;
    if n == 1 || s >= knots[n - 1].sample then TimeIn(knots[n - 1], knots[n], s) else Time(knots[..n], s)
  }

  predicate In(r: Range, s: int) {
    r.low <= s < r.high
  }

  predicate Quiet(quiet: seq<Window>, t: real) {
    exists i | 0 <= i < |quiet| :: quiet[i].start <= t < quiet[i].end
  }

  ghost predicate InSome(ranges: seq<Range>, s: int) {
    exists i :: 0 <= i < |ranges| && In(ranges[i], s)
  }

  ghost predicate Disjoint(ranges: seq<Range>) {
    forall i, j, s :: 0 <= i < j < |ranges| && In(ranges[i], s) ==> !In(ranges[j], s)
  }

  lemma InSomeOfConcat(p: seq<Range>, q: seq<Range>, s: int)
    ensures InSome(p + q, s) <==> InSome(p, s) || InSome(q, s)
  {
    if i :| 0 <= i < |p| && In(p[i], s) {
      assert In((p + q)[i], s);
    }
    if i :| 0 <= i < |q| && In(q[i], s) {
      assert In((p + q)[|p| + i], s);
    }
  }

  lemma DisjointConcat(p: seq<Range>, q: seq<Range>)
    requires Disjoint(p) && Disjoint(q) && forall s :: InSome(p, s) ==> !InSome(q, s)
    ensures Disjoint(p + q)
  {
    var r := p + q;
    forall i, j, s | 0 <= i < j < |r| && In(r[i], s) ensures !In(r[j], s) {
      if i < |p| <= j && In(r[j], s) {
        assert In(p[i], s) && In(q[j - |p|], s);
        assert InSome(p, s) && InSome(q, s);
      }
    }
  }

  lemma {:induction false} PairIsExact(a: Knot, b: Knot, quiet: seq<Window>, s: int)
    requires a.sample < b.sample && a.ms < b.ms
    ensures InSome(PairRanges(a, b, quiet), s) <==> a.sample <= s < b.sample && Quiet(quiet, TimeIn(a, b, s))
  {
    if quiet != [] {
      var n, t := |quiet| - 1, TimeIn(a, b, s);
      var cut := Cut(a, b, quiet[n]);
      var last := if cut.Some? then [cut.value] else [];
      PairIsExact(a, b, quiet[..n], s);
      CutSelectsQuiet(a, b, quiet[n], s);
      InSomeOfConcat(PairRanges(a, b, quiet[..n]), last, s);
      assert InSome(last, s) <==> cut.Some? && In(cut.value, s) by {
        if cut.Some? { assert last[0] == cut.value; }
      }
      QuietSplits(quiet, t);
    }
  }

  lemma QuietSplits(quiet: seq<Window>, t: real)
    requires quiet != []
    ensures var n := |quiet| - 1;
            Quiet(quiet, t) <==> Quiet(quiet[..n], t) || quiet[n].start <= t < quiet[n].end
  {
    var n := |quiet| - 1;
    if i :| 0 <= i < n && quiet[..n][i].start <= t < quiet[..n][i].end {
      assert quiet[i].start <= t < quiet[i].end;
    }
  }

  lemma {:induction false} PairIsDisjoint(a: Knot, b: Knot, quiet: seq<Window>)
    requires a.sample < b.sample && a.ms < b.ms && Apart(quiet)
    ensures Disjoint(PairRanges(a, b, quiet))
  {
    if quiet != [] {
      var n := |quiet| - 1;
      var front, w := quiet[..n], quiet[n];
      var cut := Cut(a, b, w);
      PairIsDisjoint(a, b, front);
      if cut.Some? {
        forall s | InSome(PairRanges(a, b, front), s) ensures !InSome([cut.value], s) {
          PairIsExact(a, b, front, s);
          CutSelectsQuiet(a, b, w, s);
          var i :| 0 <= i < n && front[i].start <= TimeIn(a, b, s) < front[i].end;
          assert quiet[i].end <= quiet[n].start;
        }
        DisjointConcat(PairRanges(a, b, front), [cut.value]);
      } else {
        assert PairRanges(a, b, quiet) == PairRanges(a, b, front);
      }
    }
  }

  /** A sample of the segment lies in some range exactly when its interpolated time is quiet, and
      no range reaches outside the segment. */
  lemma {:induction false} RangesAreExact(knots: seq<Knot>, quiet: seq<Window>, s: int)
    requires IsTimeline(knots) && |knots| >= 2
    ensures InSome(SegmentRanges(knots, quiet), s)
       <==> IsQuietSample(knots, quiet, s)
    decreases |knots|
  {
    var n := |knots| - 1;
    PairIsExact(knots[n - 1], knots[n], quiet, s);
    InSomeOfConcat(SegmentRanges(knots[..n], quiet), PairRanges(knots[n - 1], knots[n], quiet), s);
    if n == 1 {
      assert SegmentRanges(knots[..1], quiet) == [];
    } else {
      RangesAreExact(knots[..n], quiet, s);
    }
  }

  /** No sample is counted twice. */
  lemma {:induction false} RangesAreDisjoint(knots: seq<Knot>, quiet: seq<Window>)
    requires IsTimeline(knots) && Apart(quiet)
    ensures Disjoint(SegmentRanges(knots, quiet))
    decreases |knots|
  {
    if |knots| >= 2 {
      var n := |knots| - 1;
      RangesAreDisjoint(knots[..n], quiet);
      PairIsDisjoint(knots[n - 1], knots[n], quiet);
      forall s | InSome(SegmentRanges(knots[..n], quiet), s)
        ensures !InSome(PairRanges(knots[n - 1], knots[n], quiet), s) {
        PairIsExact(knots[n - 1], knots[n], quiet, s);
        if n >= 2 {
          RangesAreExact(knots[..n], quiet, s);
        }
      }
      DisjointConcat(SegmentRanges(knots[..n], quiet), PairRanges(knots[n - 1], knots[n], quiet));
    }
  }

  // ---- counting ----

  function Total(ranges: seq<Range>): int {
    if ranges == [] then 0 else Total(ranges[..|ranges| - 1]) + ranges[|ranges| - 1].high - ranges[|ranges| - 1].low
  }

  function Samples(r: Range): set<int> {
    set s | r.low <= s < r.high && In(r, s)
  }

  ghost function AllSamples(ranges: seq<Range>): set<int> {
    if ranges == [] then {} else AllSamples(ranges[..|ranges| - 1]) + Samples(ranges[|ranges| - 1])
  }

  lemma {:induction false} RangeHoldsItsLength(r: Range)
    requires r.low <= r.high
    ensures |Samples(r)| == r.high - r.low
    decreases r.high - r.low
  {
    if r.low < r.high {
      RangeHoldsItsLength(Range(r.low, r.high - 1));
      assert Samples(r) == Samples(Range(r.low, r.high - 1)) + {r.high - 1};
    }
  }

  lemma {:induction false} AllSamplesAreInSome(ranges: seq<Range>, s: int)
    ensures s in AllSamples(ranges) <==> InSome(ranges, s)
  {
    if ranges != [] {
      var n := |ranges| - 1;
      AllSamplesAreInSome(ranges[..n], s);
      InSomeOfConcat(ranges[..n], [ranges[n]], s);
      assert ranges == ranges[..n] + [ranges[n]];
      assert [ranges[n]][0] == ranges[n];
      assert InSome([ranges[n]], s) <==> In(ranges[n], s);
    }
  }

  lemma {:induction false} TotalCountsSamples(ranges: seq<Range>)
    requires Disjoint(ranges) && forall i :: 0 <= i < |ranges| ==> ranges[i].low <= ranges[i].high
    ensures Total(ranges) == |AllSamples(ranges)|
  {
    if ranges != [] {
      var n := |ranges| - 1;
      TotalCountsSamples(ranges[..n]);
      RangeHoldsItsLength(ranges[n]);
      forall s | s in AllSamples(ranges[..n]) ensures s !in Samples(ranges[n]) {
        AllSamplesAreInSome(ranges[..n], s);
        var i :| 0 <= i < n && In(ranges[..n][i], s);
        assert In(ranges[i], s);
        assert !In(ranges[n], s);
      }
      assert AllSamples(ranges[..n]) !! Samples(ranges[n]);
    }
  }

  lemma {:induction false} CutsAreNonEmpty(a: Knot, b: Knot, quiet: seq<Window>)
    requires a.ms < b.ms
    ensures forall i :: 0 <= i < |PairRanges(a, b, quiet)| ==>
        PairRanges(a, b, quiet)[i].low < PairRanges(a, b, quiet)[i].high
  {
    if quiet != [] {
      CutsAreNonEmpty(a, b, quiet[..|quiet| - 1]);
    }
  }

  lemma {:induction false} RangesAreNonEmpty(knots: seq<Knot>, quiet: seq<Window>)
    requires IsTimeline(knots)
    ensures forall i :: 0 <= i < |SegmentRanges(knots, quiet)| ==>
              SegmentRanges(knots, quiet)[i].low < SegmentRanges(knots, quiet)[i].high
    decreases |knots|
  {
    if |knots| >= 2 {
      var n := |knots| - 1;
      RangesAreNonEmpty(knots[..n], quiet);
      CutsAreNonEmpty(knots[n - 1], knots[n], quiet);
    }
  }

  /** A sample of the segment whose interpolated time is quiet. */
  predicate IsQuietSample(knots: seq<Knot>, quiet: seq<Window>, s: int)
    requires IsTimeline(knots) && |knots| >= 2
  {
    knots[0].sample <= s < knots[|knots| - 1].sample && Quiet(quiet, Time(knots, s))
  }

  ghost function QuietSamples(knots: seq<Knot>, quiet: seq<Window>): set<int>
    requires IsTimeline(knots) && |knots| >= 2
  {
    set s | knots[0].sample <= s < knots[|knots| - 1].sample && IsQuietSample(knots, quiet, s)
  }

  lemma {:induction false} RangesHoldQuietSamples(knots: seq<Knot>, quiet: seq<Window>)
    requires IsTimeline(knots) && |knots| >= 2
    ensures AllSamples(SegmentRanges(knots, quiet)) == QuietSamples(knots, quiet)
  {
    var ranges := SegmentRanges(knots, quiet);
    forall s ensures s in AllSamples(ranges) <==> IsQuietSample(knots, quiet, s) {
      AllSamplesAreInSome(ranges, s);
      RangesAreExact(knots, quiet, s);
    }
  }

  /** The lengths of the ranges add up to the number of quiet samples of the segment. */
  lemma {:induction false} RangesCountQuietSamples(knots: seq<Knot>, quiet: seq<Window>)
    requires IsTimeline(knots) && |knots| >= 2 && Apart(quiet)
    ensures Total(SegmentRanges(knots, quiet)) == |QuietSamples(knots, quiet)|
  {
    RangesAreDisjoint(knots, quiet);
    RangesAreNonEmpty(knots, quiet);
    TotalCountsSamples(SegmentRanges(knots, quiet));
    RangesHoldQuietSamples(knots, quiet);
  }

  // ---- the loops ----

  function PairCredit(a: Knot, b: Knot, quiet: seq<Window>): real
    requires a.sample < b.sample && a.ms < b.ms
  {
    if quiet == [] then 0.0
    else
      var n := |quiet| - 1;
      var cut := Cut(a, b, quiet[n]);
      PairCredit(a, b, quiet[..n]) + if cut.Some? then Credit(a, b, cut.value) else 0.0
  }

  function SegmentCredit(knots: seq<Knot>, quiet: seq<Window>): real
    requires IsTimeline(knots)
    decreases |knots|
  {
    if |knots| < 2 then 0.0
    else
      var n := |knots| - 1;
      assert IsTimeline(knots[..n]);
      SegmentCredit(knots[..n], quiet) + PairCredit(knots[n - 1], knots[n], quiet)
  }

  method CutPair(a: Knot, b: Knot, quiet: seq<Window>) returns (ranges: seq<Range>, mappedMs: real)
    requires a.sample < b.sample && a.ms < b.ms
    ensures ranges == PairRanges(a, b, quiet) && mappedMs == PairCredit(a, b, quiet)
  {
    ranges, mappedMs := [], 0.0;
    for i := 0 to |quiet|
      invariant ranges == PairRanges(a, b, quiet[..i]) && mappedMs == PairCredit(a, b, quiet[..i])
    {
      assert quiet[..i + 1][..i] == quiet[..i];
      var left, right := Max(a.ms as real, quiet[i].start), Min(b.ms as real, quiet[i].end);
      if left < right {
        var low, high := FirstAt(a, b, left), FirstAt(a, b, right);
        if low < high {
          ranges := ranges + [Range(low, high)];
          mappedMs := mappedMs + Credit(a, b, Range(low, high));
        }
      }
    }
    assert quiet[..|quiet|] == quiet;
  }

  method CutSegment(knots: seq<Knot>, quiet: seq<Window>) returns (ranges: seq<Range>, mappedMs: real, count: int)
    requires IsTimeline(knots) && |knots| > 0
    ensures ranges == SegmentRanges(knots, quiet) && mappedMs == SegmentCredit(knots, quiet)
    ensures count == Total(ranges)
  {
    ranges, mappedMs := [], 0.0;
    for i := 1 to |knots|
      invariant IsTimeline(knots[..i])
      invariant ranges == SegmentRanges(knots[..i], quiet) && mappedMs == SegmentCredit(knots[..i], quiet)
    {
      assert knots[..i + 1][..i] == knots[..i];
      var more, ms := CutPair(knots[i - 1], knots[i], quiet);
      ranges := ranges + more;
      mappedMs := mappedMs + ms;
    }
    assert knots[..|knots|] == knots;
    count := 0;
    for i := 0 to |ranges|
      invariant count == Total(ranges[..i])
    {
      assert ranges[..i + 1][..i] == ranges[..i];
      count := count + (ranges[i].high - ranges[i].low);
    }
    assert ranges[..|ranges|] == ranges;
  }
}
