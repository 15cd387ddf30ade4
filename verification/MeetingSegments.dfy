/** Segments of a recording written from a corpus (`build_meeting`), the check every sidecar must
    pass (`_validate_sidecar`), and the clock its knots describe (`_raw_sample_to_monotonic`). */
module MeetingSegments {
  import opened Basics
  import opened ClockKnots

  /** The numeric fields of a sidecar. */
  datatype Sidecar = Sidecar(
    index: int, start: int, end: int, frames: int, framesAtCheckpoint: int,
    openedMs: int, anchorServer: int, anchorMono: int, recordedAtOpen: int,
    timeline: seq<Knot>, last: bool)

  const MONO0 := 5_000_000
  const MAX_FRAMES := 4_800_000
  const MAX_KNOTS := 302
  const LONGEST_MS := 14_400_000

  // ---- writing: 16 000 samples a second, 4 800 000 samples in five minutes ----

  function Mono(s: int): int {
    MONO0 + s * 1000 / 16_000
  }

  function KnotAt(s: int): Knot {
    Knot(s, Mono(s))
  }

  /** A knot on every second from the first sample, and one at the end. */
  function Timeline(sample: nat, count: nat): seq<Knot> {
    seq((count + 15_999) / 16_000, k => KnotAt(sample + k * 16_000)) + [KnotAt(sample + count)]
  }

  method Knots(sample: nat, count: nat) returns (knots: seq<Knot>)
    requires count > 0
    ensures knots == Timeline(sample, count)
  {
    knots := [];
    var s := sample;
    while s < sample + count
      invariant s == sample + |knots| * 16_000
      invariant |knots| <= (count + 15_999) / 16_000
      invariant forall k :: 0 <= k < |knots| ==> knots[k] == KnotAt(sample + k * 16_000)
    {
      knots := knots + [KnotAt(s)];
      s := s + 16_000;
    }
    if knots[|knots| - 1].sample != sample + count {
      knots := knots + [KnotAt(sample + count)];
    }
  }

  function SidecarOf(frames: nat, index: nat, sample: nat, count: nat): Sidecar {
    Sidecar(index, sample, sample + count, count, count, Mono(sample), Mono(sample), Mono(sample),
            sample * 1000 / 16_000, Timeline(sample, count), sample + count >= frames)
  }

  /** Segment `k` of a recording: five minutes, or what is left. */
  function SegmentAt(frames: nat, k: nat): Sidecar
    requires k * 4_800_000 < frames
  {
    SidecarOf(frames, k, k * 4_800_000, if (k + 1) * 4_800_000 <= frames then 4_800_000 else frames - k * 4_800_000)
  }

  ghost predicate Built(frames: nat, sides: seq<Sidecar>) {
    forall k: nat :: k < |sides| ==> k * 4_800_000 < frames && sides[k] == SegmentAt(frames, k)
  }

  /** The sidecars are the recording's segments, in order and without a gap. */
  ghost predicate Partition(sides: seq<Sidecar>, frames: nat) {
    && sides != [] && sides[0].start == 0 && sides[|sides| - 1].end == frames
    && (forall k :: 0 <= k < |sides| ==> sides[k].index == k && sides[k].start < sides[k].end)
    && (forall k :: 0 <= k < |sides| - 1 ==> sides[k].end == sides[k + 1].start)
    && (forall k :: 0 <= k < |sides| ==> (sides[k].last <==> k == |sides| - 1))
  }

  lemma SegmentEnds(frames: nat, k: nat)
    requires k * 4_800_000 < frames
    ensures var side := SegmentAt(frames, k);
            && side.index == k && side.start == k * 4_800_000
            && side.end == (if (k + 1) * 4_800_000 <= frames then (k + 1) * 4_800_000 else frames)
            && (side.last <==> (k + 1) * 4_800_000 >= frames)
  {
  }

  /** The segments of one track; nothing for an empty recording or one over four hours. */
  method BuildTrack(frames: int) returns (r: Option<seq<Sidecar>>)
    ensures r.Some? <==> 0 < frames && frames * 1000 / 16_000 <= LONGEST_MS
    ensures r.Some? ==> Built(frames, r.value) && Partition(r.value, frames)
  {
    if frames <= 0 || frames * 1000 / 16_000 > LONGEST_MS {
      return None;
    }
    var sides: seq<Sidecar> := [];
    var sample, index := 0, 0;
    while sample < frames
      invariant index == |sides| && 0 <= sample <= frames
      invariant sample == if index * 4_800_000 <= frames then index * 4_800_000 else frames
      invariant index == 0 || (index - 1) * 4_800_000 < frames
      invariant Built(frames, sides)
    {
      var count := if 4_800_000 <= frames - sample then 4_800_000 else frames - sample;
      var side := WriteSegment(frames, index, sample, count);
      AddSegment(frames, sides);
      sides := sides + [side];
      sample := sample + count;
      index := index + 1;
    }
    BuiltIsPartition(frames, sides);
    r := Some(sides);
  }

  method WriteSegment(frames: nat, index: nat, sample: nat, count: nat) returns (side: Sidecar)
    requires count > 0
    ensures side == SidecarOf(frames, index, sample, count)
  {
    var knots := Knots(sample, count);
    side := Sidecar(index, sample, sample + count, count, count, Mono(sample), Mono(sample), Mono(sample),
                    sample * 1000 / 16_000, knots, sample + count >= frames);
  }

  lemma AddSegment(frames: nat, sides: seq<Sidecar>)
    requires Built(frames, sides) && |sides| * 4_800_000 < frames
    ensures Built(frames, sides + [SegmentAt(frames, |sides|)])
  {
  }

  lemma BuiltIsPartition(frames: nat, sides: seq<Sidecar>)
    requires frames > 0 && Built(frames, sides)
    requires (|sides| - 1) * 4_800_000 < frames <= |sides| * 4_800_000
    ensures Partition(sides, frames)
  {
    forall k: nat | k < |sides|
      ensures sides[k].index == k && sides[k].start == k * 4_800_000
      ensures sides[k].end == if k < |sides| - 1 then (k + 1) * 4_800_000 else frames
      ensures sides[k].last <==> k == |sides| - 1
    {
      SegmentEnds(frames, k);
    }
  }

  // ---- checking ----

  predicate GoodNumbers(side: Sidecar) {
    && 0 <= side.frames && 0 <= side.framesAtCheckpoint && 0 <= side.start && 0 <= side.end
    && 0 <= side.index && 0 <= side.openedMs
    && side.end - side.start == side.frames
    && side.framesAtCheckpoint <= side.frames <= MAX_FRAMES
    && 1 <= |side.timeline| <= MAX_KNOTS
  }

  predicate GoodAnchor(side: Sidecar)
    requires side.timeline != []
  {
    && 0 <= side.anchorServer && 0 <= side.anchorMono && side.anchorMono == side.openedMs
    && side.timeline[0] == Knot(side.start, side.anchorMono)
  }

  ghost predicate ValidSidecar(side: Sidecar) {
    && GoodNumbers(side) && GoodAnchor(side)
    && IsTimeline(side.timeline)
    && forall k :: 0 <= k < |side.timeline| ==>
      side.start <= side.timeline[k].sample <= side.end && 0 <= side.timeline[k].ms
  }

  /** The neighbour-by-neighbour check decides that both axes strictly increase throughout. */
  method ValidateSidecar(side: Sidecar) returns (ok: bool)
    ensures ok <==> ValidSidecar(side)
  {
    if !GoodNumbers(side) {
      return false;
    }
    var points := side.timeline;
    for index := 0 to |points|
      invariant IsTimeline(points[..index])
      invariant forall k :: 0 <= k < index ==> side.start <= points[k].sample <= side.end && 0 <= points[k].ms
    {
      if points[index].sample < 0 || points[index].ms < 0
         || !(side.start <= points[index].sample <= side.end)
         || (index > 0 && points[index].sample <= points[index - 1].sample)
         || (index > 0 && points[index].ms <= points[index - 1].ms)
      {
        return false;
      }
      assert points[..index + 1] == points[..index] + [points[index]];
      assert index > 0 ==> points[..index][index - 1] == points[index - 1];
    }
    assert points[..|points|] == points;
    ok := GoodAnchor(side);
  }

  // ---- the written sidecars are the checked ones ----

  lemma TimelineKnots(sample: nat, count: nat, k: nat)
    requires count > 0 && k < |Timeline(sample, count)|
    ensures var n := |Timeline(sample, count)| - 1;
            && n == (count + 15_999) / 16_000
            && Timeline(sample, count)[k] == KnotAt(if k < n then sample + k * 16_000 else sample + count)
  {
  }

  /** Knots a second apart are a thousand milliseconds apart, so only the last gap matters. */
  lemma KnotsIncreaseIff(knots: seq<Knot>, sample: nat, gap: nat)
    requires |knots| > 1 && sample % 16_000 == 0 && 0 < gap <= 16_000
    requires forall k :: 0 <= k < |knots| - 1 ==> knots[k] == KnotAt(sample + k * 16_000)
    requires knots[|knots| - 1] == KnotAt(sample + (|knots| - 2) * 16_000 + gap)
    ensures IsTimeline(knots) <==> gap >= 16
  {
    var n := |knots| - 1;
    forall i: nat, j: nat | i < j < n ensures knots[i].sample < knots[j].sample && knots[i].ms < knots[j].ms {
      SecondsApart(sample, i);
      SecondsApart(sample, j);
    }
    forall i: nat | i < n ensures knots[i].sample < knots[n].sample && knots[i].ms <= knots[n - 1].ms {
      SecondsApart(sample, i);
      SecondsApart(sample, n - 1);
    }
    SecondsLater(sample, n - 1);
    GapSpans(sample + (n - 1) * 16_000, gap);
    assert knots[n - 1] == KnotAt(sample + (n - 1) * 16_000);
    assert knots[n].ms == knots[n - 1].ms + gap / 16;
  }

  lemma GapSpans(s: nat, gap: nat)
    requires s % 16_000 == 0
    ensures Mono(s + gap) == Mono(s) + gap / 16
  {
    MonoIsSixteenth(s);
    MonoIsSixteenth(s + gap);
    var q := 1000 * (s / 16_000);
    assert s == 16 * q;
    SixteenthsAdd(q, 0);
    SixteenthsAdd(q, gap);
  }

  lemma MonoIsSixteenth(s: int)
    ensures Mono(s) == MONO0 + s / 16
  {
  }

  lemma SixteenthsAdd(q: int, gap: int)
    ensures (16 * q + gap) / 16 == q + gap / 16
  {
  }

  lemma SecondsApart(sample: nat, k: nat)
    requires sample % 16_000 == 0
    ensures Mono(sample + k * 16_000) == Mono(sample) + k * 1000
  {
  }

  lemma TimelineIncreasesIff(sample: nat, count: nat)
    requires count > 0 && sample % 16_000 == 0
    ensures IsTimeline(Timeline(sample, count)) <==> count % 16_000 == 0 || count % 16_000 >= 16
  {
    var t := Timeline(sample, count);
    forall k | 0 <= k < |t| - 1 ensures t[k] == KnotAt(sample + k * 16_000) {
      TimelineKnots(sample, count, k);
    }
    TimelineKnots(sample, count, |t| - 1);
    KnotsIncreaseIff(t, sample, count - (|t| - 2) * 16_000);
  }

  /** One written sidecar is valid exactly when its last gap spans a millisecond. */
  lemma WrittenSidecarIsValidIff(frames: nat, index: nat, sample: nat, count: nat)
    requires 0 < count <= 4_800_000 && sample % 16_000 == 0
    ensures ValidSidecar(SidecarOf(frames, index, sample, count)) <==> count % 16_000 == 0 || count % 16_000 >= 16
  {
    var side := SidecarOf(frames, index, sample, count);
    TimelineIncreasesIff(sample, count);
    TimelineKnots(sample, count, 0);
    forall k | 0 <= k < |side.timeline|
      ensures side.start <= side.timeline[k].sample <= side.end && 0 <= side.timeline[k].ms
    {
      TimelineKnots(sample, count, k);
    }
  }

  /** Every sidecar of a recording passes the check exactly when the recording does not end one to
      fifteen samples after a whole second. */
  lemma BuiltSidecarsAreValidIff(frames: nat, sides: seq<Sidecar>)
    requires frames > 0 && Partition(sides, frames)
    requires Built(frames, sides)
    ensures (forall k :: 0 <= k < |sides| ==> ValidSidecar(sides[k])) <==> frames % 16_000 == 0 || frames % 16_000 >= 16
  {
    forall k: nat | k < |sides| - 1 ensures ValidSidecar(sides[k]) {
      FullSegmentIsValid(frames, sides, k);
    }
    LastSegmentIsValidIff(frames, sides);
  }

  lemma FullSegmentIsValid(frames: nat, sides: seq<Sidecar>, k: nat)
    requires Partition(sides, frames) && Built(frames, sides) && k + 1 < |sides|
    ensures ValidSidecar(sides[k])
  {
    FullSegment(frames, sides, k);
    WholeSeconds(k);
    WrittenSidecarIsValidIff(frames, k, k * 4_800_000, 4_800_000);
  }

  lemma LastSegmentIsValidIff(frames: nat, sides: seq<Sidecar>)
    requires Partition(sides, frames) && Built(frames, sides)
    ensures ValidSidecar(sides[|sides| - 1]) <==> frames % 16_000 == 0 || frames % 16_000 >= 16
  {
    var n := |sides| - 1;
    LastSegment(frames, sides);
    WholeSeconds(n);
    WrittenSidecarIsValidIff(frames, n, n * 4_800_000, frames - n * 4_800_000);
    WholeSegments(frames, n);
  }

  lemma WholeSeconds(k: nat)
    ensures k * 4_800_000 % 16_000 == 0
  {
    Remainder(k * 4_800_000, 300 * k, 0);
  }

  lemma WholeSegments(frames: nat, n: nat)
    ensures (frames - n * 4_800_000) % 16_000 == frames % 16_000
  {
    Remainder(frames - n * 4_800_000, frames / 16_000 - 300 * n, frames % 16_000);
  }

  lemma Remainder(a: int, q: int, r: int)
    requires 0 <= r < 16_000 && a == q * 16_000 + r
    ensures a % 16_000 == r
  {
  }

  lemma FullSegment(frames: nat, sides: seq<Sidecar>, k: nat)
    requires Partition(sides, frames) && k + 1 < |sides|
    requires Built(frames, sides)
    ensures sides[k] == SidecarOf(frames, k, k * 4_800_000, 4_800_000)
    ensures sides[k + 1].start == (k + 1) * 4_800_000
  {
    assert sides[k] == SegmentAt(frames, k) && sides[k + 1] == SegmentAt(frames, k + 1);
  }

  lemma LastSegment(frames: nat, sides: seq<Sidecar>)
    requires Partition(sides, frames)
    requires Built(frames, sides)
    ensures var n := |sides| - 1;
            && 0 < frames - n * 4_800_000 <= 4_800_000
            && sides[n] == SidecarOf(frames, n, n * 4_800_000, frames - n * 4_800_000)
  {
    var n := |sides| - 1;
    assert sides[n] == SegmentAt(frames, n);
    assert sides[n].end == frames;
  }

  /** Adjacent segments end and begin on the same knot. */
  lemma SegmentsShareKnots(frames: nat, sides: seq<Sidecar>, k: nat)
    requires frames > 0 && Partition(sides, frames) && k + 1 < |sides|
    requires Built(frames, sides)
    ensures var a, b := sides[k].timeline, sides[k + 1].timeline;
            a != [] && b != [] && a[|a| - 1] == b[0] == KnotAt(sides[k].end)
  {
    FullSegment(frames, sides, k);
    assert sides[k + 1] == SegmentAt(frames, k + 1);
    TimelineKnots(k * 4_800_000, 4_800_000, |sides[k].timeline| - 1);
    TimelineKnots((k + 1) * 4_800_000, sides[k + 1].frames, 0);
  }

  // ---- the clock ----

  /** Knot `i` is the sample, or the sample lies between knots `i` and `i + 1`. */
  ghost predicate MapsIn(knots: seq<Knot>, i: nat, s: int, v: real) {
    && i < |knots|
    && ( || (knots[i].sample == s && v == knots[i].ms as real)
         || (i + 1 < |knots| && knots[i].sample < s < knots[i + 1].sample && v == TimeIn(knots[i], knots[i + 1], s)))
  }

  ghost predicate MapsTo(knots: seq<Knot>, s: int, v: real) {
    exists i: nat :: MapsIn(knots, i, s, v)
  }

  method RawSampleToMonotonic(side: Sidecar, s: int) returns (r: Option<real>)
    ensures r.Some? <==> ValidSidecar(side) && side.start <= s <= side.timeline[|side.timeline| - 1].sample
    ensures r.Some? ==> MapsTo(side.timeline, s, r.value)
  {
    var ok := ValidateSidecar(side);
    if !ok || !(side.start <= s <= side.end) {
      return None;
    }
    var knots := side.timeline;
    for i := 0 to |knots|
      invariant forall k :: 0 <= k < i ==> knots[k].sample != s
    {
      if knots[i].sample == s {
        assert MapsIn(knots, i, s, knots[i].ms as real);
        return Some(knots[i].ms as real);
      }
    }
    for i := 0 to |knots| - 1
      invariant knots[i].sample < s
    {
      if knots[i].sample < s < knots[i + 1].sample {
        assert MapsIn(knots, i, s, TimeIn(knots[i], knots[i + 1], s));
        return Some(TimeIn(knots[i], knots[i + 1], s));
      }
    }
    r := None;
  }

  lemma AlongIncreases(x: real, y: real, p: real, q: real)
    requires x < y && p > 0.0 && q > 0.0
    ensures Along(x, p, q) < Along(y, p, q)
  {
    assert (y - x) * p > 0.0;
  }

  lemma TimeIncreases(a: Knot, b: Knot, s: int, t: int)
    requires a.sample < b.sample && a.ms < b.ms && s < t
    ensures TimeIn(a, b, s) < TimeIn(a, b, t)
  {
    AlongIncreases((s - a.sample) as real, (t - a.sample) as real, (b.ms - a.ms) as real,
                   (b.sample - a.sample) as real);
  }

  lemma TimeMeetsEnds(a: Knot, b: Knot)
    requires a.sample < b.sample
    ensures TimeIn(a, b, a.sample) == a.ms as real && TimeIn(a, b, b.sample) == b.ms as real
  {
    AlongWhole((b.ms - a.ms) as real, (b.sample - a.sample) as real);
  }

  /** Of a valid sidecar a later sample is mapped strictly later, so a sample has one time. */
  lemma ClockIncreases(knots: seq<Knot>, i: nat, s: int, v: real, j: nat, t: int, w: real)
    requires IsTimeline(knots) && s < t && MapsIn(knots, i, s, v) && MapsIn(knots, j, t, w)
    ensures v < w
  {
    assert i <= j;
    if i + 1 < |knots| {
      TimeMeetsEnds(knots[i], knots[i + 1]);
      if i == j {
        TimeIncreases(knots[i], knots[i + 1], s, t);
      } else {
        TimeIncreases(knots[i], knots[i + 1], s, knots[i + 1].sample);
      }
    }
    if i < j && j + 1 < |knots| {
      TimeMeetsEnds(knots[j], knots[j + 1]);
      if t > knots[j].sample {
        TimeIncreases(knots[j], knots[j + 1], knots[j].sample, t);
      }
    }
  }

  lemma RatioIsClose(x: real, p: real, q: real)
    requires 0.0 < x <= q && q - 16.0 < 16.0 * p <= q
    ensures x / 16.0 - 1.0 < Along(x, p, q) <= x / 16.0
  {
    var r := Along(x, p, q);
    assert r * q == x * p;
    QuotientIsLow(x, p, q, r);
    QuotientIsHigh(x, p, q, r);
  }

  lemma QuotientIsLow(x: real, p: real, q: real, r: real)
    requires 0.0 < x && 0.0 < q && 16.0 * p <= q && r * q == x * p
    ensures r <= x / 16.0
  {
    NonNegative(x, q - 16.0 * p);
    assert x * (q - 16.0 * p) == x * q - 16.0 * (x * p);
    assert (16.0 * r - x) * q == 16.0 * (r * q) - x * q;
    if r > x / 16.0 {
      Positive(16.0 * r - x, q);
    }
  }

  lemma QuotientIsHigh(x: real, p: real, q: real, r: real)
    requires 0.0 < x <= q && q - 16.0 < 16.0 * p && r * q == x * p
    ensures x / 16.0 - 1.0 < r
  {
    var u, v := x - 16.0 - 16.0 * r, 16.0 * p - q + 16.0;
    LowTimes(x, q, r, u);
    HighTimes(x, p, q, v);
    Positive(x, v);
    if u >= 0.0 {
      NonNegative(u, q);
    }
  }

  lemma LowTimes(x: real, q: real, r: real, u: real)
    requires u == x - 16.0 - 16.0 * r
    ensures u * q == x * q - 16.0 * q - 16.0 * (r * q)
  {
  }

  lemma HighTimes(x: real, p: real, q: real, v: real)
    requires v == 16.0 * p - q + 16.0
    ensures x * v == 16.0 * (x * p) - x * q + 16.0 * x
  {
  }

  lemma Positive(a: real, b: real)
    requires a > 0.0 && b > 0.0
    ensures a * b > 0.0
  {
  }

  lemma NonNegative(a: real, b: real)
    requires a >= 0.0 && b >= 0.0
    ensures a * b >= 0.0
  {
  }

  /** Of a written sidecar, the mapped time is the sample's exact time rounded down by less than a
      millisecond, and it is exact up to the last whole second. */
  lemma WrittenClockIsAccurate(sample: nat, count: nat, i: nat, s: int, v: real)
    requires count > 0 && sample % 16_000 == 0
    requires MapsIn(Timeline(sample, count), i, s, v)
    ensures var exact := MONO0 as real + s as real / 16.0;
            && exact - 1.0 < v <= exact
            && (i + 2 < |Timeline(sample, count)| ==> v == exact)
  {
    var t := Timeline(sample, count);
    var n := |t| - 1;
    TimelineKnots(sample, count, i);
    if i < n {
      SecondsLater(sample, i);
      WholeSecondIsExact(t[i].sample);
      if t[i].sample < s {
        TimelineKnots(sample, count, i + 1);
        if i + 1 < n {
          FullSecond(t[i], s);
        } else {
          LastGap(t[i], sample + count, s);
        }
      }
    } else {
      MonoRoundsDown(s);
    }
  }

  lemma SecondsLater(sample: nat, k: nat)
    requires sample % 16_000 == 0
    ensures (sample + k * 16_000) % 16_000 == 0
  {
    Remainder(sample + k * 16_000, sample / 16_000 + k, 0);
  }

  lemma MonoRoundsDown(s: int)
    ensures MONO0 as real + s as real / 16.0 - 1.0 < Mono(s) as real <= MONO0 as real + s as real / 16.0
  {
    assert Mono(s) == MONO0 + s / 16;
    assert s == s / 16 * 16 + s % 16;
  }

  lemma WholeSecondIsExact(s: int)
    requires s % 16_000 == 0
    ensures Mono(s) as real == MONO0 as real + s as real / 16.0
  {
    assert Mono(s) == MONO0 + s / 16;
    assert s == s / 16 * 16;
  }

  lemma FullSecond(a: Knot, s: int)
    requires a.sample % 16_000 == 0 && a == KnotAt(a.sample)
    ensures TimeIn(a, KnotAt(a.sample + 16_000), s) == MONO0 as real + s as real / 16.0
  {
    WholeSecondIsExact(a.sample);
    WholeSecondIsExact(a.sample + 16_000);
    assert Mono(a.sample + 16_000) - a.ms == 1000;
    assert Along((s - a.sample) as real, 1000.0, 16_000.0) == (s as real - a.sample as real) / 16.0;
  }

  lemma LastGap(a: Knot, end: int, s: int)
    requires a.sample % 16_000 == 0 && a == KnotAt(a.sample) && a.sample < s < end
    ensures var exact := MONO0 as real + s as real / 16.0;
            exact - 1.0 < TimeIn(a, KnotAt(end), s) <= exact
  {
    WholeSecondIsExact(a.sample);
    MonoRoundsDown(end);
    var x, p, q := (s - a.sample) as real, (Mono(end) - a.ms) as real, (end - a.sample) as real;
    RatioIsClose(x, p, q);
  }
}
