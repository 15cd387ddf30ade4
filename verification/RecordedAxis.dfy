/** The recorded-time axis (`_recorded`): paired edges in monotonic and recorded milliseconds,
    each axis truncated on its own, so an interval may differ by one millisecond between them. */
module RecordedAxis {
  import opened Basics

  datatype Edge = Edge(ms: int, recorded: int)
  /** An opening and a closing edge. */
  datatype Interval = Interval(left: Edge, right: Edge)

  function Abs(x: int): int { if x < 0 then -x else x }

  function Length(i: Interval): int {
    i.right.ms - i.left.ms
  }

  /** One interval fits after the previous ones. */
  predicate Fits(i: Interval, previousEnd: int, previousRecorded: int) {
    && 0 <= i.left.ms && 0 <= i.left.recorded && 0 <= i.right.ms && 0 <= i.right.recorded
    && previousEnd <= i.left.ms <= i.right.ms
    && i.left.recorded == previousRecorded
    && Abs(i.right.recorded - i.left.recorded - Length(i)) <= 1
  }

  predicate FitsAt(intervals: seq<Interval>, k: nat)
    requires k < |intervals|
  {
    if k == 0 then Fits(intervals[0], -1, 0)
    else Fits(intervals[k], intervals[k - 1].right.ms, intervals[k - 1].right.recorded)
  }

  ghost predicate Accepted(intervals: seq<Interval>) {
    intervals != [] && forall k: nat :: k < |intervals| ==> FitsAt(intervals, k)
  }

  predicate Holds(i: Interval, mono: real) {
    i.left.ms as real <= mono <= i.right.ms as real
  }

  /** The recorded position of a point found in an interval. */
  function Position(i: Interval, mono: real): real {
    i.left.recorded as real + mono - i.left.ms as real
  }

  ghost predicate FirstHolding(intervals: seq<Interval>, mono: real, k: nat) {
    k < |intervals| && Holds(intervals[k], mono) && forall j :: 0 <= j < k ==> !Holds(intervals[j], mono)
  }

  /** `_recorded` on a flat list of edges: every boundary is checked before any point is mapped. */
  method Recorded(edges: seq<Edge>, mono: real) returns (r: Option<real>)
    ensures r.Some? <==>
              && |edges| % 2 == 0 && Accepted(Paired(edges))
              && exists k: nat :: FirstHolding(Paired(edges), mono, k)
    ensures forall k: nat :: r.Some? && FirstHolding(Paired(edges), mono, k) ==>
        r.value == Position(Paired(edges)[k], mono)
  {
    if edges == [] || |edges| % 2 != 0 {
      return None;
    }
    var intervals := Paired(edges);
    var previousEnd, previousRecorded := -1, 0;
    for k := 0 to |intervals|
      invariant previousEnd == if k == 0 then -1 else intervals[k - 1].right.ms
      invariant previousRecorded == if k == 0 then 0 else intervals[k - 1].right.recorded
      invariant forall j: nat :: j < k ==> FitsAt(intervals, j)
    {
      assert FitsAt(intervals, k) == Fits(intervals[k], previousEnd, previousRecorded);
      if !Fits(intervals[k], previousEnd, previousRecorded) {
        return None;
      }
      previousEnd, previousRecorded := intervals[k].right.ms, intervals[k].right.recorded;
    }
    for k := 0 to |intervals|
      invariant forall j :: 0 <= j < k ==> !Holds(intervals[j], mono)
    {
      if Holds(intervals[k], mono) {
        assert FirstHolding(intervals, mono, k);
        return Some(Position(intervals[k], mono));
      }
    }
    r := None;
  }

  /** `zip(edges[::2], edges[1::2])`. */
  function Paired(edges: seq<Edge>): (p: seq<Interval>)
    ensures |p| == |edges| / 2
    ensures forall k :: 0 <= k < |p| ==> p[k] == Interval(edges[2 * k], edges[2 * k + 1])
  {
    seq(|edges| / 2, k requires 0 <= k < |edges| / 2 => Interval(edges[2 * k], edges[2 * k + 1]))
  }

  // ---- how far the two axes can drift apart ----

  /** The monotonic time that lies inside intervals `i` to `j - 1`. */
  function Inside(intervals: seq<Interval>, i: nat, j: nat): int
    requires i <= j <= |intervals|
    decreases j - i
  {
    if i == j then 0 else Length(intervals[i]) + Inside(intervals, i + 1, j)
  }

  /** Over whole intervals, recorded time misses the time inside by at most one millisecond each,
      and the time inside is no more than the time that passed. */
  lemma {:induction false} DriftOverIntervals(intervals: seq<Interval>, i: nat, j: nat)
    requires Accepted(intervals) && i <= j < |intervals|
    ensures var d := intervals[j].left.recorded - intervals[i].left.recorded;
            -(j - i) <= d - Inside(intervals, i, j) <= j - i
    ensures 0 <= Inside(intervals, i, j) <= intervals[j].left.ms - intervals[i].left.ms
    ensures i < j ==> Length(intervals[i]) <= Inside(intervals, i, j)
    decreases j - i
  {
    if i < j {
      assert FitsAt(intervals, i) && FitsAt(intervals, i + 1);
      DriftOverIntervals(intervals, i + 1, j);
    }
  }

  /** The monotonic time spent inside intervals between two points of them. */
  function InsideBetween(intervals: seq<Interval>, i: nat, m1: real, j: nat, m2: real): real
    requires i <= j < |intervals|
  {
    Inside(intervals, i, j) as real + (m2 - intervals[j].left.ms as real) - (m1 - intervals[i].left.ms as real)
  }

  /** Recorded differences follow the time spent inside intervals: pauses add nothing, and each
      interval crossed adds at most one millisecond of slack. */
  lemma RecordedDifference(intervals: seq<Interval>, i: nat, m1: real, j: nat, m2: real)
    requires Accepted(intervals) && i <= j < |intervals| && m1 <= m2
    requires Holds(intervals[i], m1) && Holds(intervals[j], m2)
    ensures var d := Position(intervals[j], m2) - Position(intervals[i], m1);
            var inside := InsideBetween(intervals, i, m1, j, m2);
            && 0.0 <= inside <= m2 - m1
            && -((j - i) as real) <= d - inside <= (j - i) as real
            && -((j - i) as real) <= d <= m2 - m1 + (j - i) as real
  {
    DriftOverIntervals(intervals, i, j);
  }

  /** A point found later in time is found in the same or a later interval. */
  lemma LaterPointLaterInterval(intervals: seq<Interval>, m1: real, i: nat, m2: real, j: nat)
    requires Accepted(intervals) && m1 <= m2 && FirstHolding(intervals, m1, i) && FirstHolding(intervals, m2, j)
    ensures i <= j
  {
    if j < i {
      DriftOverIntervals(intervals, j, i);
      assert Length(intervals[j]) <= intervals[i].left.ms - intervals[j].left.ms;
      assert m1 >= intervals[i].left.ms as real >= intervals[j].right.ms as real >= m2;
      assert Holds(intervals[j], m1);
    }
  }
}
