/** The clock of a segment: knots that pair samples with monotonic milliseconds, and the straight
    lines between them. */
module ClockKnots {

  /** A clock knot: a sample number and its monotonic millisecond. */
  datatype Knot = Knot(sample: int, ms: int)

  ghost predicate IsTimeline(knots: seq<Knot>) {
    forall i, j :: 0 <= i < j < |knots| ==> knots[i].sample < knots[j].sample && knots[i].ms < knots[j].ms
  }

  /** Rescales a distance from an axis of length `q` to one of length `p`. */
  function Along(d: real, p: real, q: real): real
    requires q > 0.0
  {
    d * p / q
  }

  /** The time of a sample between two knots. */
  function TimeIn(a: Knot, b: Knot, s: int): real
    requires a.sample < b.sample
  {
    a.ms as real + Along((s - a.sample) as real, (b.ms - a.ms) as real, (b.sample - a.sample) as real)
  }

  lemma AlongWhole(p: real, q: real)
    requires q > 0.0
    ensures Along(0.0, p, q) == 0.0 && Along(q, p, q) == p
  {
    assert q * p / q == p;
  }
}
