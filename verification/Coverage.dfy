/** Whether a beep lies inside the observed clock (`_covered`): the spans of the segments, swept in order. */
module Coverage {

  /** A closed span of milliseconds; empty when it ends before it begins. */
  datatype Span = Span(left: real, right: real)

  predicate Holds(s: Span, t: real) {
    s.left <= t <= s.right
  }

  ghost predicate HeldBySome(spans: seq<Span>, t: real) {
    exists k :: 0 <= k < |spans| && Holds(spans[k], t)
  }

  /** Every instant from `start` to `end` is in one of the spans. */
  ghost predicate AllHeld(spans: seq<Span>, start: real, end: real) {
    forall t :: start <= t <= end ==> HeldBySome(spans, t)
  }

  ghost predicate Sorted(spans: seq<Span>) {
    forall i, j :: 0 <= i < j < |spans| ==> spans[i].left <= spans[j].left
  }

  /** What sorting may give back. */
  ghost predicate IsOrder(observed: seq<Span>, spans: seq<Span>) {
    multiset(observed) == multiset(spans) && Sorted(spans)
  }

  lemma OrderHoldsTheSame(observed: seq<Span>, spans: seq<Span>)
    requires multiset(observed) == multiset(spans)
    ensures forall t :: HeldBySome(observed, t) <==> HeldBySome(spans, t)
  {
    forall t ensures HeldBySome(observed, t) <==> HeldBySome(spans, t) {
      if k :| 0 <= k < |observed| && Holds(observed[k], t) {
        assert observed[k] in multiset(spans);
      }
      if k :| 0 <= k < |spans| && Holds(spans[k], t) {
        assert spans[k] in multiset(observed);
      }
    }
  }

  /** The first `k` spans hold everything up to the cursor and nothing after it. */
  ghost predicate Swept(spans: seq<Span>, k: nat, start: real, cursor: real) {
    && k <= |spans| && start <= cursor
    && (forall t :: start <= t < cursor ==> HeldBySome(spans, t))
    && (start < cursor ==> HeldBySome(spans, cursor))
    && (forall j :: 0 <= j < k ==> spans[j].right <= cursor)
  }

  /** The sweep over the sorted spans answers exactly whether the whole stretch is observed: gaps
      are never bridged, and touching spans leave none. */
  method Covered(start: real, end: real, observed: seq<Span>, spans: seq<Span>) returns (covered: bool)
    requires start <= end && IsOrder(observed, spans)
    ensures covered <==> AllHeld(observed, start, end)
  {
    OrderHoldsTheSame(observed, spans);
    var cursor := start;
    for k := 0 to |spans|
      invariant Swept(spans, k, start, cursor)
      invariant cursor < end || cursor == start
      invariant cursor == end ==> !exists j :: 0 <= j < k && Holds(spans[j], cursor)
    {
      var left, right := spans[k].left, spans[k].right;
      if right >= cursor {
        if left > cursor {
          GapIsFound(spans, k, start, end, cursor);
          return false;
        }
        SpanAdvances(spans, k, start, cursor);
        cursor := if cursor >= right then cursor else right;
        if cursor >= end {
          forall t | start <= t <= end ensures HeldBySome(spans, t) {
            if t == cursor {
              assert Holds(spans[k], t) || start < cursor;
            }
          }
          return true;
        }
      }
    }
    EndIsFound(spans, start, end, cursor);
    covered := false;
  }

  lemma SpanAdvances(spans: seq<Span>, k: nat, start: real, cursor: real)
    requires Swept(spans, k, start, cursor) && k < |spans|
    requires spans[k].left <= cursor <= spans[k].right
    ensures Swept(spans, k + 1, start, spans[k].right)
    ensures HeldBySome(spans, cursor) && HeldBySome(spans, spans[k].right)
  {
    assert Holds(spans[k], cursor) && Holds(spans[k], spans[k].right);
    forall t | start <= t < spans[k].right ensures HeldBySome(spans, t) {
      if t >= cursor {
        assert Holds(spans[k], t);
      }
    }
  }

  /** No span reaches past the cursor before the next one begins. */
  lemma GapIsFound(spans: seq<Span>, k: nat, start: real, end: real, cursor: real)
    requires Sorted(spans) && k < |spans| && Swept(spans, k, start, cursor) && spans[k].left > cursor
    requires cursor < end || cursor == start
    requires cursor <= end
    requires cursor == end ==> !exists j :: 0 <= j < k && Holds(spans[j], cursor)
    ensures !AllHeld(spans, start, end)
  {
    var limit := if spans[k].left <= end then spans[k].left else end;
    var t := if cursor < limit then (cursor + limit) / 2.0 else cursor;
    forall j | 0 <= j < |spans| ensures !Holds(spans[j], t) {
    }
    assert !HeldBySome(spans, t);
  }

  lemma EndIsFound(spans: seq<Span>, start: real, end: real, cursor: real)
    requires Swept(spans, |spans|, start, cursor) && (cursor < end || cursor == start) && cursor <= end
    requires cursor == end ==> !exists j :: 0 <= j < |spans| && Holds(spans[j], cursor)
    ensures !AllHeld(spans, start, end)
  {
    assert !HeldBySome(spans, end);
  }
}
