/** CPU use of the capture processes (`ProcSampler.sample`, `summarize_resources`): percentages of
    the ticks between two samples, and their mean weighted by time. */
module CpuMean {
  import opened Basics
  import opened Sums

  /** A process incarnation's start time and the ticks it has used. */
  datatype Stat = Stat(start: int, ticks: int)
  /** What one sample finds of a process: its `stat` unless unreadable or dead, and the start time
      in a second read. */
  datatype Look = Look(capture: bool, pid: int, first: Option<Stat>, check: Option<int>)
  datatype Row = Row(capture: bool, pid: int, start: Option<int>, cpu: Option<real>)
  datatype Baseline = Baseline(stat: Stat, at: real)
  datatype Sample = Sample(at: real, rows: seq<Row>)

  // ---- sampling ----

  predicate Usable(previous: map<int, Baseline>, pid: int, current: Stat) {
    pid in previous && previous[pid].stat.start == current.start && current.ticks >= previous[pid].stat.ticks
  }

  function Percent(hz: int, ticks: int, elapsed: real): real
    requires hz > 0 && elapsed != 0.0
  {
    (ticks * 100) as real / (hz as real * elapsed)
  }

  datatype Step = Step(row: Row, previous: map<int, Baseline>)

  /** One process; nothing when the division by the elapsed time fails. */
  function Looked(hz: int, now: real, previous: map<int, Baseline>, look: Look): Option<Step>
    requires hz > 0
  {
    var lost := Step(Row(look.capture, look.pid, None, None), previous - {look.pid});
    if look.first.None? then Some(lost)
    else
      var current := look.first.value;
      var usable := Usable(previous, look.pid, current);
      if usable && now == previous[look.pid].at then None
      else if look.check != Some(current.start) then Some(lost)
      else
        var cpu :=
          if usable then
            Some(Percent(hz, current.ticks - previous[look.pid].stat.ticks, now - previous[look.pid].at))
          else None;
        Some(Step(Row(look.capture, look.pid, Some(current.start), cpu), previous[look.pid := Baseline(current, now)]))
  }

  datatype Taken = Taken(rows: seq<Row>, previous: map<int, Baseline>)

  function AllLooked(hz: int, now: real, previous: map<int, Baseline>, looks: seq<Look>): Option<Taken>
    requires hz > 0
  {
    if looks == [] then Some(Taken([], previous))
    else
      var before := AllLooked(hz, now, previous, looks[..|looks| - 1]);
      if before.None? then None
      else
        var step := Looked(hz, now, before.value.previous, looks[|looks| - 1]);
        if step.None? then None
        else Some(Taken(before.value.rows + [step.value.row], step.value.previous))
  }

  lemma {:induction false} NextLooked(hz: int, now: real, previous: map<int, Baseline>, looks: seq<Look>, n: nat)
    requires hz > 0 && n < |looks|
    ensures var before := AllLooked(hz, now, previous, looks[..n]);
            AllLooked(hz, now, previous, looks[..n + 1]) ==
            if before.None? then None
            else
              var step := Looked(hz, now, before.value.previous, looks[n]);
              if step.None? then None else Some(Taken(before.value.rows + [step.value.row], step.value.previous))
  {
    assert looks[..n + 1][..n] == looks[..n];
  }

  lemma {:induction false} LookingStaysFailed(hz: int, now: real, previous: map<int, Baseline>, looks: seq<Look>,
                                              n: nat)
    requires hz > 0 && n <= |looks| && AllLooked(hz, now, previous, looks[..n]).None?
    ensures AllLooked(hz, now, previous, looks).None?
    decreases |looks| - n
  {
    if n < |looks| {
      NextLooked(hz, now, previous, looks, n);
      LookingStaysFailed(hz, now, previous, looks, n + 1);
    } else {
      assert looks[..n] == looks;
    }
  }

  // ---- when a sample fails ----

  /** The process was read, and was the same one in the second read. */
  predicate Whole(look: Look) {
    look.first.Some? && look.check == Some(look.first.value.start)
  }

  /** Two looks at one process, the next after the other: the first leaves a baseline at this very
      moment, and the second would measure from it. */
  predicate Clash(looks: seq<Look>, i: nat, j: nat) {
    && i < j < |looks| && looks[i].pid == looks[j].pid
    && (forall k :: i < k < j ==> looks[k].pid != looks[j].pid)
    && Whole(looks[i]) && looks[j].first.Some?
    && looks[j].first.value.start == looks[i].first.value.start
    && looks[j].first.value.ticks >= looks[i].first.value.ticks
  }

  ghost predicate Clashes(looks: seq<Look>) {
    exists i: nat, j: nat :: Clash(looks, i, j)
  }

  ghost predicate Before(previous: map<int, Baseline>, now: real) {
    forall pid :: pid in previous ==> previous[pid].at < now
  }

  ghost predicate UpTo(previous: map<int, Baseline>, now: real) {
    forall pid :: pid in previous ==> previous[pid].at <= now
  }

  /** The last look at a process, or none. */
  function LastLook(looks: seq<Look>, pid: int): (i: Option<nat>)
    ensures i.Some? ==> i.value < |looks| && looks[i.value].pid == pid
    ensures forall k :: (if i.Some? then i.value < k else 0 <= k) && k < |looks| ==> looks[k].pid != pid
  {
    var n := |looks| - 1;
    if looks == [] then None
    else if looks[n].pid == pid then Some(n)
    else LastLook(looks[..n], pid)
  }

  ghost predicate SameAt(a: map<int, Baseline>, b: map<int, Baseline>, pid: int) {
    (pid in a <==> pid in b) && (pid in a ==> a[pid] == b[pid])
  }

  /** The last look at a process alone decides its baseline. */
  lemma {:induction false} BaselineOfLastLook(hz: int, now: real, previous: map<int, Baseline>, looks: seq<Look>,
                                              pid: int)
    requires hz > 0 && AllLooked(hz, now, previous, looks).Some?
    ensures var after, i := AllLooked(hz, now, previous, looks).value.previous, LastLook(looks, pid);
            if i.None? then SameAt(after, previous, pid)
            else if Whole(looks[i.value]) then pid in after && after[pid] == Baseline(looks[i.value].first.value, now)
            else pid !in after
  {
    if looks != [] {
      BaselineOfLastLook(hz, now, previous, looks[..|looks| - 1], pid);
    }
  }

  lemma {:induction false} BaselinesUpTo(hz: int, now: real, previous: map<int, Baseline>, looks: seq<Look>)
    requires hz > 0 && UpTo(previous, now) && AllLooked(hz, now, previous, looks).Some?
    ensures UpTo(AllLooked(hz, now, previous, looks).value.previous, now)
  {
    if looks != [] {
      BaselinesUpTo(hz, now, previous, looks[..|looks| - 1]);
    }
  }

  /** The look at place `n` is the first to divide by no time at all. */
  ghost predicate FailsAt(hz: int, now: real, previous: map<int, Baseline>, looks: seq<Look>, n: nat)
    requires hz > 0
  {
    && n < |looks|
    && AllLooked(hz, now, previous, looks[..n]).Some?
    && Looked(hz, now, AllLooked(hz, now, previous, looks[..n]).value.previous, looks[n]).None?
  }

  lemma {:induction false} FirstFailure(hz: int, now: real, previous: map<int, Baseline>, looks: seq<Look>)
    returns (n: nat)
    requires hz > 0 && AllLooked(hz, now, previous, looks).None?
    ensures FailsAt(hz, now, previous, looks, n)
  {
    n := |looks| - 1;
    if AllLooked(hz, now, previous, looks[..n]).None? {
      var m := n;
      n := FirstFailure(hz, now, previous, looks[..m]);
      assert looks[..m][..n] == looks[..n];
    }
  }

  /** A look fails on a baseline of this very moment, so after a clashing look. */
  lemma FailureIsClash(hz: int, now: real, previous: map<int, Baseline>, looks: seq<Look>, n: nat)
    requires hz > 0 && Before(previous, now) && FailsAt(hz, now, previous, looks, n)
    ensures Clashes(looks)
  {
    var pid := looks[n].pid;
    BaselineOfLastLook(hz, now, previous, looks[..n], pid);
    var i := LastLook(looks[..n], pid);
    assert Clash(looks, i.value, n);
  }

  /** Whatever the baselines before it, a sample with a clash fails. */
  lemma {:induction false} ClashFails(hz: int, now: real, previous: map<int, Baseline>, looks: seq<Look>, i: nat,
                                      j: nat)
    requires hz > 0 && Clash(looks, i, j)
    ensures AllLooked(hz, now, previous, looks).None?
  {
    if AllLooked(hz, now, previous, looks[..j]).Some? {
      BaselineOfLastLook(hz, now, previous, looks[..j], looks[j].pid);
      assert LastLook(looks[..j], looks[j].pid) == Some(i);
      NextLooked(hz, now, previous, looks, j);
      LookingStaysFailed(hz, now, previous, looks, j + 1);
    } else {
      LookingStaysFailed(hz, now, previous, looks, j);
    }
  }

  /** With all baselines in the past, a sample fails exactly when two looks clash. */
  lemma {:induction false} SampleFailsIffClash(hz: int, now: real, previous: map<int, Baseline>, looks: seq<Look>)
    requires hz > 0 && Before(previous, now)
    ensures AllLooked(hz, now, previous, looks).None? <==> Clashes(looks)
  {
    if AllLooked(hz, now, previous, looks).None? {
      var n := FirstFailure(hz, now, previous, looks);
      FailureIsClash(hz, now, previous, looks, n);
    }
    if i: nat, j: nat :| Clash(looks, i, j) {
      ClashFails(hz, now, previous, looks, i, j);
    }
  }

  class ProcSampler {
    const hz: int
    var previous: map<int, Baseline>
    var lastTime: Option<real>

    /** No baseline is later than the last sample. */
    ghost predicate Valid()
      reads this
    {
      hz > 0 && (previous != map[] ==> lastTime.Some?) && (lastTime.Some? ==> UpTo(previous, lastTime.value))
    }

    constructor (hz: int)
      requires hz > 0
      ensures Valid() && this.hz == hz && previous == map[] && lastTime.None?
    {
      this.hz := hz;
      previous, lastTime := map[], None;
    }

    /** One sample; nothing when the clock did not advance or a division fails. */
    method TakeSample(looks: seq<Look>, now: real) returns (r: Option<Sample>)
      requires Valid()
      modifies this
      ensures Valid()
      ensures var late := old(lastTime).Some? && now <= old(lastTime).value;
              && (r.Some? <==> !late && !Clashes(looks))
              && lastTime == (if late then old(lastTime) else Some(now))
              && (late ==> previous == old(previous))
              && (!late && r.None? ==> StoppedAtFailure(old(previous), looks, now))
      ensures r.Some? ==>
                var all := AllLooked(hz, now, old(previous), looks);
                all.Some? && r.value == Sample(now, all.value.rows) && previous == all.value.previous
    {
      if lastTime.Some? && now <= lastTime.value {
        return None;
      }
      lastTime := Some(now);
      ghost var start := previous;
      SampleFailsIffClash(hz, now, start, looks);
      var rows: seq<Row> := [];
      for n := 0 to |looks|
        invariant AllLooked(hz, now, start, looks[..n]) == Some(Taken(rows, previous))
        invariant lastTime == Some(now)
      {
        NextLooked(hz, now, start, looks, n);
        var look := looks[n];
        var row := Row(look.capture, look.pid, None, None);
        if look.first.Some? {
          var current := look.first.value;
          if Usable(previous, look.pid, current) {
            var elapsed := now - previous[look.pid].at;
            if elapsed == 0.0 {
              LookingStaysFailed(hz, now, start, looks, n + 1);
              BaselinesUpTo(hz, now, start, looks[..n]);
              assert FailsAt(hz, now, start, looks, n);
              return None;
            }
            row := row.(cpu := Some(Percent(hz, current.ticks - previous[look.pid].stat.ticks, elapsed)));
          }
          row := row.(start := Some(current.start));
        }
        if look.first.None? || look.check != row.start {
          previous := previous - {look.pid};
          row := row.(start := None, cpu := None);
        } else {
          previous := previous[look.pid := Baseline(look.first.value, now)];
        }
        rows := rows + [row];
      }
      assert looks[..|looks|] == looks;
      BaselinesUpTo(hz, now, start, looks);
      r := Some(Sample(now, rows));
    }

    /** The baselines are those left by the looks before the first that fails. */
    ghost predicate StoppedAtFailure(start: map<int, Baseline>, looks: seq<Look>, now: real)
      requires hz > 0
      reads this
    {
      exists n: nat ::
        && FailsAt(hz, now, start, looks, n)
        && previous == AllLooked(hz, now, start, looks[..n]).value.previous
    }
  }

  // ---- the mean ----

  function Captures(rows: seq<Row>): seq<Row> {
    if rows == [] then []
    else Captures(rows[..|rows| - 1]) + if rows[|rows| - 1].capture then [rows[|rows| - 1]] else []
  }

  function Ids(rows: seq<Row>): set<(int, Option<int>)> {
    set r | r in rows :: (r.pid, r.start)
  }

  predicate AllKnown(rows: seq<Row>) {
    forall i :: 0 <= i < |rows| ==> rows[i].cpu.Some?
  }

  function CpuSum(rows: seq<Row>): real {
    if rows == [] then 0.0
    else CpuSum(rows[..|rows| - 1]) + if rows[|rows| - 1].cpu.Some? then rows[|rows| - 1].cpu.value else 0.0
  }

  /** Two samples between which the same capture processes were measured throughout. */
  predicate Measured(a: Sample, b: Sample) {
    Captures(b.rows) != [] && Ids(Captures(a.rows)) == Ids(Captures(b.rows)) && AllKnown(Captures(b.rows))
  }

  predicate Complete(samples: seq<Sample>) {
    samples != [] && AllCaptured(samples) && MeasuredUpTo(samples, |samples|)
  }

  predicate InTime(samples: seq<Sample>) {
    forall i :: 1 <= i < |samples| ==> samples[i - 1].at < samples[i].at
  }

  /** Percentages times elapsed time, over the first `n` intervals. */
  function Weighted(samples: seq<Sample>, n: nat): real
    requires n < |samples|
  {
    if n == 0 then 0.0
    else Weighted(samples, n - 1) + CpuSum(Captures(samples[n].rows)) * (samples[n].at - samples[n - 1].at)
  }

  function Elapsed(samples: seq<Sample>): real
    requires samples != []
  {
    samples[|samples| - 1].at - samples[0].at
  }

  datatype Outcome = NonMonotonic | Unknown | Mean(value: real)

  predicate MeasuredUpTo(samples: seq<Sample>, n: nat)
    requires n <= |samples|
  {
    forall i :: 1 <= i < n ==> Measured(samples[i - 1], samples[i])
  }

  /** The mean of `summarize_resources`: unknown unless the same capture processes were measured in
      every interval. */
  method MeanCpu(samples: seq<Sample>) returns (r: Outcome)
    ensures r == NonMonotonic <==> !InTime(samples)
    ensures r.Mean? <==> InTime(samples) && |samples| >= 2 && Complete(samples)
    ensures r.Mean? ==> Elapsed(samples) > 0.0 && r.value * Elapsed(samples) == Weighted(samples, |samples| - 1)
  {
    if !InTime(samples) {
      return NonMonotonic;
    }
    if |samples| < 2 {
      return Unknown;
    }
    var complete := AllHaveCaptures(samples);
    var weighted, i := 0.0, 1;
    while i < |samples|
      invariant 1 <= i <= |samples|
      invariant complete <==> AllCaptured(samples) && MeasuredUpTo(samples, i)
      invariant complete ==> weighted == Weighted(samples, i - 1)
    {
      var procs := Captures(samples[i].rows);
      if procs == [] || Ids(Captures(samples[i - 1].rows)) != Ids(procs) || !AllKnown(procs) {
        complete := false;
        assert !Measured(samples[i - 1], samples[i]);
      } else {
        weighted := weighted + CpuSum(procs) * (samples[i].at - samples[i - 1].at);
      }
      i := i + 1;
    }
    if !complete {
      return Unknown;
    }
    TimeAdvances(samples, |samples| - 1);
    r := Mean(weighted / Elapsed(samples));
    QuotientTimes(weighted, Elapsed(samples));
  }

  lemma QuotientTimes(x: real, q: real)
    requires q > 0.0
    ensures x / q * q == x
  {
  }

  predicate AllCaptured(samples: seq<Sample>) {
    forall i :: 0 <= i < |samples| ==> Captures(samples[i].rows) != []
  }

  method AllHaveCaptures(samples: seq<Sample>) returns (all: bool)
    ensures all <==> AllCaptured(samples)
  {
    for i := 0 to |samples|
      invariant forall j :: 0 <= j < i ==> Captures(samples[j].rows) != []
    {
      if Captures(samples[i].rows) == [] {
        return false;
      }
    }
    all := true;
  }

  lemma {:induction false} TimeAdvances(samples: seq<Sample>, n: nat)
    requires InTime(samples) && n < |samples|
    ensures if n == 0 then samples[0].at == samples[n].at else samples[0].at < samples[n].at
  {
    if n > 0 {
      TimeAdvances(samples, n - 1);
    }
  }

  // ---- one sample, process by process ----

  predicate DistinctPids(looks: seq<Look>) {
    forall i, j :: 0 <= i < j < |looks| ==> looks[i].pid != looks[j].pid
  }

  lemma {:induction false} UntouchedBaselines(hz: int, now: real, previous: map<int, Baseline>, looks: seq<Look>,
                                              pid: int)
    requires hz > 0 && AllLooked(hz, now, previous, looks).Some?
    requires forall j :: 0 <= j < |looks| ==> looks[j].pid != pid
    ensures SameAt(AllLooked(hz, now, previous, looks).value.previous, previous, pid)
  {
    if looks != [] {
      UntouchedBaselines(hz, now, previous, looks[..|looks| - 1], pid);
    }
  }

  lemma {:induction false} RowOfLook(hz: int, now: real, previous: map<int, Baseline>, looks: seq<Look>, j: nat)
    requires hz > 0 && DistinctPids(looks) && AllLooked(hz, now, previous, looks).Some? && j < |looks|
    ensures var t := AllLooked(hz, now, previous, looks).value;
            && |t.rows| == |looks|
            && Looked(hz, now, previous, looks[j]).Some?
            && t.rows[j] == Looked(hz, now, previous, looks[j]).value.row
            && (Whole(looks[j]) ==>
                  looks[j].pid in t.previous && t.previous[looks[j].pid] == Baseline(looks[j].first.value, now))
  {
    var n := |looks| - 1;
    if n > 0 {
      RowOfLook(hz, now, previous, looks[..n], if j < n then j else 0);
    }
    if j == n {
      UntouchedBaselines(hz, now, previous, looks[..n], looks[n].pid);
    }
  }

  lemma DistinctPidsDoNotClash(looks: seq<Look>)
    requires DistinctPids(looks)
    ensures !Clashes(looks)
  {
  }

  /** With baselines in the past and each process given once, the sample is taken, every row is made
      from the baseline before it, and a process read whole leaves its own as the next one. */
  lemma {:induction false} RowsFromBaselines(hz: int, now: real, previous: map<int, Baseline>, looks: seq<Look>)
    requires hz > 0 && DistinctPids(looks) && Before(previous, now)
    ensures AllLooked(hz, now, previous, looks).Some?
    ensures var t := AllLooked(hz, now, previous, looks).value;
            && |t.rows| == |looks|
            && forall j :: 0 <= j < |looks| ==>
                 && Looked(hz, now, previous, looks[j]).Some?
                 && t.rows[j] == Looked(hz, now, previous, looks[j]).value.row
                 && (Whole(looks[j]) ==>
                       looks[j].pid in t.previous && t.previous[looks[j].pid] == Baseline(looks[j].first.value, now))
  {
    DistinctPidsDoNotClash(looks);
    SampleFailsIffClash(hz, now, previous, looks);
    forall j: nat | j < |looks| {
      RowOfLook(hz, now, previous, looks, j);
    }
    if looks == [] {
      assert AllLooked(hz, now, previous, looks).value.rows == [];
    }
  }

  // ---- the mean is the growth of the ticks ----

  type Key = (int, int)

  function KeyOf(look: Look): Key
    requires look.first.Some?
  {
    (look.pid, look.first.value.start)
  }

  /** The ticks of the capture processes read whole. */
  function TicksOf(looks: seq<Look>): map<Key, real> {
    if looks == [] then map[]
    else
      var look, before := looks[|looks| - 1], TicksOf(looks[..|looks| - 1]);
      if look.capture && Whole(look) then before[KeyOf(look) := look.first.value.ticks as real] else before
  }

  lemma {:induction false} TicksOfLook(looks: seq<Look>, j: nat)
    requires DistinctPids(looks) && j < |looks| && looks[j].capture && Whole(looks[j])
    ensures KeyOf(looks[j]) in TicksOf(looks) && TicksOf(looks)[KeyOf(looks[j])] == looks[j].first.value.ticks as real
  {
    if j < |looks| - 1 {
      TicksOfLook(looks[..|looks| - 1], j);
    }
  }

  lemma {:induction false} LookOfTicks(looks: seq<Look>, k: Key) returns (j: nat)
    requires k in TicksOf(looks)
    ensures j < |looks| && looks[j].capture && Whole(looks[j]) && KeyOf(looks[j]) == k
  {
    j := |looks| - 1;
    if !(looks[j].capture && Whole(looks[j]) && KeyOf(looks[j]) == k) {
      j := LookOfTicks(looks[..|looks| - 1], k);
    }
  }

  /** The percentages of the capture processes that have one. */
  function CpusOf(looks: seq<Look>, rows: seq<Row>): map<Key, real>
    requires |rows| == |looks|
  {
    if looks == [] then map[]
    else
      var n := |looks| - 1;
      var before := CpusOf(looks[..n], rows[..n]);
      if looks[n].capture && Whole(looks[n]) && rows[n].cpu.Some?
      then before[KeyOf(looks[n]) := rows[n].cpu.value]
      else before
  }

  lemma {:induction false} CpusAreOfTicks(looks: seq<Look>, rows: seq<Row>, k: Key)
    requires |rows| == |looks| && k in CpusOf(looks, rows)
    ensures k in TicksOf(looks)
  {
    var n := |looks| - 1;
    if !(looks[n].capture && Whole(looks[n]) && KeyOf(looks[n]) == k) {
      CpusAreOfTicks(looks[..n], rows[..n], k);
    }
  }

  /** A row tells whose it is, and has a percentage only if its process was read whole. */
  predicate RowFits(look: Look, row: Row) {
    && row.capture == look.capture && row.pid == look.pid
    && (row.cpu.Some? ==> Whole(look))
    && row.start == if Whole(look) then Some(look.first.value.start) else None
  }

  lemma {:induction false} CpuSumIsSum(looks: seq<Look>, rows: seq<Row>)
    requires |rows| == |looks| && DistinctPids(looks) && forall j :: 0 <= j < |looks| ==> RowFits(looks[j], rows[j])
    ensures CpuSum(Captures(rows)) == Sum(CpusOf(looks, rows))
  {
    if looks != [] {
      var n := |looks| - 1;
      CpuSumIsSum(looks[..n], rows[..n]);
      if rows[n].capture {
        var captured := Captures(rows[..n]);
        assert (captured + [rows[n]])[..|captured|] == captured;
        if rows[n].cpu.Some? {
          var before := CpusOf(looks[..n], rows[..n]);
          if KeyOf(looks[n]) in before {
            CpusAreOfTicks(looks[..n], rows[..n], KeyOf(looks[n]));
            var j := LookOfTicks(looks[..n], KeyOf(looks[n]));
          }
          SumUpdate(before, KeyOf(looks[n]), rows[n].cpu.value);
        }
      } else {
        assert Captures(rows[..n]) + [] == Captures(rows[..n]);
      }
    }
  }

  lemma {:induction false} CpuOfLook(looks: seq<Look>, rows: seq<Row>, j: nat)
    requires |rows| == |looks| && DistinctPids(looks) && j < |looks|
    requires looks[j].capture && Whole(looks[j]) && rows[j].cpu.Some?
    ensures KeyOf(looks[j]) in CpusOf(looks, rows) && CpusOf(looks, rows)[KeyOf(looks[j])] == rows[j].cpu.value
  {
    var n := |looks| - 1;
    if j < n {
      CpuOfLook(looks[..n], rows[..n], j);
    }
  }

  lemma {:induction false} CaptureIsThere(rows: seq<Row>, j: nat)
    requires j < |rows| && rows[j].capture
    ensures rows[j] in Captures(rows)
  {
    if j < |rows| - 1 {
      CaptureIsThere(rows[..|rows| - 1], j);
    }
  }

  lemma {:induction false} RowOfCapture(rows: seq<Row>, r: Row) returns (j: nat)
    requires r in Captures(rows)
    ensures j < |rows| && rows[j] == r && r.capture
  {
    j := |rows| - 1;
    if !(rows[j].capture && rows[j] == r) {
      j := RowOfCapture(rows[..|rows| - 1], r);
    }
  }

  ghost predicate AllFit(looks: seq<Look>, rows: seq<Row>) {
    |rows| == |looks| && forall j :: 0 <= j < |looks| ==> RowFits(looks[j], rows[j])
  }

  lemma {:induction false} RowsFit(hz: int, now: real, previous: map<int, Baseline>, looks: seq<Look>)
    requires hz > 0 && DistinctPids(looks) && AllLooked(hz, now, previous, looks).Some?
    ensures AllFit(looks, AllLooked(hz, now, previous, looks).value.rows)
  {
    var rows := AllLooked(hz, now, previous, looks).value.rows;
    forall j: nat | j < |looks| ensures |rows| == |looks| && RowFits(looks[j], rows[j]) {
      RowOfLook(hz, now, previous, looks, j);
    }
    if looks == [] {
      assert rows == [];
    }
  }

  /** A capture process is among the ids of a sample exactly when its ticks were read. */
  lemma {:induction false} TicksAreIds(looks: seq<Look>, rows: seq<Row>, k: Key)
    requires AllFit(looks, rows) && DistinctPids(looks)
    ensures k in TicksOf(looks) <==> (k.0, Some(k.1)) in Ids(Captures(rows))
  {
    if k in TicksOf(looks) {
      var j := LookOfTicks(looks, k);
      assert RowFits(looks[j], rows[j]);
      CaptureIsThere(rows, j);
    }
    if (k.0, Some(k.1)) in Ids(Captures(rows)) {
      var r :| r in Captures(rows) && (r.pid, r.start) == (k.0, Some(k.1));
      var j := RowOfCapture(rows, r);
      assert RowFits(looks[j], rows[j]);
      TicksOfLook(looks, j);
    }
  }

  /** Over one measured interval the percentage times the time is the growth of the ticks. */
  lemma {:induction false} OneProcessGrows(hz: int, at0: real, looks0: seq<Look>, previous: map<int, Baseline>,
                                           at1: real, looks1: seq<Look>, rows1: seq<Row>, k: Key, f: real)
    requires hz > 0 && at0 < at1 && f == hz as real * (at1 - at0)
    requires DistinctPids(looks0) && DistinctPids(looks1) && AllFit(looks1, rows1)
    requires k in TicksOf(looks1) && k in TicksOf(looks0) && AllKnown(Captures(rows1))
    requires forall j :: 0 <= j < |looks0| && Whole(looks0[j]) ==>
               looks0[j].pid in previous && previous[looks0[j].pid] == Baseline(looks0[j].first.value, at0)
    requires forall j :: 0 <= j < |looks1| ==>
               Looked(hz, at1, previous, looks1[j]).Some? && rows1[j] == Looked(hz, at1, previous, looks1[j]).value.row
    ensures k in CpusOf(looks1, rows1)
    ensures Times(f, CpusOf(looks1, rows1)[k]) == 100.0 * (TicksOf(looks1)[k] - TicksOf(looks0)[k])
  {
    var i := LookOfTicks(looks0, k);
    var j := LookOfTicks(looks1, k);
    TicksOfLook(looks0, i);
    TicksOfLook(looks1, j);
    CaptureIsThere(rows1, j);
    CpuOfLook(looks1, rows1, j);
    PercentTimes(hz, looks1[j].first.value.ticks - looks0[i].first.value.ticks, at1 - at0);
  }

  lemma PercentTimes(hz: int, ticks: int, elapsed: real)
    requires hz > 0 && elapsed > 0.0
    ensures Times(hz as real * elapsed, Percent(hz, ticks, elapsed)) == 100.0 * ticks as real
  {
    var q := hz as real * elapsed;
    Positive(hz as real, elapsed);
    QuotientTimes((ticks * 100) as real, q);
  }

  lemma Positive(a: real, b: real)
    requires a > 0.0 && b > 0.0
    ensures a * b > 0.0
  {
  }

  ghost predicate LeftBy(previous: map<int, Baseline>, at: real, looks: seq<Look>) {
    forall j :: 0 <= j < |looks| && Whole(looks[j]) ==>
      looks[j].pid in previous && previous[looks[j].pid] == Baseline(looks[j].first.value, at)
  }

  ghost predicate MadeFrom(hz: int, at: real, previous: map<int, Baseline>, looks: seq<Look>, rows: seq<Row>)
    requires hz > 0 && |rows| == |looks|
  {
    forall j :: 0 <= j < |looks| ==>
      Looked(hz, at, previous, looks[j]).Some? && rows[j] == Looked(hz, at, previous, looks[j]).value.row
  }

  lemma {:induction false} SameProcesses(looks0: seq<Look>, rows0: seq<Row>, looks1: seq<Look>, rows1: seq<Row>)
    requires DistinctPids(looks0) && DistinctPids(looks1) && AllFit(looks0, rows0) && AllFit(looks1, rows1)
    requires Ids(Captures(rows0)) == Ids(Captures(rows1))
    ensures TicksOf(looks0).Keys == TicksOf(looks1).Keys
  {
    forall k ensures k in TicksOf(looks0) <==> k in TicksOf(looks1) {
      TicksAreIds(looks0, rows0, k);
      TicksAreIds(looks1, rows1, k);
    }
  }

  /** A hundred times what each process used. */
  function Hundredfold(ticks0: map<Key, real>, ticks1: map<Key, real>): map<Key, real> {
    map k | k in ticks0 && k in ticks1 :: 100.0 * (ticks1[k] - ticks0[k])
  }

  lemma {:induction false} SumOfHundredfold(ticks0: map<Key, real>, ticks1: map<Key, real>)
    requires ticks0.Keys == ticks1.Keys
    ensures Sum(Hundredfold(ticks0, ticks1)) == 100.0 * (Sum(ticks1) - Sum(ticks0))
  {
    var growth := map k | k in ticks0 && k in ticks1 :: ticks1[k] - ticks0[k];
    SumDifference(growth, ticks1, ticks0);
    SumScales(growth, Hundredfold(ticks0, ticks1), 100.0);
  }

  lemma {:induction false} AllProcessesGrow(hz: int, at0: real, looks0: seq<Look>, previous: map<int, Baseline>,
                         at1: real, looks1: seq<Look>, rows1: seq<Row>, f: real)
    requires hz > 0 && at0 < at1 && f == hz as real * (at1 - at0)
    requires DistinctPids(looks0) && DistinctPids(looks1) && AllFit(looks1, rows1) && AllKnown(Captures(rows1))
    requires TicksOf(looks0).Keys == TicksOf(looks1).Keys
    requires LeftBy(previous, at0, looks0) && MadeFrom(hz, at1, previous, looks1, rows1)
    ensures CpusOf(looks1, rows1).Keys == TicksOf(looks1).Keys
    ensures forall k :: k in CpusOf(looks1, rows1) ==>
              Times(f, CpusOf(looks1, rows1)[k]) == 100.0 * (TicksOf(looks1)[k] - TicksOf(looks0)[k])
  {
    var cpus, ticks0, ticks1 := CpusOf(looks1, rows1), TicksOf(looks0), TicksOf(looks1);
    forall k | k in ticks1 ensures k in cpus && Times(f, cpus[k]) == 100.0 * (ticks1[k] - ticks0[k]) {
      OneProcessGrows(hz, at0, looks0, previous, at1, looks1, rows1, k, f);
    }
    forall k | k in cpus ensures k in ticks1 {
      CpusAreOfTicks(looks1, rows1, k);
    }
  }

  /** Over one measured interval the sum of the percentages times the time is the growth of all ticks. */
  lemma {:induction false} IntervalGrows(hz: int, at0: real, looks0: seq<Look>, rows0: seq<Row>,
                                         previous: map<int, Baseline>,
                                         at1: real, looks1: seq<Look>, rows1: seq<Row>, f: real)
    requires hz > 0 && at0 < at1 && f == hz as real * (at1 - at0)
    requires DistinctPids(looks0) && DistinctPids(looks1)
    requires AllFit(looks0, rows0) && AllFit(looks1, rows1) && Measured(Sample(at0, rows0), Sample(at1, rows1))
    requires LeftBy(previous, at0, looks0) && MadeFrom(hz, at1, previous, looks1, rows1)
    ensures Times(f, CpuSum(Captures(rows1))) == 100.0 * (Sum(TicksOf(looks1)) - Sum(TicksOf(looks0)))
  {
    SameProcesses(looks0, rows0, looks1, rows1);
    CpuSumIsSum(looks1, rows1);
    AllProcessesGrow(hz, at0, looks0, previous, at1, looks1, rows1, f);
    SumOfHundredfold(TicksOf(looks0), TicksOf(looks1));
    SumScales(CpusOf(looks1, rows1), Hundredfold(TicksOf(looks0), TicksOf(looks1)), f);
  }

  // ---- a whole recording ----

  datatype Shot = Shot(at: real, looks: seq<Look>)
  datatype Log = Log(samples: seq<Sample>, previous: map<int, Baseline>)

  /** The samples a fresh sampler takes. */
  function Logged(hz: int, shots: seq<Shot>): Option<Log>
    requires hz > 0
  {
    if shots == [] then Some(Log([], map[]))
    else
      var before, shot := Logged(hz, shots[..|shots| - 1]), shots[|shots| - 1];
      if before.None? then None
      else
        var t := AllLooked(hz, shot.at, before.value.previous, shot.looks);
        if t.None? then None
        else Some(Log(before.value.samples + [Sample(shot.at, t.value.rows)], t.value.previous))
  }

  predicate Advancing(shots: seq<Shot>) {
    forall i :: 1 <= i < |shots| ==> shots[i - 1].at < shots[i].at
  }

  ghost predicate NoClash(shots: seq<Shot>) {
    forall i :: 0 <= i < |shots| ==> !Clashes(shots[i].looks)
  }

  /** The log is as far as its last sample. */
  ghost predicate LogFits(shots: seq<Shot>, log: Log) {
    && |log.samples| == |shots| && (forall i :: 0 <= i < |shots| ==> log.samples[i].at == shots[i].at)
    && if shots == [] then log.previous == map[] else UpTo(log.previous, shots[|shots| - 1].at)
  }

  /** As long as time advances, a fresh sampler takes all its samples exactly when none has a clash. */
  lemma {:induction false} LoggedIffNoClash(hz: int, shots: seq<Shot>)
    requires hz > 0 && Advancing(shots)
    ensures Logged(hz, shots).Some? <==> NoClash(shots)
    ensures Logged(hz, shots).Some? ==> LogFits(shots, Logged(hz, shots).value)
  {
    if shots != [] {
      var n := |shots| - 1;
      var rest, shot := shots[..n], shots[n];
      LoggedIffNoClash(hz, rest);
      assert NoClash(shots) <==> NoClash(rest) && !Clashes(shot.looks);
      if Logged(hz, rest).Some? {
        var before := Logged(hz, rest).value;
        assert Before(before.previous, shot.at) by {
          assert n > 0 ==> shots[n - 1].at < shots[n].at;
        }
        SampleFailsIffClash(hz, shot.at, before.previous, shot.looks);
        if !Clashes(shot.looks) {
          BaselinesUpTo(hz, shot.at, before.previous, shot.looks);
        }
      }
    }
  }

  /** A sample took its rows from the baselines before it and left those after it. */
  ghost predicate Took(hz: int, shot: Shot, sample: Sample, before: map<int, Baseline>, after: map<int, Baseline>)
    requires hz > 0
  {
    && sample.at == shot.at && AllFit(shot.looks, sample.rows)
    && MadeFrom(hz, shot.at, before, shot.looks, sample.rows)
    && LeftBy(after, shot.at, shot.looks)
  }

  lemma {:induction false} AllLookedTook(hz: int, shot: Shot, before: map<int, Baseline>)
    requires hz > 0 && DistinctPids(shot.looks) && AllLooked(hz, shot.at, before, shot.looks).Some?
    ensures var t := AllLooked(hz, shot.at, before, shot.looks).value;
            Took(hz, shot, Sample(shot.at, t.rows), before, t.previous)
  {
    RowsFit(hz, shot.at, before, shot.looks);
    forall j: nat | j < |shot.looks|
      ensures Looked(hz, shot.at, before, shot.looks[j]).Some?
      ensures AllLooked(hz, shot.at, before, shot.looks).value.rows[j]
              == Looked(hz, shot.at, before, shot.looks[j]).value.row
      ensures Whole(shot.looks[j]) ==> shot.looks[j].pid in AllLooked(hz, shot.at, before, shot.looks).value.previous
      ensures Whole(shot.looks[j]) ==>
        AllLooked(hz, shot.at, before, shot.looks).value.previous[shot.looks[j].pid]
        == Baseline(shot.looks[j].first.value, shot.at)
    {
      RowOfLook(hz, shot.at, before, shot.looks, j);
    }
  }

  /** The baselines between the samples of a recording. */
  lemma {:induction false} BaselinesBetween(hz: int, shots: seq<Shot>) returns (b: seq<map<int, Baseline>>)
    requires hz > 0 && Logged(hz, shots).Some? && forall i :: 0 <= i < |shots| ==> DistinctPids(shots[i].looks)
    ensures |b| == |shots| + 1 && b[|shots|] == Logged(hz, shots).value.previous
    ensures |Logged(hz, shots).value.samples| == |shots|
    ensures forall n: nat :: n < |shots| ==> Took(hz, shots[n], Logged(hz, shots).value.samples[n], b[n], b[n + 1])
  {
    if shots == [] {
      b := [map[]];
    } else {
      var n := |shots| - 1;
      var c := BaselinesBetween(hz, shots[..n]);
      b := c + [Logged(hz, shots).value.previous];
      AllLookedTook(hz, shots[n], c[n]);
    }
  }

  ghost predicate Recorded(hz: int, shots: seq<Shot>, samples: seq<Sample>, b: seq<map<int, Baseline>>)
    requires hz > 0
  {
    && |samples| == |shots| && |b| == |shots| + 1
    && (forall n: nat :: n < |shots| ==> Took(hz, shots[n], samples[n], b[n], b[n + 1]))
    && (forall i :: 0 <= i < |shots| ==> DistinctPids(shots[i].looks))
  }

  /** Interval `i` of a recording with these total ticks at its samples. */
  ghost predicate Grows(hz: int, samples: seq<Sample>, totals: seq<real>, i: nat)
    requires 0 < i < |samples| == |totals|
  {
    Times(hz as real * (samples[i].at - samples[i - 1].at),
          CpuSum(Captures(samples[i].rows)))
    == 100.0 * (totals[i] - totals[i - 1])
  }

  lemma {:induction false} WeightedTelescopes(hz: int, samples: seq<Sample>, totals: seq<real>, n: nat)
    requires n < |samples| == |totals| && forall i: nat :: 0 < i <= n ==> Grows(hz, samples, totals, i)
    ensures Times(hz as real, Weighted(samples, n)) == 100.0 * (totals[n] - totals[0])
  {
    if n > 0 {
      WeightedTelescopes(hz, samples, totals, n - 1);
      assert Grows(hz, samples, totals, n);
      AddInterval(hz as real, Weighted(samples, n - 1), CpuSum(Captures(samples[n].rows)),
                  samples[n].at - samples[n - 1].at,
                  totals[0], totals[n - 1], totals[n]);
    }
  }

  lemma IntervalOfShots(hz: int, shots: seq<Shot>, samples: seq<Sample>, b: seq<map<int, Baseline>>, n: nat, f: real)
    requires hz > 0 && Recorded(hz, shots, samples, b) && 0 < n < |shots|
    requires samples[n - 1].at < samples[n].at && Measured(samples[n - 1], samples[n])
    requires f == hz as real * (samples[n].at - samples[n - 1].at)
    ensures Times(f, CpuSum(Captures(samples[n].rows)))
         == 100.0 * (Sum(TicksOf(shots[n].looks)) - Sum(TicksOf(shots[n - 1].looks)))
  {
    assert Took(hz, shots[n - 1], samples[n - 1], b[n - 1], b[n]);
    assert Took(hz, shots[n], samples[n], b[n], b[n + 1]);
    IntervalGrows(hz, shots[n - 1].at, shots[n - 1].looks, samples[n - 1].rows, b[n],
                  shots[n].at, shots[n].looks, samples[n].rows, f);
  }

  lemma AddInterval(hz: real, weighted: real, cpu: real, elapsed: real, t0: real, t1: real, t2: real)
    requires Times(hz, weighted) == 100.0 * (t1 - t0) && Times(hz * elapsed, cpu) == 100.0 * (t2 - t1)
    ensures Times(hz, weighted + cpu * elapsed) == 100.0 * (t2 - t0)
  {
    assert hz * (cpu * elapsed) == (hz * elapsed) * cpu;
    TimesAdds(hz, weighted, cpu * elapsed);
  }

  ghost function Totals(shots: seq<Shot>): (totals: seq<real>)
    ensures |totals| == |shots| && forall i :: 0 <= i < |shots| ==> totals[i] == Sum(TicksOf(shots[i].looks))
  {
    seq(|shots|, i requires 0 <= i < |shots| => Sum(TicksOf(shots[i].looks)))
  }

  lemma EachIntervalGrows(hz: int, shots: seq<Shot>, samples: seq<Sample>, b: seq<map<int, Baseline>>)
    requires hz > 0 && Recorded(hz, shots, samples, b) && InTime(samples) && MeasuredUpTo(samples, |samples|)
    ensures forall i: nat :: 0 < i < |samples| ==> Grows(hz, samples, Totals(shots), i)
  {
    forall i: nat | 0 < i < |samples| ensures Grows(hz, samples, Totals(shots), i) {
      assert Measured(samples[i - 1], samples[i]);
      IntervalOfShots(hz, shots, samples, b, i, hz as real * (samples[i].at - samples[i - 1].at));
    }
  }

  lemma Reorder(mean: real, hz: real, elapsed: real, weighted: real)
    requires mean * elapsed == weighted
    ensures mean * (hz * elapsed) == Times(hz, weighted)
  {
    assert mean * (hz * elapsed) == hz * (mean * elapsed);
  }

  lemma {:induction false} SameProcessesThroughout(hz: int, shots: seq<Shot>, samples: seq<Sample>,
                                                   b: seq<map<int, Baseline>>, n: nat)
    requires hz > 0 && Recorded(hz, shots, samples, b) && MeasuredUpTo(samples, |samples|) && n < |shots|
    ensures TicksOf(shots[0].looks).Keys == TicksOf(shots[n].looks).Keys
  {
    if n > 0 {
      SameProcessesThroughout(hz, shots, samples, b, n - 1);
      assert Took(hz, shots[n - 1], samples[n - 1], b[n - 1], b[n]) && Took(hz, shots[n], samples[n], b[n], b[n + 1]);
      assert Measured(samples[n - 1], samples[n]);
      SameProcesses(shots[n - 1].looks, samples[n - 1].rows, shots[n].looks, samples[n].rows);
    }
  }

  lemma {:induction false} RecordedMean(hz: int, shots: seq<Shot>, samples: seq<Sample>, b: seq<map<int, Baseline>>,
                                        mean: real)
    requires hz > 0 && Recorded(hz, shots, samples, b) && |shots| >= 2 && InTime(samples) && Complete(samples)
    requires mean * Elapsed(samples) == Weighted(samples, |samples| - 1)
    ensures mean * (hz as real * Elapsed(samples)) == 100.0 * (Totals(shots)[|shots| - 1] - Totals(shots)[0])
  {
    EachIntervalGrows(hz, shots, samples, b);
    WeightedTelescopes(hz, samples, Totals(shots), |samples| - 1);
    Reorder(mean, hz as real, Elapsed(samples), Weighted(samples, |samples| - 1));
  }

  lemma EndsAgree(hz: int, shots: seq<Shot>, samples: seq<Sample>, b: seq<map<int, Baseline>>)
    requires hz > 0 && Recorded(hz, shots, samples, b) && |shots| >= 2 && Complete(samples)
    ensures samples[0].at == shots[0].at && samples[|samples| - 1].at == shots[|shots| - 1].at
    ensures TicksOf(shots[0].looks).Keys == TicksOf(shots[|shots| - 1].looks).Keys
    ensures TicksOf(shots[|shots| - 1].looks) != map[]
  {
    var n := |shots| - 1;
    SameProcessesThroughout(hz, shots, samples, b, n);
    assert Took(hz, shots[0], samples[0], b[0], b[1]) && Took(hz, shots[n], samples[n], b[n], b[n + 1]);
    assert Measured(samples[n - 1], samples[n]);
    SomeProcess(shots[n].looks, samples[n].rows);
  }

  ghost predicate MeansGrowth(hz: int, shots: seq<Shot>, samples: seq<Sample>, mean: real)
    requires shots != [] && samples != []
  {
    var first, last := shots[0], shots[|shots| - 1];
    && Elapsed(samples) == last.at - first.at
    && mean * (hz as real * Elapsed(samples)) == 100.0 * (Sum(TicksOf(last.looks)) - Sum(TicksOf(first.looks)))
    && TicksOf(first.looks).Keys == TicksOf(last.looks).Keys
    && TicksOf(last.looks) != map[]
  }

  /** What `MeanCpu` returns for complete samples. */
  ghost predicate IsMean(samples: seq<Sample>, mean: real) {
    samples != [] && mean * Elapsed(samples) == Weighted(samples, |samples| - 1)
  }

  ghost predicate EachGivenOnce(shots: seq<Shot>) {
    forall i :: 0 <= i < |shots| ==> DistinctPids(shots[i].looks)
  }

  lemma {:induction false} GivenOnceIsLogged(hz: int, shots: seq<Shot>)
    requires hz > 0 && Advancing(shots) && EachGivenOnce(shots)
    ensures Logged(hz, shots).Some? && LogFits(shots, Logged(hz, shots).value)
  {
    forall i | 0 <= i < |shots| ensures !Clashes(shots[i].looks) {
      DistinctPidsDoNotClash(shots[i].looks);
    }
    LoggedIffNoClash(hz, shots);
  }

  lemma {:induction false} KnownMeanIsGrowth(hz: int, shots: seq<Shot>, samples: seq<Sample>, mean: real)
    requires hz > 0 && Logged(hz, shots).Some? && samples == Logged(hz, shots).value.samples && |shots| >= 2
    requires EachGivenOnce(shots)
    requires InTime(samples) && Complete(samples) && IsMean(samples, mean)
    ensures MeansGrowth(hz, shots, samples, mean)
  {
    var b := BaselinesBetween(hz, shots);
    RecordedIs(hz, shots, samples, b);
    RecordedMean(hz, shots, samples, b, mean);
    EndsAgree(hz, shots, samples, b);
  }

  /** With each process given once and time advancing, a fresh sampler takes all its samples; and
      whenever the mean is known it is exactly the capture processes' ticks used between the first
      and the last sample, over the ticks that passed, and these are the same processes in both. */
  lemma {:induction false} MeanIsTickGrowth(hz: int, shots: seq<Shot>, samples: seq<Sample>, mean: real)
    requires hz > 0 && |shots| >= 2 && Advancing(shots) && EachGivenOnce(shots)
    ensures Logged(hz, shots).Some?
    ensures samples == Logged(hz, shots).value.samples ==> |samples| == |shots| && InTime(samples)
    ensures samples == Logged(hz, shots).value.samples && Complete(samples) && IsMean(samples, mean) ==>
              MeansGrowth(hz, shots, samples, mean)
  {
    GivenOnceIsLogged(hz, shots);
    if samples == Logged(hz, shots).value.samples && Complete(samples) && IsMean(samples, mean) {
      KnownMeanIsGrowth(hz, shots, samples, mean);
    }
  }

  lemma RecordedIs(hz: int, shots: seq<Shot>, samples: seq<Sample>, b: seq<map<int, Baseline>>)
    requires hz > 0 && |samples| == |shots| && |b| == |shots| + 1
    requires forall n: nat :: n < |shots| ==> Took(hz, shots[n], samples[n], b[n], b[n + 1])
    requires forall i :: 0 <= i < |shots| ==> DistinctPids(shots[i].looks)
    ensures Recorded(hz, shots, samples, b)
  {
  }

  lemma {:induction false} SomeProcess(looks: seq<Look>, rows: seq<Row>)
    requires AllFit(looks, rows) && DistinctPids(looks) && Captures(rows) != [] && AllKnown(Captures(rows))
    ensures TicksOf(looks) != map[]
  {
    var r := Captures(rows)[0];
    var j := RowOfCapture(rows, r);
    assert RowFits(looks[j], rows[j]);
    TicksOfLook(looks, j);
  }
}
