/** The stand's sampling profiler (`Sampler.record`, `Sampler.sample`): bounded tables of stacks and
    threads, with buckets for what does not fit, fed from one listing of `/proc/self/task` a sample. */
module Sampler {
  import opened Basics
  import opened Sums

  /** A thread id and its start time, which tells a reused id apart. */
  datatype Key = Key(tid: int, start: int)
  /** A row of the histogram: the thread, and its Python stack if it has one. */
  datatype Place = Place(tid: int, frames: Option<seq<string>>)
  datatype Row = Row(wall: real, cpu: real)
  /** One listed task: its `stat` could be read or not. */
  datatype Task =
    | Unread(tid: int)
    | Read(tid: int, start: int, ticks: int, running: bool, frames: Option<seq<string>>)

  datatype Config = Config(maxStacks: nat, startedTicks: int, tick: real, samplerTid: int)
  /** The histogram, with the row for stacks that no longer fit. */
  datatype Stacks = Stacks(rows: map<Place, Row>, overflow: Row)
  /** The CPU of each thread, with the bucket for threads that no longer fit. */
  datatype Threads = Threads(cpu: map<Key, real>, other: real)
  datatype State = State(
    stacks: Stacks, threads: Threads, unattributed: real,
    previous: map<Key, int>, samples: nat, missing: nat, capReached: bool)

  const MAX_THREADS := 256

  function Initial(): State {
    State(Stacks(map[], Row(0.0, 0.0)), Threads(map[], 0.0), 0.0, map[], 0, 0, false)
  }

  // ---- one sample ----

  function KeyOf(t: Task): Key
    requires t.Read?
  {
    Key(t.tid, t.start)
  }

  function Bumped(row: Row, cpu: real): Row {
    Row(row.wall + 1.0, row.cpu + cpu)
  }

  function Recorded(c: Config, h: Stacks, place: Place, cpu: real): Stacks {
    if place in h.rows then h.(rows := h.rows[place := Bumped(h.rows[place], cpu)])
    else if |h.rows| >= c.maxStacks then h.(overflow := Bumped(h.overflow, cpu))
    else h.(rows := h.rows[place := Bumped(Row(0.0, 0.0), cpu)])
  }

  function Charged(h: Threads, key: Key, delta: real): Threads {
    if key in h.cpu then h.(cpu := h.cpu[key := h.cpu[key] + delta])
    else if |h.cpu| < MAX_THREADS then h.(cpu := h.cpu[key := delta])
    else h.(other := h.other + delta)
  }

  /** What a thread seen for the first time is counted from. */
  function Baseline(c: Config, key: Key, ticks: int): int {
    if key.start >= c.startedTicks then 0 else ticks
  }

  function DeltaTicks(c: Config, previous: map<Key, int>, t: Task): int
    requires t.Read?
  {
    var since := if KeyOf(t) in previous then previous[KeyOf(t)] else Baseline(c, KeyOf(t), t.ticks);
    if t.ticks - since > 0 then t.ticks - since else 0
  }

  function Ticks(c: Config, n: int): real {
    n as real * c.tick
  }

  predicate Attributable(t: Task)
    requires t.Read?
  {
    t.running && t.frames.Some?
  }

  /** A thread's CPU: charged to the thread, and given to its stack or left unattributed. */
  function Counted(c: Config, s: State, key: Key, place: Place, delta: real, attributed: real): State {
    s.(threads := Charged(s.threads, key, delta),
       stacks := Recorded(c, s.stacks, place, attributed),
       unattributed := s.unattributed + (delta - attributed))
  }

  function Taken(c: Config, s: State, t: Task): State {
    if t.tid == c.samplerTid then s
    else if t.Unread? then s.(missing := s.missing + 1)
    else
      var delta := Ticks(c, DeltaTicks(c, s.previous, t));
      Counted(c, s, KeyOf(t), Place(t.tid, t.frames), delta, if Attributable(t) then delta else 0.0)
  }

  function AllTaken(c: Config, s: State, tasks: seq<Task>): State {
    if tasks == [] then s else Taken(c, AllTaken(c, s, tasks[..|tasks| - 1]), tasks[|tasks| - 1])
  }

  function Capped(tasks: seq<Task>): seq<Task> {
    if |tasks| > MAX_THREADS then tasks[..MAX_THREADS] else tasks
  }

  function Tids(tasks: seq<Task>): set<int> {
    set t | t in tasks :: t.tid
  }

  function Readings(c: Config, tasks: seq<Task>): map<Key, int> {
    if tasks == [] then map[]
    else
      var t, before := tasks[|tasks| - 1], Readings(c, tasks[..|tasks| - 1]);
      if t.Read? && t.tid != c.samplerTid then before[KeyOf(t) := t.ticks] else before
  }

  function Kept(previous: map<Key, int>, seen: set<int>): map<Key, int> {
    map k | k in previous && k.tid in seen :: previous[k]
  }

  function Sampled(c: Config, s: State, tasks: seq<Task>): State {
    var listed := Capped(tasks);
    var taken := AllTaken(c, s, listed);
    taken.(previous := Kept(s.previous, Tids(listed)) + Readings(c, listed),
           samples := s.samples + 1,
           capReached := s.capReached || |tasks| > MAX_THREADS)
  }

  function Run(c: Config, history: seq<seq<Task>>): State {
    if history == [] then Initial() else Sampled(c, Run(c, history[..|history| - 1]), history[|history| - 1])
  }

  // ---- sums over the tables ----

  ghost function Walls(h: map<Place, Row>): map<Place, real> {
    map p | p in h :: h[p].wall
  }

  ghost function Cpus(h: map<Place, Row>): map<Place, real> {
    map p | p in h :: h[p].cpu
  }

  // ---- conservation ----

  /** Tasks other than the sampler whose `stat` was read. */
  function Reads(c: Config, tasks: seq<Task>): nat {
    if tasks == [] then 0
    else
      var t := tasks[|tasks| - 1];
      Reads(c, tasks[..|tasks| - 1]) + if t.Read? && t.tid != c.samplerTid then 1 else 0
  }

  function Others(c: Config, tasks: seq<Task>): nat {
    if tasks == [] then 0
    else Others(c, tasks[..|tasks| - 1]) + if tasks[|tasks| - 1].tid != c.samplerTid then 1 else 0
  }

  function ReadsIn(c: Config, history: seq<seq<Task>>): nat {
    if history == [] then 0
    else ReadsIn(c, history[..|history| - 1]) + Reads(c, Capped(history[|history| - 1]))
  }

  function OthersIn(c: Config, history: seq<seq<Task>>): nat {
    if history == [] then 0
    else OthersIn(c, history[..|history| - 1]) + Others(c, Capped(history[|history| - 1]))
  }

  ghost function CpuOf(h: Stacks): real {
    Sum(Cpus(h.rows)) + h.overflow.cpu
  }

  ghost function WallOf(h: Stacks): real {
    Sum(Walls(h.rows)) + h.overflow.wall
  }

  ghost function TotalOf(h: Threads): real {
    Sum(h.cpu) + h.other
  }

  /** Every CPU second charged to a thread is in exactly one row, and every read in exactly one count. */
  ghost predicate Balanced(c: Config, s: State, readCount: nat, taskCount: nat) {
    && TotalOf(s.threads) == CpuOf(s.stacks) + s.unattributed
    && WallOf(s.stacks) == readCount as real
    && readCount + s.missing == taskCount
    && |s.stacks.rows| <= c.maxStacks
    && |s.threads.cpu| <= MAX_THREADS
  }

  lemma RecordedAddsOnce(c: Config, h: Stacks, place: Place, cpu: real)
    requires |h.rows| <= c.maxStacks
    ensures var t := Recorded(c, h, place, cpu);
            CpuOf(t) == CpuOf(h) + cpu && WallOf(t) == WallOf(h) + 1.0 && |t.rows| <= c.maxStacks
  {
    var t := Recorded(c, h, place, cpu);
    if place in t.rows {
      var row := t.rows[place];
      assert Cpus(t.rows) == Cpus(h.rows)[place := row.cpu];
      assert Walls(t.rows) == Walls(h.rows)[place := row.wall];
      SumUpdate(Cpus(h.rows), place, row.cpu);
      SumUpdate(Walls(h.rows), place, row.wall);
    }
  }

  lemma ChargedAddsOnce(h: Threads, key: Key, delta: real)
    requires |h.cpu| <= MAX_THREADS
    ensures var t := Charged(h, key, delta); TotalOf(t) == TotalOf(h) + delta && |t.cpu| <= MAX_THREADS
  {
    SumUpdate(h.cpu, key, delta);
    if key in h.cpu {
      SumUpdate(h.cpu, key, h.cpu[key] + delta);
    }
  }

  lemma TakenBalances(c: Config, s: State, t: Task, readCount: nat, taskCount: nat)
    requires Balanced(c, s, readCount, taskCount)
    ensures Balanced(c, Taken(c, s, t), readCount + (if t.Read? && t.tid != c.samplerTid then 1 else 0),
                     taskCount + if t.tid != c.samplerTid then 1 else 0)
  {
    if t.tid != c.samplerTid && t.Read? {
      var delta := Ticks(c, DeltaTicks(c, s.previous, t));
      CountedBalances(c, s, KeyOf(t), Place(t.tid, t.frames), delta,
                      if Attributable(t) then delta else 0.0, readCount, taskCount);
    }
  }

  lemma CountedBalances(c: Config, s: State, key: Key, place: Place, delta: real, attributed: real, readCount: nat,
                        taskCount: nat)
    requires Balanced(c, s, readCount, taskCount)
    ensures Balanced(c, Counted(c, s, key, place, delta, attributed), readCount + 1, taskCount + 1)
  {
    ChargedAddsOnce(s.threads, key, delta);
    RecordedAddsOnce(c, s.stacks, place, attributed);
  }

  lemma {:induction false} AllTakenBalances(c: Config, s: State, tasks: seq<Task>, readCount: nat, taskCount: nat)
    requires Balanced(c, s, readCount, taskCount)
    ensures Balanced(c, AllTaken(c, s, tasks), readCount + Reads(c, tasks), taskCount + Others(c, tasks))
  {
    if tasks != [] {
      var n := |tasks| - 1;
      AllTakenBalances(c, s, tasks[..n], readCount, taskCount);
      TakenBalances(c, AllTaken(c, s, tasks[..n]), tasks[n], readCount + Reads(c, tasks[..n]),
                    taskCount + Others(c, tasks[..n]));
    }
  }

  /** After any samples, nothing is lost and nothing counted twice between the tables, and both
      tables keep their limits. */
  lemma {:induction false} SamplesBalance(c: Config, history: seq<seq<Task>>)
    ensures Balanced(c, Run(c, history), ReadsIn(c, history), OthersIn(c, history))
  {
    if history == [] {
      assert Cpus(map[]) == map[] && Walls(map[]) == map[];
    } else {
      var n := |history| - 1;
      SamplesBalance(c, history[..n]);
      AllTakenBalances(c, Run(c, history[..n]), Capped(history[n]), ReadsIn(c, history[..n]),
                       OthersIn(c, history[..n]));
    }
  }

  // ---- telescoping ----

  /** The first and the last ticks read of every thread. */
  function Latest(c: Config, history: seq<seq<Task>>): map<Key, int> {
    if history == [] then map[]
    else Latest(c, history[..|history| - 1]) + Readings(c, Capped(history[|history| - 1]))
  }

  function First(c: Config, history: seq<seq<Task>>): map<Key, int> {
    if history == [] then map[]
    else Readings(c, Capped(history[|history| - 1])) + First(c, history[..|history| - 1])
  }

  /** A thread's baseline is still held: since a sample read it, every sample listed its id. */
  predicate Held(c: Config, history: seq<seq<Task>>, key: Key) {
    history != []
    && var listed := Capped(history[|history| - 1]);
       (key in Readings(c, listed) || (key.tid in Tids(listed) && Held(c, history[..|history| - 1], key)))
  }

  ghost predicate DistinctTids(tasks: seq<Task>) {
    forall i, j :: 0 <= i < j < |tasks| ==> tasks[i].tid != tasks[j].tid
  }

  ghost predicate GrowsFrom(latest: map<Key, int>, readings: map<Key, int>) {
    forall k :: k in readings ==> 0 <= readings[k] && (k in latest ==> latest[k] <= readings[k])
  }

  /** Each listing names a task once, and no thread's ticks ever decrease. */
  ghost predicate Plausible(c: Config, history: seq<seq<Task>>) {
    history != [] ==>
      && Plausible(c, history[..|history| - 1])
      && DistinctTids(history[|history| - 1])
      && GrowsFrom(Latest(c, history[..|history| - 1]), Readings(c, Capped(history[|history| - 1])))
  }

  /** What one reading of a thread whose baseline was dropped counts beyond its growth: all its
      earlier ticks again, or (if it is older than the profile) none of the growth. */
  function Error(c: Config, key: Key, latest: int, ticks: int): int {
    if key.start >= c.startedTicks then latest else latest - ticks
  }

  function Excess(c: Config, history: seq<seq<Task>>, key: Key): int {
    if history == [] then 0
    else
      var before := history[..|history| - 1];
      var readings := Readings(c, Capped(history[|history| - 1]));
      Excess(c, before, key)
      + if key in readings && key in Latest(c, before) && !Held(c, before, key)
        then Error(c, key, Latest(c, before)[key], readings[key])
        else 0
  }

  /** The baseline kept for a thread is its latest reading, for as long as its id stays listed. */
  lemma {:induction false} BaselineIsLatest(c: Config, history: seq<seq<Task>>, k: Key)
    ensures k in Run(c, history).previous <==> Held(c, history, k)
    ensures k in Run(c, history).previous ==>
        k in Latest(c, history) && Run(c, history).previous[k] == Latest(c, history)[k]
  {
    if history != [] {
      BaselineIsLatest(c, history[..|history| - 1], k);
    }
  }

  lemma {:induction false} FirstWithLatest(c: Config, history: seq<seq<Task>>)
    ensures First(c, history).Keys == Latest(c, history).Keys
  {
    if history != [] {
      FirstWithLatest(c, history[..|history| - 1]);
    }
  }

  lemma {:induction false} NoExcessBeforeReading(c: Config, history: seq<seq<Task>>, k: Key)
    requires k !in Latest(c, history)
    ensures Excess(c, history, k) == 0
  {
    if history != [] {
      NoExcessBeforeReading(c, history[..|history| - 1], k);
    }
  }

  /** A thread's growth from its baseline. */
  function Growth(c: Config, history: seq<seq<Task>>, k: Key): int
    requires k in Latest(c, history) && k in First(c, history)
  {
    Latest(c, history)[k] - Baseline(c, k, First(c, history)[k])
  }

  /** What each thread read is charged, in ticks: its growth and the excess. */
  ghost function Own(c: Config, history: seq<seq<Task>>): map<Key, int> {
    map k | k in Latest(c, history) && k in First(c, history) :: Growth(c, history, k) + Excess(c, history, k)
  }

  ghost function Seconds(c: Config, own: map<Key, int>): map<Key, real> {
    map k | k in own :: Ticks(c, own[k])
  }

  /** The thread table holds `used` for the threads in it, and the bucket the rest. */
  ghost predicate Accounted(h: Threads, used: map<Key, real>) {
    && (forall k :: k in h.cpu ==> k in used && h.cpu[k] == used[k])
    && (forall k :: k in used && k !in h.cpu ==> |h.cpu| >= MAX_THREADS)
    && |h.cpu| <= MAX_THREADS
    && TotalOf(h) == Sum(used)
  }

  // A thread with an entry, or met while there is room, is charged in its entry.
  lemma ChargedAccounts(h: Threads, used: map<Key, real>, key: Key, delta: real)
    requires Accounted(h, used)
    ensures Accounted(Charged(h, key, delta), used[key := (if key in used then used[key] else 0.0) + delta])
  {
    ChargedAddsOnce(h, key, delta);
    SumUpdate(used, key, (if key in used then used[key] else 0.0) + delta);
  }

  lemma ChargedTicksAccount(c: Config, h: Threads, own: map<Key, int>, key: Key, delta: int)
    requires Accounted(h, Seconds(c, own))
    ensures Accounted(Charged(h, key, Ticks(c, delta)), Seconds(c, AddTicks(own, key, delta)))
  {
    var sum := (if key in own then own[key] else 0) + delta;
    TicksAdd(c, if key in own then own[key] else 0, delta);
    assert Seconds(c, own[key := sum]) == Seconds(c, own)[key := Ticks(c, sum)];
    ChargedAccounts(h, Seconds(c, own), key, Ticks(c, delta));
  }

  /** The baselines kept are the latest readings of the threads still held. */
  ghost predicate Keeps(c: Config, history: seq<seq<Task>>, previous: map<Key, int>) {
    && (forall k :: k in previous <==> Held(c, history, k))
    && (forall k :: k in previous ==> k in Latest(c, history) && previous[k] == Latest(c, history)[k])
  }

  lemma {:induction false} RunKeepsBaselines(c: Config, history: seq<seq<Task>>)
    ensures Keeps(c, history, Run(c, history).previous)
  {
    forall k ensures k in Run(c, history).previous <==> Held(c, history, k) {
      BaselineIsLatest(c, history, k);
    }
    forall k | k in Run(c, history).previous
      ensures k in Latest(c, history) && Run(c, history).previous[k] == Latest(c, history)[k]
    {
      BaselineIsLatest(c, history, k);
    }
  }

  /** What a reading adds to a thread's account: all since its baseline, or the growth since the
      last reading with the error if the baseline was dropped. */
  ghost function Added(c: Config, before: seq<seq<Task>>, key: Key, ticks: int): int {
    var latest := Latest(c, before);
    if key !in latest then ticks - Baseline(c, key, ticks)
    else ticks - latest[key] + if Held(c, before, key) then 0 else Error(c, key, latest[key], ticks)
  }

  lemma {:induction false} ChargeForReading(c: Config, before: seq<seq<Task>>, previous: map<Key, int>, t: Task)
    requires t.Read? && 0 <= t.ticks && Keeps(c, before, previous)
    requires var latest := Latest(c, before); KeyOf(t) in latest ==> latest[KeyOf(t)] <= t.ticks
    ensures DeltaTicks(c, previous, t) == Added(c, before, KeyOf(t), t.ticks)
  {
  }

  /** A thread's account part-way through a sample, with some of its readings taken. */
  ghost function OwnAfter(c: Config, before: seq<seq<Task>>, readings: map<Key, int>, k: Key): int {
    (if k in Latest(c, before) && k in First(c, before) then Growth(c, before, k) + Excess(c, before, k) else 0)
    + (if k in readings then Added(c, before, k, readings[k]) else 0)
  }

  ghost function AllOwnAfter(c: Config, before: seq<seq<Task>>, readings: map<Key, int>): map<Key, int> {
    map k | k in Latest(c, before).Keys + readings.Keys :: OwnAfter(c, before, readings, k)
  }

  function AddTicks(own: map<Key, int>, key: Key, delta: int): map<Key, int> {
    own[key := (if key in own then own[key] else 0) + delta]
  }

  lemma {:induction false} OwnStep(c: Config, history: seq<seq<Task>>, k: Key)
    requires history != [] && k in Latest(c, history)
    ensures k in First(c, history)
    ensures var before := history[..|history| - 1];
            Growth(c, history, k) + Excess(c, history, k)
               == OwnAfter(c, before, Readings(c, Capped(history[|history| - 1])), k)
  {
    var before := history[..|history| - 1];
    FirstWithLatest(c, before);
    if k !in Latest(c, before) {
      NoExcessBeforeReading(c, before, k);
    }
  }

  lemma OwnAtStart(c: Config, before: seq<seq<Task>>)
    ensures AllOwnAfter(c, before, map[]) == Own(c, before)
  {
    FirstWithLatest(c, before);
    forall k | k in AllOwnAfter(c, before, map[])
      ensures k in Own(c, before) && AllOwnAfter(c, before, map[])[k] == Own(c, before)[k] {
    }
  }

  lemma {:induction false} OwnAtEnd(c: Config, history: seq<seq<Task>>)
    requires history != []
    ensures AllOwnAfter(c, history[..|history| - 1], Readings(c, Capped(history[|history| - 1]))) == Own(c, history)
  {
    var before, readings := history[..|history| - 1], Readings(c, Capped(history[|history| - 1]));
    forall k | k in Latest(c, history)
      ensures k in Own(c, history) && k in AllOwnAfter(c, before, readings)
      ensures AllOwnAfter(c, before, readings)[k] == Own(c, history)[k]
    {
      OwnStep(c, history, k);
    }
  }

  lemma TicksAdd(c: Config, a: int, b: int)
    ensures Ticks(c, a + b) == Ticks(c, a) + Ticks(c, b)
  {
  }

  lemma ReadingOwns(c: Config, before: seq<seq<Task>>, readings: map<Key, int>, key: Key, ticks: int)
    requires key !in readings
    ensures AllOwnAfter(c, before, readings[key := ticks])
            == AddTicks(AllOwnAfter(c, before, readings), key, Added(c, before, key, ticks))
  {
    forall k ensures OwnAfter(c, before, readings[key := ticks], k)
      == OwnAfter(c, before, readings, k) + if k == key then Added(c, before, key, ticks) else 0 {
    }
    if key !in Latest(c, before) {
      assert OwnAfter(c, before, readings, key) == 0;
    }
  }

  lemma {:induction false} AllTakenKeepsPrevious(c: Config, s: State, tasks: seq<Task>)
    ensures AllTaken(c, s, tasks).previous == s.previous
  {
    if tasks != [] {
      AllTakenKeepsPrevious(c, s, tasks[..|tasks| - 1]);
    }
  }

  lemma {:induction false} ReadingsAreOfTheTasks(c: Config, tasks: seq<Task>, k: Key)
    requires k in Readings(c, tasks)
    ensures exists i :: 0 <= i < |tasks| && tasks[i].tid == k.tid
  {
    var n := |tasks| - 1;
    if !(tasks[n].Read? && tasks[n].tid == k.tid) {
      ReadingsAreOfTheTasks(c, tasks[..n], k);
      var i :| 0 <= i < |tasks[..n]| && tasks[..n][i].tid == k.tid;
      assert tasks[i].tid == k.tid;
    }
  }

  lemma {:induction false} PartsOfReadings(c: Config, tasks: seq<Task>, n: nat)
    requires n <= |tasks| && DistinctTids(tasks)
    ensures forall k :: k in Readings(c, tasks[..n]) ==>
        k in Readings(c, tasks) && Readings(c, tasks[..n])[k] == Readings(c, tasks)[k]
    decreases |tasks|
  {
    if n == |tasks| {
      assert tasks[..n] == tasks;
    } else {
      var m := |tasks| - 1;
      PartsOfReadings(c, tasks[..m], n);
      assert tasks[..m][..n] == tasks[..n];
      forall k | k in Readings(c, tasks[..m]) ensures tasks[m].tid != k.tid {
        ReadingsAreOfTheTasks(c, tasks[..m], k);
      }
    }
  }

  lemma TakenAccounts(c: Config, s: State, own: map<Key, int>, t: Task, after: map<Key, int>)
    requires t.Read? && t.tid != c.samplerTid && Accounted(s.threads, Seconds(c, own))
    requires after == AddTicks(own, KeyOf(t), DeltaTicks(c, s.previous, t))
    ensures Accounted(Taken(c, s, t).threads, Seconds(c, after))
  {
    ChargedTicksAccount(c, s.threads, own, KeyOf(t), DeltaTicks(c, s.previous, t));
  }

  lemma {:induction false} PartTakenAccounts(c: Config, before: seq<seq<Task>>, s: State, tasks: seq<Task>, n: nat)
    requires n <= |tasks| && DistinctTids(tasks) && Keeps(c, before, s.previous)
    requires GrowsFrom(Latest(c, before), Readings(c, tasks))
    requires Accounted(s.threads, Seconds(c, AllOwnAfter(c, before, map[])))
    ensures Accounted(AllTaken(c, s, tasks[..n]).threads, Seconds(c, AllOwnAfter(c, before, Readings(c, tasks[..n]))))
  {
    if n > 0 {
      var t, part := tasks[n - 1], tasks[..n - 1];
      assert tasks[..n][..n - 1] == part;
      PartTakenAccounts(c, before, s, tasks, n - 1);
      AllTakenKeepsPrevious(c, s, part);
      if t.Read? && t.tid != c.samplerTid {
        NextReading(c, tasks, n);
        ChargeForReading(c, before, s.previous, t);
        ReadingOwns(c, before, Readings(c, part), KeyOf(t), t.ticks);
        TakenAccounts(c, AllTaken(c, s, part), AllOwnAfter(c, before, Readings(c, part)), t,
                      AllOwnAfter(c, before, Readings(c, tasks[..n])));
      }
    }
  }

  lemma {:induction false} NextReading(c: Config, tasks: seq<Task>, n: nat)
    requires 0 < n <= |tasks| && DistinctTids(tasks)
    requires var t := tasks[n - 1]; t.Read? && t.tid != c.samplerTid
    ensures var t := tasks[n - 1];
            && KeyOf(t) !in Readings(c, tasks[..n - 1])
            && Readings(c, tasks[..n]) == Readings(c, tasks[..n - 1])[KeyOf(t) := t.ticks]
            && KeyOf(t) in Readings(c, tasks) && Readings(c, tasks)[KeyOf(t)] == t.ticks
  {
    var t, part := tasks[n - 1], tasks[..n - 1];
    assert tasks[..n][..n - 1] == part;
    PartsOfReadings(c, tasks, n);
    if KeyOf(t) in Readings(c, part) {
      ReadingsAreOfTheTasks(c, part, KeyOf(t));
    }
  }

  /** After any plausible samples the thread table holds, for every thread in it, exactly its growth
      and its excess, and the bucket holds the same for all other threads together. */
  lemma {:induction false} ThreadsAreAccounted(c: Config, history: seq<seq<Task>>)
    requires Plausible(c, history)
    ensures Accounted(Run(c, history).threads, Seconds(c, Own(c, history)))
  {
    if history == [] {
      assert Seconds(c, Own(c, history)) == map[];
    } else {
      var n := |history| - 1;
      var before, listed := history[..n], Capped(history[n]);
      ThreadsAreAccounted(c, before);
      OwnAtStart(c, before);
      OwnAtEnd(c, history);
      RunKeepsBaselines(c, before);
      assert listed[..|listed|] == listed;
      assert Run(c, history).threads == AllTaken(c, Run(c, before), listed).threads;
      PartTakenAccounts(c, before, Run(c, before), listed, |listed|);
    }
  }

  // ---- when a thread's entry is its growth ----

  /** No reading of the thread went wrong: whenever its baseline had been dropped, nothing was at stake. */
  predicate Clean(c: Config, history: seq<seq<Task>>, key: Key) {
    history == []
    || var before := history[..|history| - 1];
       var readings := Readings(c, Capped(history[|history| - 1]));
       && Clean(c, before, key)
       && (key in readings && key in Latest(c, before) && !Held(c, before, key)
          ==> Error(c, key, Latest(c, before)[key], readings[key]) == 0)
  }

  lemma {:induction false} LatestIsNotNegative(c: Config, history: seq<seq<Task>>, key: Key)
    requires Plausible(c, history) && key in Latest(c, history)
    ensures Latest(c, history)[key] >= 0
  {
    var n := |history| - 1;
    if key !in Readings(c, Capped(history[n])) {
      LatestIsNotNegative(c, history[..n], key);
    }
  }

  /** Errors of one thread never cancel: it is overcharged if younger than the profile, else undercharged. */
  lemma {:induction false} ExcessIsZeroIffClean(c: Config, history: seq<seq<Task>>, key: Key)
    requires Plausible(c, history)
    ensures if key.start >= c.startedTicks then Excess(c, history, key) >= 0 else Excess(c, history, key) <= 0
    ensures Excess(c, history, key) == 0 <==> Clean(c, history, key)
  {
    if history != [] {
      var before := history[..|history| - 1];
      ExcessIsZeroIffClean(c, before, key);
      if key in Latest(c, before) {
        LatestIsNotNegative(c, before, key);
      }
    }
  }

  lemma EntryOf(c: Config, h: Threads, own: map<Key, int>, key: Key)
    requires Accounted(h, Seconds(c, own)) && key in h.cpu
    ensures key in own && h.cpu[key] == Ticks(c, own[key])
  {
  }

  lemma TicksOrder(c: Config, a: int, b: int)
    requires c.tick > 0.0
    ensures Ticks(c, a) == Ticks(c, b) <==> a == b
  {
    if a < b {
      assert (b - a) as real * c.tick > 0.0;
    } else if b < a {
      assert (a - b) as real * c.tick > 0.0;
    }
  }

  /** A thread's entry is its latest ticks less its baseline exactly when its readings were clean. */
  lemma {:induction false} EntryIsGrowthIffClean(c: Config, history: seq<seq<Task>>, key: Key)
    requires c.tick > 0.0 && Plausible(c, history) && key in Run(c, history).threads.cpu
    ensures key in Latest(c, history) && key in First(c, history)
    ensures Run(c, history).threads.cpu[key] == Ticks(c, Growth(c, history, key)) <==> Clean(c, history, key)
    ensures Growth(c, history, key) ==
              if key.start >= c.startedTicks then Latest(c, history)[key]
              else Latest(c, history)[key] - First(c, history)[key]
  {
    FirstWithLatest(c, history);
    ThreadsAreAccounted(c, history);
    ExcessIsZeroIffClean(c, history, key);
    EntryIs(c, history, Run(c, history).threads, key);
  }

  lemma {:induction false} EntryIs(c: Config, history: seq<seq<Task>>, h: Threads, key: Key)
    requires c.tick > 0.0 && Accounted(h, Seconds(c, Own(c, history))) && key in h.cpu
    ensures key in Latest(c, history) && key in First(c, history)
    ensures h.cpu[key] == Ticks(c, Growth(c, history, key)) <==> Excess(c, history, key) == 0
  {
    EntryOf(c, h, Own(c, history), key);
    TicksOrder(c, Growth(c, history, key) + Excess(c, history, key), Growth(c, history, key));
  }

  /** Between two samples that read a thread, every sample lists its id. */
  ghost predicate Continuous(c: Config, history: seq<seq<Task>>) {
    forall i, j, k, key: Key ::
      0 <= i < j < k < |history| && key in Readings(c, history[i]) && key in Readings(c, history[k])
      ==> key.tid in Tids(history[j])
  }

  ghost predicate Short(history: seq<seq<Task>>) {
    forall i :: 0 <= i < |history| ==> |history[i]| <= MAX_THREADS
  }

  lemma {:induction false} LatestWasRead(c: Config, history: seq<seq<Task>>, key: Key) returns (i: nat)
    requires key in Latest(c, history)
    ensures i < |history| && key in Readings(c, Capped(history[i]))
  {
    i := |history| - 1;
    if key !in Readings(c, Capped(history[i])) {
      i := LatestWasRead(c, history[..i], key);
    }
  }

  lemma {:induction false} HeldWhileListed(c: Config, history: seq<seq<Task>>, key: Key, i: nat)
    requires i < |history| && key in Readings(c, Capped(history[i]))
    requires forall j :: i < j < |history| ==> key.tid in Tids(Capped(history[j]))
    ensures Held(c, history, key)
  {
    var n := |history| - 1;
    if i < n {
      HeldWhileListed(c, history[..n], key, i);
    }
  }

  lemma {:induction false} ShortListingsAreClean(c: Config, history: seq<seq<Task>>, key: Key)
    requires Short(history) && Continuous(c, history)
    ensures Clean(c, history, key)
  {
    if history != [] {
      var n := |history| - 1;
      var before := history[..n];
      ShortListingsAreClean(c, before, key);
      if key in Readings(c, history[n]) && key in Latest(c, before) {
        var i := LatestWasRead(c, before, key);
        HeldWhileListed(c, before, key, i);
      }
    }
  }

  ghost function Growths(c: Config, history: seq<seq<Task>>): map<Key, int> {
    map k | k in Latest(c, history) && k in First(c, history) :: Growth(c, history, k)
  }

  /** With at most 256 tasks in a listing, each thread's entry telescopes to its latest ticks less
      its baseline, and the table and its bucket together hold the growth of every thread once. */
  lemma {:induction false} ShortListingsTelescope(c: Config, history: seq<seq<Task>>)
    requires Plausible(c, history) && Short(history) && Continuous(c, history)
    ensures Accounted(Run(c, history).threads, Seconds(c, Growths(c, history)))
  {
    NoExcess(c, history);
    OwnIsGrowth(c, history);
    ThreadsAreAccounted(c, history);
  }

  lemma {:induction false} OwnIsGrowth(c: Config, history: seq<seq<Task>>)
    requires forall k: Key :: Excess(c, history, k) == 0
    ensures Own(c, history) == Growths(c, history)
  {
    forall k | k in Own(c, history) ensures Own(c, history)[k] == Growths(c, history)[k] {
      assert Excess(c, history, k) == 0;
    }
  }

  lemma {:induction false} NoExcess(c: Config, history: seq<seq<Task>>)
    requires Plausible(c, history) && Short(history) && Continuous(c, history)
    ensures forall k: Key :: Excess(c, history, k) == 0
  {
    forall k: Key ensures Excess(c, history, k) == 0 {
      ShortListingsAreClean(c, history, k);
      ExcessIsZeroIffClean(c, history, k);
    }
  }

  // ---- a listing of more than 256 tasks ----

  lemma {:induction false} UnreadTasksReadNothing(c: Config, tasks: seq<Task>)
    requires forall i :: 0 <= i < |tasks| ==> tasks[i].Unread?
    ensures Readings(c, tasks) == map[]
  {
    if tasks != [] {
      UnreadTasksReadNothing(c, tasks[..|tasks| - 1]);
    }
  }

  lemma {:induction false} ReadingOfOne(c: Config, t: Task)
    requires t.Read? && t.tid != c.samplerTid
    ensures Readings(c, Capped([t])) == map[KeyOf(t) := t.ticks]
  {
    assert [t][..0] == [];
  }

  ghost predicate CrowdsOut(c: Config, t: Task, crowd: seq<Task>) {
    && t.Read? && t.tid != c.samplerTid && t.start >= c.startedTicks && t.ticks > 0
    && |crowd| == MAX_THREADS && DistinctTids(crowd + [t])
    && forall i :: 0 <= i < |crowd| ==> crowd[i].Unread?
  }

  lemma {:induction false} AfterFirstSample(c: Config, t: Task, crowd: seq<Task>)
    requires CrowdsOut(c, t, crowd)
    ensures var one, key := [[t]], KeyOf(t);
            && Latest(c, one) == First(c, one) == map[key := t.ticks]
            && Plausible(c, one) && Excess(c, one, key) == 0
  {
    ReadingOfOne(c, t);
    assert [[t]][..0] == [];
  }

  lemma {:induction false} AfterCrowdedSample(c: Config, t: Task, crowd: seq<Task>)
    requires CrowdsOut(c, t, crowd)
    ensures var two, key := [[t], crowd + [t]], KeyOf(t);
            && Latest(c, two) == First(c, two) == map[key := t.ticks]
            && Plausible(c, two) && Excess(c, two, key) == 0 && !Held(c, two, key)
  {
    AfterFirstSample(c, t, crowd);
    UnreadTasksReadNothing(c, crowd);
    assert Capped(crowd + [t]) == crowd;
    assert [[t], crowd + [t]][..1] == [[t]];
    assert (crowd + [t])[|crowd|] == t;
    forall i | 0 <= i < |crowd| ensures crowd[i].tid != t.tid {
      assert (crowd + [t])[i] == crowd[i];
    }
  }

  /** When one listing of more than 256 tasks misses a thread that was read before it and is read
      after it, a thread born during the profile is charged for all its ticks twice. */
  lemma {:induction false} LongListingChargesTwice(c: Config, t: Task, crowd: seq<Task>)
    requires CrowdsOut(c, t, crowd)
    ensures var history := [[t], crowd + [t], [t]];
            && Plausible(c, history) && Continuous(c, history)
            && Latest(c, history) == First(c, history) == map[KeyOf(t) := t.ticks]
            && Excess(c, history, KeyOf(t)) == t.ticks
            && Run(c, history).threads.cpu == map[KeyOf(t) := Ticks(c, 2 * t.ticks)]
  {
    var history, key := [[t], crowd + [t], [t]], KeyOf(t);
    AfterCrowdedSample(c, t, crowd);
    ReadingOfOne(c, t);
    assert history[..2] == [[t], crowd + [t]];
    assert Own(c, history) == map[key := 2 * t.ticks];
    ThreadsAreAccounted(c, history);
    OnlyEntry(c, Run(c, history).threads, key, 2 * t.ticks);
    CrowdIsContinuous(c, t, crowd);
  }

  lemma OnlyEntry(c: Config, h: Threads, key: Key, ticks: int)
    requires Accounted(h, Seconds(c, map[key := ticks]))
    ensures h.cpu == map[key := Ticks(c, ticks)]
  {
    assert h.cpu.Keys <= {key};
    assert |h.cpu| == |h.cpu.Keys| <= 1 by {
      FewKeys(h.cpu.Keys, key);
    }
  }

  lemma FewKeys(keys: set<Key>, key: Key)
    requires keys <= {key}
    ensures |keys| <= 1
  {
    assert keys == {} || keys == {key};
  }

  lemma CrowdIsContinuous(c: Config, t: Task, crowd: seq<Task>)
    requires CrowdsOut(c, t, crowd)
    ensures Continuous(c, [[t], crowd + [t], [t]])
  {
    var history := [[t], crowd + [t], [t]];
    ReadingOfOne(c, t);
    forall i, j, k, key: Key |
      0 <= i < j < k < |history| && key in Readings(c, history[i]) && key in Readings(c, history[k])
      ensures key.tid in Tids(history[j])
    {
      assert i == 0 && j == 1 && Readings(c, history[0]) == map[KeyOf(t) := t.ticks];
      assert t in history[1];
    }
  }

  // ---- the sampler itself ----

  class Sampler {
    const c: Config
    var histogram: map<Place, Row>
    var overflow: Row
    var previous: map<Key, int>
    var threadCpu: map<Key, real>
    var otherThreadCpu: real
    var unattributed: real
    var samples: nat
    var missing: nat
    var capReached: bool

    ghost function Model(): State
      reads this
    {
      State(Stacks(histogram, overflow), Threads(threadCpu, otherThreadCpu), unattributed, previous, samples, missing,
            capReached)
    }

    constructor (c: Config)
      ensures this.c == c && Model() == Initial()
    {
      this.c := c;
      histogram, overflow, previous, threadCpu := map[], Row(0.0, 0.0), map[], map[];
      otherThreadCpu, unattributed, samples, missing, capReached := 0.0, 0.0, 0, 0, false;
    }

    method Record(place: Place, cpu: real)
      modifies this`histogram, this`overflow
      ensures Stacks(histogram, overflow) == Recorded(c, old(Stacks(histogram, overflow)), place, cpu)
    {
      if place in histogram {
        histogram := histogram[place := Row(histogram[place].wall + 1.0, histogram[place].cpu + cpu)];
      } else if |histogram| >= c.maxStacks {
        overflow := Row(overflow.wall + 1.0, overflow.cpu + cpu);
      } else {
        histogram := histogram[place := Row(1.0, cpu)];
      }
    }

    method TakeReading(t: Task)
      requires t.Read? && t.tid != c.samplerTid
      modifies this`histogram, this`overflow, this`threadCpu, this`otherThreadCpu, this`unattributed
      ensures Model() == Taken(c, old(Model()), t)
    {
      var key := Key(t.tid, t.start);
      var baseline := if key.start >= c.startedTicks then 0 else t.ticks;
      var growth := t.ticks - if key in previous then previous[key] else baseline;
      var delta := (if growth > 0 then growth else 0) as real * c.tick;
      assert delta == Ticks(c, DeltaTicks(c, previous, t));
      if key in threadCpu || |threadCpu| < MAX_THREADS {
        threadCpu := threadCpu[key := (if key in threadCpu then threadCpu[key] else 0.0) + delta];
      } else {
        otherThreadCpu := otherThreadCpu + delta;
      }
      assert Threads(threadCpu, otherThreadCpu) == Charged(old(Threads(threadCpu, otherThreadCpu)), key, delta);
      var attributed := if t.running && t.frames.Some? then delta else 0.0;
      unattributed := unattributed + (delta - attributed);
      Record(Place(t.tid, t.frames), attributed);
    }

    method TakeTask(t: Task)
      modifies this`histogram, this`overflow, this`threadCpu, this`otherThreadCpu, this`unattributed, this`missing
      ensures Model() == Taken(c, old(Model()), t)
    {
      if t.tid != c.samplerTid {
        if t.Unread? {
          missing := missing + 1;
        } else {
          TakeReading(t);
        }
      }
    }

    /** The tasks of one listing, until the cap: the tables are updated task by task. */
    method TakeListed(tasks: seq<Task>) returns (read: map<Key, int>, seenTids: set<int>)
      modifies this
      ensures Model() == AllTaken(c, old(Model()), Capped(tasks)).(
                           capReached := old(capReached) || |tasks| > MAX_THREADS)
      ensures read == Readings(c, Capped(tasks)) && seenTids == Tids(Capped(tasks))
    {
      read, seenTids := map[], {};
      ghost var listed := Capped(tasks);
      ghost var start := Model();
      var index := 0;
      while index < |tasks|
        invariant 0 <= index <= |listed|
        invariant Model() == AllTaken(c, start, listed[..index])
        invariant read == Readings(c, listed[..index])
        invariant seenTids == Tids(listed[..index])
      {
        if index >= MAX_THREADS {
          break;
        }
        var t := tasks[index];
        TakeNext(c, start, listed, index);
        seenTids := seenTids + {t.tid};
        if t.Read? && t.tid != c.samplerTid {
          read := read[Key(t.tid, t.start) := t.ticks];
        }
        TakeTask(t);
        index := index + 1;
      }
      assert listed[..|listed|] == listed;
      AllTakenKeepsRest(c, start, listed);
      if |tasks| > MAX_THREADS {
        capReached := true;
      }
    }

    /** One sample: the baselines are replaced only at the end. */
    method Sample(tasks: seq<Task>)
      modifies this
      ensures Model() == Sampled(c, old(Model()), tasks)
    {
      AllTakenKeepsRest(c, Model(), Capped(tasks));
      var read, seenTids := TakeListed(tasks);
      previous := Kept(previous, seenTids) + read;
      samples := samples + 1;
    }
  }

  lemma {:induction false} TakeNext(c: Config, s: State, tasks: seq<Task>, n: nat)
    requires n < |tasks|
    ensures AllTaken(c, s, tasks[..n + 1]) == Taken(c, AllTaken(c, s, tasks[..n]), tasks[n])
    ensures Tids(tasks[..n + 1]) == Tids(tasks[..n]) + {tasks[n].tid}
    ensures Readings(c, tasks[..n + 1]) == if tasks[n].Read? && tasks[n].tid != c.samplerTid
                                           then Readings(c, tasks[..n])[KeyOf(tasks[n]) := tasks[n].ticks]
                                           else Readings(c, tasks[..n])
  {
    assert tasks[..n + 1][..n] == tasks[..n];
    assert tasks[..n + 1] == tasks[..n] + [tasks[n]];
    assert forall t :: t in tasks[..n + 1] <==> t in tasks[..n] || t == tasks[n];
  }

  lemma {:induction false} AllTakenKeepsRest(c: Config, s: State, tasks: seq<Task>)
    ensures var t := AllTaken(c, s, tasks);
            t.previous == s.previous && t.samples == s.samples && t.capReached == s.capReached
  {
    if tasks != [] {
      AllTakenKeepsRest(c, s, tasks[..|tasks| - 1]);
    }
  }
}
