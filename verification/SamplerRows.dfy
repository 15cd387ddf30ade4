/** What the rows of the profiler's histogram hold: for every thread and stack the readings taken there,
    and of their CPU only what was spent running. */
module SamplerRows {
  import opened Basics
  import opened Sampler

  function Plus(a: Row, b: Row): Row {
    Row(a.wall + b.wall, a.cpu + b.cpu)
  }

  predicate At(c: Config, t: Task, place: Place) {
    t.Read? && t.tid != c.samplerTid && t.tid == place.tid && t.frames == place.frames
  }

  /** A reading at a place: it counts once, and its growth only for a running thread with a Python stack. */
  function Share(c: Config, previous: map<Key, int>, t: Task, place: Place): Row {
    if !At(c, t, place) then Row(0.0, 0.0)
    else Row(1.0, if t.running && t.frames.Some? then Ticks(c, DeltaTicks(c, previous, t)) else 0.0)
  }

  /** The readings of one listing at a place. */
  function Here(c: Config, previous: map<Key, int>, tasks: seq<Task>, place: Place): Row {
    if tasks == [] then Row(0.0, 0.0)
    else
      var n := |tasks| - 1;
      Plus(Here(c, previous, tasks[..n], place), Share(c, previous, tasks[n], place))
  }

  /** All readings at a place. */
  function Ever(c: Config, history: seq<seq<Task>>, place: Place): Row {
    if history == [] then Row(0.0, 0.0)
    else
      var n := |history| - 1;
      Plus(Ever(c, history[..n], place), Here(c, Run(c, history[..n]).previous, Capped(history[n]), place))
  }

  /** A row holds its total; a place without a row has no readings, unless the table is full; and the
      overflow row is used only then. */
  ghost predicate Holds(c: Config, h: Stacks, place: Place, total: Row) {
    && (place in h.rows ==> h.rows[place] == total)
    && (place !in h.rows && |h.rows| < c.maxStacks ==> total == Row(0.0, 0.0))
    && (|h.rows| < c.maxStacks ==> h.overflow == Row(0.0, 0.0))
    && |h.rows| <= c.maxStacks
  }

  lemma RecordedHolds(c: Config, h: Stacks, at: Place, cpu: real, place: Place, total: Row)
    requires Holds(c, h, place, total)
    ensures Holds(c, Recorded(c, h, at, cpu), place, if place == at then Plus(total, Row(1.0, cpu)) else total)
  {
  }

  lemma RecordedShare(c: Config, s: State, t: Task)
    requires t.Read? && t.tid != c.samplerTid
    ensures var place := Place(t.tid, t.frames);
            Taken(c, s, t).stacks == Recorded(c, s.stacks, place, Share(c, s.previous, t, place).cpu)
  {
  }

  lemma TakenElsewhere(c: Config, s: State, t: Task, place: Place, total: Row)
    requires Holds(c, s.stacks, place, total) && !At(c, t, place)
    ensures Holds(c, Taken(c, s, t).stacks, place, total)
  {
    if t.Read? && t.tid != c.samplerTid {
      var at := Place(t.tid, t.frames);
      RecordedShare(c, s, t);
      RecordedHolds(c, s.stacks, at, Share(c, s.previous, t, at).cpu, place, total);
    }
  }

  lemma TakenHere(c: Config, s: State, t: Task, place: Place, total: Row, share: Row)
    requires Holds(c, s.stacks, place, total) && At(c, t, place) && share == Share(c, s.previous, t, place)
    ensures Holds(c, Taken(c, s, t).stacks, place, Plus(total, share))
  {
    assert place == Place(t.tid, t.frames);
    RecordedShare(c, s, t);
    RecordedHolds(c, s.stacks, place, share.cpu, place, total);
  }

  lemma TakenHolds(c: Config, s: State, t: Task, place: Place, total: Row, share: Row)
    requires Holds(c, s.stacks, place, total) && share == Share(c, s.previous, t, place)
    ensures Holds(c, Taken(c, s, t).stacks, place, Plus(total, share))
  {
    if At(c, t, place) {
      TakenHere(c, s, t, place, total, share);
    } else {
      TakenElsewhere(c, s, t, place, total);
      assert share == Row(0.0, 0.0);
      assert Plus(total, share) == total;
    }
  }

  lemma {:induction false} AllTakenHolds(c: Config, s: State, tasks: seq<Task>, place: Place, total: Row)
    requires Holds(c, s.stacks, place, total)
    ensures Holds(c, AllTaken(c, s, tasks).stacks, place, Plus(total, Here(c, s.previous, tasks, place)))
  {
    if tasks != [] {
      var n := |tasks| - 1;
      var before, here := AllTaken(c, s, tasks[..n]), Here(c, s.previous, tasks[..n], place);
      AllTakenHolds(c, s, tasks[..n], place, total);
      AllTakenKeepsRest(c, s, tasks[..n]);
      TakenHolds(c, before, tasks[n], place, Plus(total, here), Share(c, s.previous, tasks[n], place));
      PlusInAnyOrder(total, here, Share(c, s.previous, tasks[n], place));
    }
  }

  lemma PlusInAnyOrder(x: Row, y: Row, z: Row)
    ensures Plus(Plus(x, y), z) == Plus(x, Plus(y, z))
  {
  }

  /** After any samples every row holds exactly the readings at its place, with the growth of those that
      were running; only a full table leaves readings to the overflow row. */
  lemma {:induction false} RowsAreReadings(c: Config, history: seq<seq<Task>>, place: Place)
    ensures Holds(c, Run(c, history).stacks, place, Ever(c, history, place))
  {
    if history != [] {
      var n := |history| - 1;
      RowsAreReadings(c, history[..n], place);
      AllTakenHolds(c, Run(c, history[..n]), Capped(history[n]), place, Ever(c, history[..n], place));
    }
  }
}
