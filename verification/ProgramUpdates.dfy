/** The update controller `_ProgramUpdates`: who holds the reservation that keeps an update and the
    removal of the program apart, over every order of requests, callbacks and close. */
module ProgramUpdates {
  import opened Basics

  /** A prepared restart, told apart by a number. */
  type Restart = nat

  /** Who holds the runtime's removal reservation. */
  datatype Holder = Free | Controller | Other

  datatype Move = Reserve | Release

  datatype State = State(
    closed: bool,
    attempt: nat,
    reserved: bool,
    pending: Option<Restart>,
    // the runtime, and what an observer saw
    holder: Holder,
    moves: seq<Move>,
    started: set<nat>,      // attempts whose preparation began, so that callbacks may come
    effective: seq<nat>)    // attempts whose callback took effect

  const INITIAL := State(false, 0, false, None, Free, [], {}, [])

  datatype Event =
    | Request(refused: bool, granted: bool, starts: bool)
    | Prepared(attempt: nat, offered: Option<Restart>, error: bool, quits: bool)
    | Close
    | OtherTakes
    | OtherGives

  function Released(s: State): State {
    if s.reserved then s.(reserved := false, holder := Free, moves := s.moves + [Release]) else s
  }

  /** `refused` stands for policy, runtime and model work; `granted` for what the runtime answers. */
  function RequestNext(s: State, refused: bool, granted: bool, starts: bool): State {
    if s.closed || s.reserved || refused || !granted then s
    else
      var s' := s.(reserved := true, holder := Controller, moves := s.moves + [Reserve], attempt := s.attempt + 1);
      if starts then s'.(started := s.started + {s'.attempt}) else Released(s')
  }

  /** `error` covers the reported error, a refusal by policy and running model work. */
  function PreparedNext(s: State, attempt: nat, offered: Option<Restart>, error: bool, quits: bool): State {
    if s.closed || attempt != s.attempt then s
    else
      var s' := s.(attempt := s.attempt + 1, effective := s.effective + [attempt]);
      if offered.None? || error then Released(s')
      else if quits then s'.(pending := offered)
      else Released(s'.(pending := None))
  }

  function CloseNext(s: State): State {
    var s' := s.(closed := true, attempt := s.attempt + 1);
    if s'.pending.None? then Released(s') else s'
  }

  /** Callbacks come only for preparations that began, but then at any time and any number of
      times; a free reservation is granted to whoever asks, a held one is not. */
  predicate Possible(s: State, e: Event) {
    match e
    case Request(_, granted, _) => granted ==> s.holder == Free
    case Prepared(attempt, _, _, _) => attempt in s.started
    case Close => true
    case OtherTakes => s.holder == Free
    case OtherGives => s.holder == Other
  }

  function Next(s: State, e: Event): State {
    match e
    case Request(refused, granted, starts) => RequestNext(s, refused, granted, starts)
    case Prepared(attempt, offered, error, quits) => PreparedNext(s, attempt, offered, error, quits)
    case Close => CloseNext(s)
    case OtherTakes => s.(holder := Other)
    case OtherGives => s.(holder := Free)
  }

  // ---- the invariant ----

  ghost predicate Alternate(moves: seq<Move>) {
    forall i :: 0 <= i < |moves| ==> moves[i] == if i % 2 == 0 then Reserve else Release
  }

  ghost predicate StrictlyIncreasing(q: seq<nat>) {
    forall i, j :: 0 <= i < j < |q| ==> q[i] < q[j]
  }

  ghost predicate Inv(s: State) {
    && (s.holder == Controller <==> s.reserved)
    && Alternate(s.moves) && (s.reserved <==> |s.moves| % 2 == 1)
    && (s.pending.Some? ==> s.reserved && s.attempt !in s.started)
    && (s.attempt in s.started ==> s.reserved && !s.closed)
    && (forall n :: n in s.started ==> n <= s.attempt)
    && StrictlyIncreasing(s.effective) && (forall i :: 0 <= i < |s.effective| ==> s.effective[i] < s.attempt)
    && (s.closed && s.pending.None? ==> !s.reserved)
  }

  lemma StepKeeps(s: State, e: Event)
    requires Inv(s) && Possible(s, e)
    ensures Inv(Next(s, e))
    ensures s.pending.Some? ==> Next(s, e).pending == s.pending
    ensures s.closed ==> Next(s, e).closed && Next(s, e).pending == s.pending
  {
  }

  ghost predicate IsRun(states: seq<State>, events: seq<Event>) {
    && |states| == |events| + 1 && states[0] == INITIAL
    && forall i :: 0 <= i < |events| ==> Possible(states[i], events[i]) && states[i + 1] == Next(states[i], events[i])
  }

  lemma {:induction false} RunKeeps(states: seq<State>, events: seq<Event>, n: nat)
    requires IsRun(states, events) && n <= |events|
    ensures Inv(states[n])
  {
    if n > 0 {
      RunKeeps(states, events, n - 1);
      StepKeeps(states[n - 1], events[n - 1]);
    }
  }

  lemma {:induction false} PendingStays(states: seq<State>, events: seq<Event>, i: nat, j: nat)
    requires IsRun(states, events) && i <= j <= |events|
    ensures states[i].pending.Some? ==> states[j].pending == states[i].pending
    ensures states[i].closed ==> states[j].closed && states[j].pending == states[i].pending
    decreases j - i
  {
    if i < j {
      PendingStays(states, events, i, j - 1);
      RunKeeps(states, events, j - 1);
      StepKeeps(states[j - 1], events[j - 1]);
    }
  }

  /** In every run the controller holds the reservation exactly while it says so, and reserving and
      releasing strictly alternate. */
  lemma ReservationIsExact(states: seq<State>, events: seq<Event>, n: nat)
    requires IsRun(states, events) && n <= |events|
    ensures states[n].holder == Controller <==> states[n].reserved
    ensures Alternate(states[n].moves) && (states[n].reserved <==> |states[n].moves| % 2 == 1)
  {
    RunKeeps(states, events, n);
  }

  /** In every run a pending restart holds the reservation, is never overwritten, and each attempt
      number takes effect at most once. */
  lemma PendingRestartIsSafe(states: seq<State>, events: seq<Event>, i: nat, j: nat)
    requires IsRun(states, events) && i <= j <= |events|
    ensures states[i].pending.Some? ==> states[j].pending == states[i].pending && states[j].holder == Controller
    ensures StrictlyIncreasing(states[j].effective)
  {
    PendingStays(states, events, i, j);
    RunKeeps(states, events, j);
  }

  /** From close on, without a pending restart the controller holds nothing. */
  lemma ClosedWithoutRestartIsFree(states: seq<State>, events: seq<Event>, i: nat, j: nat)
    requires IsRun(states, events) && i <= j <= |events|
    requires states[i].closed && states[i].pending.None?
    ensures states[j].holder != Controller && !states[j].reserved
  {
    PendingStays(states, events, i, j);
    RunKeeps(states, events, j);
  }

  // ---- what the events decide ----

  ghost predicate ClosedBefore(events: seq<Event>, n: nat)
    requires n <= |events|
  {
    exists i :: 0 <= i < n && events[i].Close?
  }

  ghost predicate CalledBackBefore(events: seq<Event>, n: nat, attempt: nat)
    requires n <= |events|
  {
    exists i :: 0 <= i < n && events[i].Prepared? && events[i].attempt == attempt
  }

  /** A preparation that began is the current one, or was called back, or close came. */
  ghost predicate Settled(states: seq<State>, events: seq<Event>, n: nat)
    requires n < |states| && n <= |events|
  {
    && (states[n].closed <==> ClosedBefore(events, n))
    && (forall a :: a in states[n].started && !states[n].closed ==>
          (a != states[n].attempt <==> CalledBackBefore(events, n, a)))
    && (states[n].reserved && states[n].pending.None? ==> states[n].attempt in states[n].started)
  }

  lemma BeforeNext(events: seq<Event>, n: nat)
    requires n < |events|
    ensures ClosedBefore(events, n + 1) <==> ClosedBefore(events, n) || events[n].Close?
    ensures forall a :: CalledBackBefore(events, n + 1, a) <==>
                          CalledBackBefore(events, n, a) || (events[n].Prepared? && events[n].attempt == a)
  {
    forall a | CalledBackBefore(events, n, a) ensures CalledBackBefore(events, n + 1, a) {
      var i :| 0 <= i < n && events[i].Prepared? && events[i].attempt == a;
      assert 0 <= i < n + 1 && events[i].attempt == a;
    }
    forall a | CalledBackBefore(events, n + 1, a)
      ensures CalledBackBefore(events, n, a) || (events[n].Prepared? && events[n].attempt == a)
    {
      var i :| 0 <= i < n + 1 && events[i].Prepared? && events[i].attempt == a;
      assert i < n ==> CalledBackBefore(events, n, a);
    }
  }

  lemma {:induction false} RunSettles(states: seq<State>, events: seq<Event>, n: nat)
    requires IsRun(states, events) && n <= |events|
    ensures Settled(states, events, n)
  {
    if n > 0 {
      RunSettles(states, events, n - 1);
      RunKeeps(states, events, n - 1);
      NoCallbackBeforeStart(states, events, n - 1);
      BeforeNext(events, n - 1);
      assert Possible(states[n - 1], events[n - 1]) && states[n] == Next(states[n - 1], events[n - 1]);
    }
  }

  lemma {:induction false} NoCallbackBeforeStart(states: seq<State>, events: seq<Event>, n: nat)
    requires IsRun(states, events) && n <= |events|
    ensures forall a :: CalledBackBefore(events, n, a) ==> a in states[n].started
  {
    if n > 0 {
      NoCallbackBeforeStart(states, events, n - 1);
      BeforeNext(events, n - 1);
      assert Possible(states[n - 1], events[n - 1]) && states[n] == Next(states[n - 1], events[n - 1]);
    }
  }

  ghost predicate Frees(s: State, t: State) {
    t.pending.None? && t.holder == Free && !t.reserved && t.moves == s.moves + [Release]
  }

  /** In every run the first callback of a preparation, unless close came, decides: the restart offered
      becomes pending if nothing is wrong and the program quits, and otherwise nothing is pending and
      the reservation is free. Every other callback changes nothing. */
  lemma FirstCallbackDecides(states: seq<State>, events: seq<Event>, n: nat, a: nat, offered: Option<Restart>,
                             error: bool, quits: bool)
    requires IsRun(states, events) && n < |events| && events[n] == Prepared(a, offered, error, quits)
    ensures var s, t := states[n], states[n + 1];
            if ClosedBefore(events, n) || CalledBackBefore(events, n, a) then t == s
            else if offered.Some? && !error && quits then
              t.pending == offered && t.holder == Controller && t.moves == s.moves
            else Frees(s, t)
  {
    RunSettles(states, events, n);
    RunKeeps(states, events, n);
    assert Possible(states[n], events[n]) && states[n + 1] == Next(states[n], events[n]);
  }

  /** In every run a restart becomes pending only so. */
  lemma PendingOnlyByCallback(states: seq<State>, events: seq<Event>, n: nat, r: Restart)
    requires IsRun(states, events) && n < |events|
    requires states[n].pending != Some(r) && states[n + 1].pending == Some(r)
    ensures events[n].Prepared? && events[n].offered == Some(r) && !events[n].error && events[n].quits
    ensures !ClosedBefore(events, n) && !CalledBackBefore(events, n, events[n].attempt)
  {
    assert Possible(states[n], events[n]) && states[n + 1] == Next(states[n], events[n]);
    RunSettles(states, events, n);
    RunKeeps(states, events, n);
  }

  /** In every run a request gets the reservation exactly if close has not come, nothing refuses it and
      the runtime grants it; it keeps it exactly if the preparation starts. */
  lemma RequestReservesIff(states: seq<State>, events: seq<Event>, n: nat, refused: bool, granted: bool, starts: bool)
    requires IsRun(states, events) && n < |events| && events[n] == Request(refused, granted, starts)
    ensures var s, t := states[n], states[n + 1];
            if ClosedBefore(events, n) || refused || !granted then t == s
            else if starts then t.holder == Controller && t.reserved && t.moves == s.moves + [Reserve]
            else t.holder == Free && !t.reserved && t.moves == s.moves + [Reserve, Release]
  {
    RunSettles(states, events, n);
    RunKeeps(states, events, n);
    assert Possible(states[n], events[n]) && states[n + 1] == Next(states[n], events[n]);
    assert states[n].moves + [Reserve] + [Release] == states[n].moves + [Reserve, Release];
  }

  /** All this rests on a failed start posting no callback: if one came, a restart would be pending
      without the reservation. */
  lemma CallbackAfterFailedStart(restart: Restart)
    ensures var failed := RequestNext(INITIAL, false, true, false);
            && !failed.reserved && failed.attempt !in failed.started
            && var after := PreparedNext(failed, failed.attempt, Some(restart), false, true);
               after.pending == Some(restart) && after.holder != Controller
  {
  }

  // ---- the controller ----

  /** The runtime's side of the reservation. */
  class Runtime {
    var holder: Holder
    ghost var moves: seq<Move>

    constructor ()
      ensures holder == Free && moves == []
    {
      holder, moves := Free, [];
    }

    method ReserveRemoval() returns (granted: bool)
      modifies this
      ensures granted <==> old(holder) == Free
      ensures if granted then holder == Controller && moves == old(moves) + [Reserve]
              else holder == old(holder) && moves == old(moves)
    {
      granted := holder == Free;
      if granted {
        holder, moves := Controller, moves + [Reserve];
      }
    }

    method ReleaseRemoval()
      modifies this
      ensures holder == Free && moves == old(moves) + [Release]
    {
      holder, moves := Free, moves + [Release];
    }
  }

  class UpdateController {
    const runtime: Runtime
    var closed: bool
    var attempt: nat
    var reserved: bool
    var pending: Option<Restart>
    ghost var started: set<nat>
    ghost var effective: seq<nat>

    ghost function Model(): State
      reads this, runtime
    {
      State(closed, attempt, reserved, pending, runtime.holder, runtime.moves, started, effective)
    }

    constructor (runtime: Runtime)
      requires runtime.holder == Free && runtime.moves == []
      ensures this.runtime == runtime && Model() == INITIAL
    {
      this.runtime := runtime;
      closed, attempt, reserved, pending, started, effective := false, 0, false, None, {}, [];
    }

    method DropReservation()
      modifies this`reserved, runtime
      ensures Model() == Released(old(Model()))
    {
      if reserved {
        reserved := false;
        runtime.ReleaseRemoval();
      }
    }

    method RequestInstall(refused: bool, starts: bool) returns (ok: bool)
      modifies this, runtime
      ensures var granted := old(runtime.holder) == Free;
              && Model() == RequestNext(old(Model()), refused, granted, starts)
              && (ok <==> !old(closed) && !old(reserved) && !refused && granted && starts)
    {
      if closed || reserved || refused {
        return false;
      }
      var granted := runtime.ReserveRemoval();
      if !granted {
        return false;
      }
      reserved := true;
      attempt := attempt + 1;
      if starts {
        started := started + {attempt};
        return true;
      }
      DropReservation();
      ok := false;
    }

    method OnPrepared(number: nat, offered: Option<Restart>, error: bool, quits: bool)
      modifies this, runtime
      ensures Model() == PreparedNext(old(Model()), number, offered, error, quits)
      ensures old(closed) || number != old(attempt) ==> Model() == old(Model())
      ensures !old(closed) && number == old(attempt) && old(pending).None? ==>
                if offered.Some? && !error && quits then pending == offered && reserved == old(reserved)
                else pending.None? && !reserved && (old(reserved) ==> runtime.holder == Free)
    {
      if closed || number != attempt {
        return;
      }
      attempt := attempt + 1;
      effective := effective + [number];
      if offered.None? || error {
        DropReservation();
        return;
      }
      pending := offered;
      if !quits {
        pending := None;
        DropReservation();
      }
    }

    method CloseDown()
      modifies this, runtime
      ensures Model() == CloseNext(old(Model()))
    {
      closed := true;
      attempt := attempt + 1;
      if pending.None? {
        DropReservation();
      }
    }
  }
}
