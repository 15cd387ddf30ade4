/** Process groups under PID reuse: `ProcessOwner` may signal a group number long after it was
    registered, and must hit only the session it started. */
module ProcessOwner {
  import opened Basics

  type Pid = nat
  /** A session as it really is: the process that began it, told apart from later ones with the
      same number by the leader's start time. */
  datatype Session = Session(leader: Pid, birth: nat)
  datatype Process = Process(birth: nat, group: Pid, session: Session)
  /** What `/proc/<pid>/stat` shows: group, session number, start time. */
  datatype Identity = Identity(group: Pid, session: Pid, birth: nat)

  /** Unreaped processes, and every (pid, start time) that ever was. */
  datatype World = World(live: map<Pid, Process>, born: set<(Pid, nat)>)

  function IdentityOf(p: Process): Identity {
    Identity(p.group, p.session.leader, p.birth)
  }

  // ---- what the kernel does ----

  datatype Happening =
    | Fork(parent: Pid, child: Pid, at: nat)
    | Setsid(pid: Pid)
    | Setpgid(pid: Pid, group: Pid)
    | Exit(pid: Pid)

  /** The kernel's rules: a number is not handed out while a process, group or session still bears
      it, start times do not repeat for a number, a leader keeps its session, and a group never
      spans two sessions. */
  ghost predicate Allowed(w: World, h: Happening) {
    match h
    case Fork(parent, child, at) =>
      && parent in w.live && child !in w.live && (child, at) !in w.born
      && forall q :: q in w.live ==> w.live[q].group != child && w.live[q].session.leader != child
    case Setsid(pid) =>
      pid in w.live && w.live[pid].session.leader != pid && forall q :: q in w.live ==> w.live[q].group != pid
    case Setpgid(pid, group) =>
      && pid in w.live && w.live[pid].session.leader != pid
      && (group == pid || exists q :: q in w.live && w.live[q].group == group)
      && forall q :: q in w.live && w.live[q].group == group ==> w.live[q].session == w.live[pid].session
    case Exit(pid) => pid in w.live
  }

  ghost function After(w: World, h: Happening): World
    requires Allowed(w, h)
  {
    match h
    case Fork(parent, child, at) =>
      World(w.live[child := w.live[parent].(birth := at)], w.born + {(child, at)})
    case Setsid(pid) =>
      var p := w.live[pid];
      w.(live := w.live[pid := p.(group := pid, session := Session(pid, p.birth))])
    case Setpgid(pid, group) => w.(live := w.live[pid := w.live[pid].(group := group)])
    case Exit(pid) => w.(live := w.live - {pid})
  }

  /** A session number names one session at a time, and a group lies in one session. */
  ghost predicate Sane(w: World) {
    && (forall p :: p in w.live ==> (p, w.live[p].birth) in w.born)
    && (forall p, q :: p in w.live && q in w.live && w.live[q].session.leader == p ==>
          w.live[q].session == Session(p, w.live[p].birth))
    && (forall p, q :: p in w.live && q in w.live && w.live[p].session.leader == w.live[q].session.leader ==>
          w.live[p].session == w.live[q].session)
    && (forall p, q :: p in w.live && q in w.live && w.live[p].group == w.live[q].group ==>
          w.live[p].session == w.live[q].session)
  }

  lemma KernelStaysSane(w: World, h: Happening)
    requires Sane(w) && Allowed(w, h)
    ensures Sane(After(w, h))
  {
  }

  // ---- the owner ----

  /** Members of one group, by pid. */
  type Members = map<Pid, Identity>

  /** What `_owned_group` collects from `/proc`: group and session both bear the number. */
  function MembersOf(w: World, group: Pid): Members {
    map p | p in w.live && w.live[p].group == group && w.live[p].session.leader == group :: IdentityOf(w.live[p])
  }

  function Recorded(identities: map<Pid, Members>, group: Pid): Members {
    if group in identities then identities[group] else map[]
  }

  /** At least one member was seen before with the same start time. */
  predicate Recognised(previous: Members, members: Members) {
    exists p | p in members.Keys :: p in previous && previous[p] == members[p]
  }

  datatype Finding = NoMembers | Owned | Unconfirmed

  function Find(identities: map<Pid, Members>, w: World, group: Pid): Finding {
    var members := MembersOf(w, group);
    if members == map[] then NoMembers
    else if Recognised(Recorded(identities, group), members) then Owned
    else Unconfirmed
  }

  /** A recognised group is remembered with the members it has now. */
  function Observe(identities: map<Pid, Members>, w: World, group: Pid): map<Pid, Members> {
    if Find(identities, w, group) == Owned then identities[group := MembersOf(w, group)] else identities
  }

  // ---- runs of world and owner ----

  /** `sessions` says which session each registered number stood for; `signalled` pairs, for every
      signal received, the session that was meant with the session that was hit. */
  datatype State = State(world: World, identities: map<Pid, Members>, sessions: map<Pid, Session>,
                         signalled: seq<(Session, Session)>)

  datatype Event =
    | Kernel(h: Happening)
    | Register(pid: Pid, session: Session)
    | Signal(pid: Pid, order: seq<Pid>)   // check and killpg as one step; `order` lists the recipients
    | Forget(pid: Pid)

  /** A started process leads a new session until it is reaped. */
  ghost predicate Possible(s: State, e: Event) {
    match e
    case Kernel(h) => Allowed(s.world, h)
    case Register(pid, session) =>
      && session.leader == pid
      && (pid in s.world.live ==> s.world.live[pid].session == session && s.world.live[pid].group == pid)
    case Signal(pid, order) =>
      && pid in s.sessions
      && forall p :: p in order <==> p in s.world.live && s.world.live[p].group == pid
    case Forget(pid) => true
  }

  ghost function Receivers(w: World, meant: Session, order: seq<Pid>): seq<(Session, Session)>
    requires forall p :: p in order ==> p in w.live
  {
    if order == [] then []
    else [(meant, w.live[order[0]].session)] + Receivers(w, meant, order[1..])
  }

  ghost function Next(s: State, e: Event): State
    requires Possible(s, e)
  {
    match e
    case Kernel(h) => s.(world := After(s.world, h))
    case Register(pid, session) =>
      var seen := if pid in s.world.live then map[pid := IdentityOf(s.world.live[pid])] else map[];
      s.(identities := s.identities[pid := seen], sessions := s.sessions[pid := session])
    case Signal(pid, order) =>
      s.(identities := Observe(s.identities, s.world, pid),
         signalled := if Find(s.identities, s.world, pid) == Owned then
                        s.signalled + Receivers(s.world, s.sessions[pid], order)
                      else s.signalled)
    case Forget(pid) => s.(identities := s.identities - {pid}, sessions := s.sessions - {pid})
  }

  /** Whoever bears a recorded pid and start time and is in a session of that number is in the
      session that was registered. */
  ghost predicate Trustworthy(w: World, group: Pid, recorded: Members, session: Session) {
    && session.leader == group
    && forall p :: p in recorded ==>
         && (p, recorded[p].birth) in w.born
         && (p in w.live && w.live[p].birth == recorded[p].birth ==>
               if p == group then w.live[p].session == session
               else w.live[p].session.leader == group ==> w.live[p].session == session)
  }

  ghost predicate AllTrustworthy(w: World, identities: map<Pid, Members>, sessions: map<Pid, Session>) {
    && identities.Keys == sessions.Keys
    && forall g :: g in identities ==> Trustworthy(w, g, identities[g], sessions[g])
  }

  ghost predicate OnlyMeantWereHit(signalled: seq<(Session, Session)>) {
    forall i :: 0 <= i < |signalled| ==> signalled[i].0 == signalled[i].1
  }

  ghost predicate Inv(s: State) {
    Sane(s.world) && AllTrustworthy(s.world, s.identities, s.sessions) && OnlyMeantWereHit(s.signalled)
  }

  lemma KernelKeepsTrust(w: World, h: Happening, group: Pid, recorded: Members, session: Session)
    requires Sane(w) && Allowed(w, h) && Trustworthy(w, group, recorded, session)
    ensures Trustworthy(After(w, h), group, recorded, session)
  {
  }

  /** One recognised member vouches for the whole group. */
  lemma RecognisedMeansOwned(w: World, group: Pid, recorded: Members, session: Session)
    requires Sane(w) && Trustworthy(w, group, recorded, session) && Recognised(recorded, MembersOf(w, group))
    ensures forall p :: p in w.live && w.live[p].group == group ==> w.live[p].session == session
    ensures Trustworthy(w, group, MembersOf(w, group), session)
  {
    var members := MembersOf(w, group);
    var p :| p in members && p in recorded && recorded[p] == members[p];
    assert w.live[p].session == session;
  }

  lemma {:induction false} ReceiversWereMeant(w: World, session: Session, order: seq<Pid>)
    requires forall p :: p in order ==> p in w.live && w.live[p].session == session
    ensures OnlyMeantWereHit(Receivers(w, session, order))
  {
    if order != [] {
      ReceiversWereMeant(w, session, order[1..]);
    }
  }

  lemma SignalKeeps(s: State, pid: Pid, order: seq<Pid>)
    requires Inv(s) && Possible(s, Signal(pid, order))
    ensures Inv(Next(s, Signal(pid, order)))
  {
    if Find(s.identities, s.world, pid) == Owned {
      RecognisedMeansOwned(s.world, pid, s.identities[pid], s.sessions[pid]);
      ReceiversWereMeant(s.world, s.sessions[pid], order);
    }
  }

  lemma KernelKeeps(s: State, h: Happening)
    requires Inv(s) && Allowed(s.world, h)
    ensures Inv(Next(s, Kernel(h)))
  {
    KernelStaysSane(s.world, h);
    forall g | g in s.identities ensures Trustworthy(After(s.world, h), g, s.identities[g], s.sessions[g]) {
      KernelKeepsTrust(s.world, h, g, s.identities[g], s.sessions[g]);
    }
  }

  lemma StepKeeps(s: State, e: Event)
    requires Inv(s) && Possible(s, e)
    ensures Inv(Next(s, e))
  {
    match e
    case Kernel(h) => KernelKeeps(s, h);
    case Register(pid, session) =>
    case Signal(pid, order) => SignalKeeps(s, pid, order);
    case Forget(pid) =>
  }

  ghost predicate IsRun(states: seq<State>, events: seq<Event>) {
    && |states| == |events| + 1
    && forall i :: 0 <= i < |events| ==> Possible(states[i], events[i]) && states[i + 1] == Next(states[i], events[i])
  }

  /** However processes are born, move between groups and sessions, die and have their numbers
      reused: every signal hits a member of the very session that was registered. */
  lemma {:induction false} SignalsHitOnlyRegisteredSessions(states: seq<State>, events: seq<Event>)
    requires IsRun(states, events) && Sane(states[0].world)
    requires states[0].identities == map[] && states[0].sessions == map[] && states[0].signalled == []
    ensures Inv(states[|events|]) && OnlyMeantWereHit(states[|events|].signalled)
  {
    if events != [] {
      var n := |events| - 1;
      SignalsHitOnlyRegisteredSessions(states[..n + 1], events[..n]);
      StepKeeps(states[n], events[n]);
    }
  }

  /** The number alone is no authority: once the leader is gone, another process may lead a session
      of the same number. The start-time check is what keeps the signal from it. */
  lemma NumberMayBeReused(w: World, parent: Pid, pid: Pid, former: Process, later: nat)
    requires Sane(w) && parent in w.live && pid != parent && w.live == map[parent := w.live[parent], pid := former]
    requires former.group == pid && former.session == Session(pid, former.birth)
    requires w.live[parent].group != pid && w.live[parent].session.leader != pid && (pid, later) !in w.born
    ensures Allowed(w, Exit(pid))
    ensures var gone := After(w, Exit(pid));
            Allowed(gone, Fork(parent, pid, later)) && Allowed(After(gone, Fork(parent, pid, later)), Setsid(pid))
    ensures var reused := After(After(After(w, Exit(pid)), Fork(parent, pid, later)), Setsid(pid));
            && reused.live[pid].group == pid && reused.live[pid].session != former.session
            && Find(map[pid := map[pid := IdentityOf(former)]], reused, pid) == Unconfirmed
  {
    var reused := After(After(After(w, Exit(pid)), Fork(parent, pid, later)), Setsid(pid));
    assert (pid, former.birth) in w.born;
    assert pid in MembersOf(reused, pid);
  }

  // ---- an owned group stays known ----

  /** Both the group and the session of this process bear the number. */
  ghost predicate InGroup(w: World, group: Pid, p: Pid) {
    p in w.live && w.live[p].group == group && w.live[p].session.leader == group
  }

  ghost predicate NoneInGroup(w: World, group: Pid) {
    forall p :: !InGroup(w, group, p)
  }

  /** One of the recorded is in the group and still shows what was recorded of it. */
  ghost predicate SomeRecorded(w: World, group: Pid, recorded: Members) {
    exists p :: InGroup(w, group, p) && p in recorded && recorded[p] == IdentityOf(w.live[p])
  }

  /** One process is in the group in both worlds, with one start time. */
  ghost predicate SomeSurvivor(w1: World, w2: World, group: Pid) {
    exists p :: InGroup(w1, group, p) && InGroup(w2, group, p) && w1.live[p].birth == w2.live[p].birth
  }

  lemma GroupIsFound(identities: map<Pid, Members>, w: World, group: Pid)
    ensures Find(identities, w, group) == NoMembers <==> NoneInGroup(w, group)
    ensures Find(identities, w, group) == Owned <==> SomeRecorded(w, group, Recorded(identities, group))
  {
    var members := MembersOf(w, group);
    assert forall p :: p in members <==> InGroup(w, group, p);
    if p :| InGroup(w, group, p) {
      assert members != map[];
    }
    if p :| InGroup(w, group, p) && p in Recorded(identities, group)
            && Recorded(identities, group)[p] == IdentityOf(w.live[p]) {
      assert Recognised(Recorded(identities, group), members);
    }
  }

  /** Once a group was found owned, one survivor of it is enough to find it owned again. */
  lemma SurvivorVouches(identities: map<Pid, Members>, w1: World, w2: World, group: Pid)
    requires SomeRecorded(w1, group, Recorded(identities, group))
    ensures var after := Observe(identities, w1, group);
            SomeRecorded(w2, group, Recorded(after, group)) <==> SomeSurvivor(w1, w2, group)
  {
    GroupIsFound(identities, w1, group);
    assert forall p :: p in MembersOf(w1, group) <==> InGroup(w1, group, p);
  }

  /** What the last check that found the group owned left of it: exactly its members then. */
  lemma OwnedIsRemembered(identities: map<Pid, Members>, w: World, group: Pid)
    ensures var after := Observe(identities, w, group);
            && after - {group} == identities - {group}
            && if SomeRecorded(w, group, Recorded(identities, group)) then
                 group in after && (forall p :: p in after[group] <==> InGroup(w, group, p))
                 && forall p :: p in after[group] ==> after[group][p] == IdentityOf(w.live[p])
               else after == identities
  {
    GroupIsFound(identities, w, group);
    assert (identities[group := MembersOf(w, group)]) - {group} == identities - {group};
  }

  /** Neither registered anew nor forgotten nor checked in these events. */
  ghost predicate LeftAlone(events: seq<Event>, pid: Pid, i: nat, j: nat)
    requires j <= |events|
  {
    forall h :: i <= h < j ==>
      match events[h]
      case Kernel(_) => true
      case Register(p, _) => p != pid
      case Signal(p, _) => p != pid
      case Forget(p) => p != pid
  }

  lemma {:induction false} RecordsStay(states: seq<State>, events: seq<Event>, pid: Pid, i: nat, j: nat)
    requires IsRun(states, events) && i <= j <= |events| && LeftAlone(events, pid, i, j)
    ensures Recorded(states[i].identities, pid) == Recorded(states[j].identities, pid)
    decreases j - i
  {
    if i < j {
      RecordsStay(states, events, pid, i, j - 1);
      assert Possible(states[j - 1], events[j - 1]) && states[j] == Next(states[j - 1], events[j - 1]);
    }
  }

  /** In every run: a group signalled once is signalled again as long as one of its members is left, and
      is not once all it had are gone. */
  lemma {:induction false} SignalledAgainIffSurvivor(states: seq<State>, events: seq<Event>, i: nat, j: nat, pid: Pid,
                                                   first: seq<Pid>, second: seq<Pid>)
    requires IsRun(states, events) && i < j < |events| && LeftAlone(events, pid, i + 1, j)
    requires events[i] == Signal(pid, first) && SomeRecorded(states[i].world, pid, Recorded(states[i].identities, pid))
    requires events[j] == Signal(pid, second)
    ensures Possible(states[j], events[j])
    ensures states[j + 1].signalled ==
              if SomeSurvivor(states[i].world, states[j].world, pid)
              then states[j].signalled + Receivers(states[j].world, states[j].sessions[pid], second)
              else states[j].signalled
  {
    assert Possible(states[i], events[i]) && states[i + 1] == Next(states[i], events[i]);
    assert Possible(states[j], events[j]) && states[j + 1] == Next(states[j], events[j]);
    RecordsStay(states, events, pid, i + 1, j);
    SurvivorVouches(states[i].identities, states[i].world, states[j].world, pid);
    GroupIsFound(states[j].identities, states[j].world, pid);
  }

  /** In every run: a leader still alive in its group is signalled with the rest of it. */
  lemma {:induction false} LivingLeaderIsSignalled(states: seq<State>, events: seq<Event>, i: nat, j: nat,
                                                   pid: Pid, session: Session, order: seq<Pid>)
    requires IsRun(states, events) && i < j < |events| && LeftAlone(events, pid, i + 1, j)
    requires events[i] == Register(pid, session) && events[j] == Signal(pid, order)
    requires InGroup(states[i].world, pid, pid) && InGroup(states[j].world, pid, pid)
    requires states[i].world.live[pid].birth == states[j].world.live[pid].birth
    ensures Possible(states[j], events[j])
    ensures states[j + 1].signalled
         == states[j].signalled + Receivers(states[j].world, states[j].sessions[pid], order)
  {
    assert Possible(states[i], events[i]) && states[i + 1] == Next(states[i], events[i]);
    assert Possible(states[j], events[j]) && states[j + 1] == Next(states[j], events[j]);
    RecordsStay(states, events, pid, i + 1, j);
    GroupIsFound(states[j].identities, states[j].world, pid);
    assert IdentityOf(states[i].world.live[pid]) == IdentityOf(states[j].world.live[pid]);
  }

  // ---- the methods ----

  function Without(q: seq<Pid>, x: Pid): seq<Pid> {
    if q == [] then [] else if q[0] == x then q[1..] else [q[0]] + Without(q[1..], x)
  }

  datatype Cleanup = Cleaned | OwnershipUnconfirmed | StillAlive

  class ProcessOwner {
    var processes: seq<Pid>
    var identities: map<Pid, Members>

    constructor ()
      ensures processes == [] && identities == map[]
    {
      processes, identities := [], map[];
    }

    method Register(pid: Pid, identity: Option<Identity>)
      modifies this
      ensures processes == old(processes) + [pid]
      ensures identities == old(identities)[pid := if identity.Some? then map[pid := identity.value] else map[]]
    {
      processes := processes + [pid];
      identities := identities[pid := if identity.Some? then map[pid := identity.value] else map[]];
    }

    method OwnedGroup(w: World, pid: Pid) returns (f: Finding)
      modifies this`identities
      ensures f == Find(old(identities), w, pid)
      ensures identities == Observe(old(identities), w, pid)
      ensures f.NoMembers? <==> NoneInGroup(w, pid)
      ensures f.Owned? <==> SomeRecorded(w, pid, Recorded(old(identities), pid))
      ensures f.Owned? ==> pid in identities && forall p :: p in identities[pid] <==> InGroup(w, pid, p)
      ensures f.Owned? ==> forall p :: p in identities[pid] ==> identities[pid][p] == IdentityOf(w.live[p])
      ensures !f.Owned? ==> identities == old(identities)
    {
      GroupIsFound(identities, w, pid);
      OwnedIsRemembered(identities, w, pid);
      var members := MembersOf(w, pid);
      if members == map[] {
        return NoMembers;
      }
      if !Recognised(Recorded(identities, pid), members) {
        return Unconfirmed;
      }
      identities := identities[pid := members];
      f := Owned;
    }

    /** `w1` and `w2` are what the two checks see, `w3` and `zombies` what is left at the end. Each
        signal is sent exactly when the check before it found the group owned. */
    method Terminate(pid: Pid, w1: World, w2: World, w3: World, zombies: set<Pid>)
      returns (r: Cleanup, terminated: bool, killed: bool)
      modifies this
      ensures var first := Observe(old(identities), w1, pid);
              var second := Observe(first, w2, pid);
              var survivors := exists p :: p in Recorded(second, pid) && p in w3.live && p !in zombies
                                          && IdentityOf(w3.live[p]) == Recorded(second, pid)[p];
              && (terminated <==> Find(old(identities), w1, pid) == Owned)
              && (killed <==> Find(old(identities), w1, pid) != Unconfirmed && Find(first, w2, pid) == Owned)
              && (r.OwnershipUnconfirmed? <==>
                    Find(old(identities), w1, pid) == Unconfirmed || Find(first, w2, pid) == Unconfirmed)
              && (r.StillAlive? <==> !r.OwnershipUnconfirmed? && survivors)
              && (r.Cleaned? ==> identities == second - {pid} && processes == Without(old(processes), pid))
              && (!r.Cleaned? ==> processes == old(processes))
      ensures terminated <==> SomeRecorded(w1, pid, Recorded(old(identities), pid))
      ensures killed <==>
                if terminated then SomeSurvivor(w1, w2, pid)
                else NoneInGroup(w1, pid) && SomeRecorded(w2, pid, Recorded(old(identities), pid))
      ensures r.OwnershipUnconfirmed? <==>
                (!NoneInGroup(w1, pid) && !terminated) || (!NoneInGroup(w2, pid) && !killed)
    {
      GroupIsFound(identities, w1, pid);
      GroupIsFound(Observe(identities, w1, pid), w2, pid);
      if SomeRecorded(w1, pid, Recorded(identities, pid)) {
        SurvivorVouches(identities, w1, w2, pid);
      }
      terminated, killed := false, false;
      var f := OwnedGroup(w1, pid);
      if f.Unconfirmed? {
        return OwnershipUnconfirmed, false, false;
      }
      terminated := f.Owned?;
      f := OwnedGroup(w2, pid);
      if f.Unconfirmed? {
        return OwnershipUnconfirmed, terminated, false;
      }
      killed := f.Owned?;
      var left := Recorded(identities, pid);
      if exists p | p in left.Keys :: p in w3.live && p !in zombies && IdentityOf(w3.live[p]) == left[p] {
        return StillAlive, terminated, killed;
      }
      identities := identities - {pid};
      processes := Without(processes, pid);
      r := Cleaned;
    }
  }
}
