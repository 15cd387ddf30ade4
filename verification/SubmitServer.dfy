/** The asynchronous D-Bus `Submit` server: every message waits for a sender lookup, then is
    admitted once, replayed, or refused. Safety is proved over every interleaving of submissions,
    lookup answers, timeouts and deferred work. */
module SubmitServer {
  import opened Basics

  type Id = string
  type Text = string
  type Fingerprint = string

  /** Command-line switches, and the fingerprint function (SHA-256 in the source). */
  datatype Config = Config(noLimits: bool, shutdownAfterReply: bool, instant: bool, sha: Text -> Fingerprint)

  /** Why a message is refused: `Invalid` carries what validation found. */
  datatype Refusal = UnverifiedSender | RequestConflict | Invalid(reason: string)
  datatype Load = RateLimited | QueueFull

  datatype Reply =
    | Accepted(already: bool)
    | Refused(why: Refusal)
    | Expired
    | Busy(load: Load)

  /** One reply on the bus. `admitted` tells replies that came from `admit`. */
  datatype Sent = Sent(message: nat, id: Id, text: Text, deadline: int, at: int, admitted: bool, reply: Reply)

  /** The closure of one sender lookup. */
  datatype Lookup = Lookup(message: nat, text: Text, id: Id, deadline: int, done: bool)

  datatype Job = Job(id: Id, text: Text)

  datatype State = State(
    seen: map<Id, Fingerprint>,
    running: int,
    starts: nat,
    lastAccepted: int,
    pending: set<nat>,
    shuttingDown: bool,
    lookups: seq<Lookup>,
    scheduled: seq<Job>,
    // what an observer saw
    clock: int,
    submitted: set<nat>,
    replies: seq<Sent>,
    started: seq<Job>,
    skipped: seq<Job>)

  const LONG_AGO: int := -1_000_000_000_000_000

  function Initial(clock: nat): State {
    State(map[], 0, 0, LONG_AGO, {}, false, [], [], clock, {}, [], [], [])
  }

  // ---- the handlers as functions of the state ----

  /** What `admit` answers, guard by guard. */
  function Verdict(c: Config, s: State, l: Lookup, now: int): Reply {
    if l.id in s.seen then
      if s.seen[l.id] == c.sha(l.text) then Accepted(true) else Refused(RequestConflict)
    else if now > l.deadline then Expired
    else if !c.noLimits && now - s.lastAccepted < 500 then Busy(RateLimited)
    else if !c.noLimits && s.running >= 3 then Busy(QueueFull)
    else Accepted(false)
  }

  function Log(s: State, r: Sent): State {
    s.(replies := s.replies + [r])
  }

  function VerdictSent(c: Config, s: State, l: Lookup, now: int): Sent {
    Sent(l.message, l.id, l.text, l.deadline, now, true, Verdict(c, s, l, now))
  }

  function Admit(c: Config, s: State, l: Lookup, now: int): State {
    var r := VerdictSent(c, s, l, now);
    if IsNew(r) then
      Log(s, r).(seen := s.seen[l.id := c.sha(r.text)],
                 running := s.running + 1,
                 lastAccepted := now,
                 shuttingDown := s.shuttingDown || c.shutdownAfterReply,
                 scheduled := s.scheduled + [Job(l.id, l.text)])
    else Log(s, r)
  }

  predicate IsNew(r: Sent) {
    r.reply == Accepted(false)
  }

  /** The state right after a lookup is closed and before its message is answered. */
  function Closed(s: State, k: nat, now: int): State
    requires k < |s.lookups|
  {
    s.(lookups := s.lookups[k := s.lookups[k].(done := true)], pending := s.pending - {s.lookups[k].message},
       clock := now)
  }

  /** The first of answer, error and timeout wins; the rest are ignored. */
  function Finish(c: Config, s: State, k: nat, verified: bool, now: int): State
    requires k < |s.lookups|
  {
    var l := s.lookups[k];
    if l.done then s.(clock := now)
    else
      var s' := Closed(s, k, now);
      if verified then Admit(c, s', l, now)
      else Log(s', Sent(l.message, l.id, l.text, l.deadline, now, false, Refused(UnverifiedSender)))
  }

  datatype Event =
    | Submit(message: nat, text: Text, id: Id, deadline: int, invalid: Option<string>, now: int, later: int,
             called: bool)
    | Answer(lookup: nat, verified: bool, at: int)   // a user id, an error, or the timer
    | Work(job: nat)

  /** The state with one more message and its lookup. */
  function Opened(s: State, e: Event): State
    requires e.Submit?
  {
    s.(submitted := s.submitted + {e.message}, clock := e.later,
       lookups := s.lookups + [Lookup(e.message, e.text, e.id, e.deadline, false)],
       pending := s.pending + {e.message})
  }

  /** Opens a lookup, unless the message can be answered at once. */
  function SubmitNext(c: Config, s: State, e: Event): State
    requires e.Submit?
  {
    var s1 := s.(submitted := s.submitted + {e.message}, clock := e.later);
    var early := EarlyReply(e);
    if early.Some? then
      Log(s1, Sent(e.message, e.id, e.text, e.deadline, e.now, false, early.value))
    else
      if e.called then Opened(s, e) else Finish(c, Opened(s, e), |s.lookups|, false, e.later)
  }

  function EarlyReply(e: Event): Option<Reply>
    requires e.Submit?
  {
    if e.invalid.Some? then Some(Refused(Invalid(e.invalid.value)))
    else if e.now > e.deadline then Some(Expired)
    else if e.deadline - e.later - 20 <= 0 then Some(Refused(UnverifiedSender))
    else None
  }

  function WorkNext(c: Config, s: State, k: nat): State
    requires k < |s.scheduled|
  {
    var job := s.scheduled[k];
    var s' := s.(scheduled := s.scheduled[..k] + s.scheduled[k + 1..]);
    if s.shuttingDown then s'.(running := s.running - 1, skipped := s.skipped + [job])
    else
      s'.(starts := s.starts + 1, started := s.started + [job],
          running := if c.instant then s.running - 1 else s.running)
  }

  /** A message arrives once; time does not run backwards; callbacks belong to real closures. */
  predicate Enabled(s: State, e: Event) {
    match e
    case Submit(m, _, _, _, _, now, later, _) => m !in s.submitted && s.clock <= now <= later
    case Answer(k, _, at) => k < |s.lookups| && s.clock <= at
    case Work(k) => k < |s.scheduled|
  }

  function Next(c: Config, s: State, e: Event): State
    requires Enabled(s, e)
  {
    match e
    case Submit(_, _, _, _, _, _, _, _) => SubmitNext(c, s, e)
    case Answer(k, verified, at) => Finish(c, s, k, verified, at)
    case Work(k) => WorkNext(c, s, k)
  }

  // ---- the invariant ----

  /** What a history of replies says was accepted, under which fingerprint. */
  ghost function SeenIn(c: Config, replies: seq<Sent>): map<Id, Fingerprint> {
    if replies == [] then map[]
    else
      var last := replies[|replies| - 1];
      var before := SeenIn(c, replies[..|replies| - 1]);
      if IsNew(last) then before[last.id := c.sha(last.text)] else before
  }

  ghost function AnsweredIn(replies: seq<Sent>): set<nat> {
    if replies == [] then {} else AnsweredIn(replies[..|replies| - 1]) + {replies[|replies| - 1].message}
  }

  ghost function LastAcceptedIn(replies: seq<Sent>): int {
    if replies == [] then LONG_AGO
    else
      var last := replies[|replies| - 1];
      if IsNew(last) then last.at else LastAcceptedIn(replies[..|replies| - 1])
  }

  /** The next reply `r` is right after `replies`: its message had none, and an admitted message
      hears `already`, `request_conflict` or neither as its id was accepted before or not. */
  ghost predicate Fitting(c: Config, replies: seq<Sent>, r: Sent) {
    && r.message !in AnsweredIn(replies)
    && (r.reply.Accepted? ==> r.admitted)
    && (r.admitted ==>
          if r.id in SeenIn(c, replies) then
            r.reply == if SeenIn(c, replies)[r.id] == c.sha(r.text) then Accepted(true) else Refused(RequestConflict)
          else IsNew(r) || r.reply.Expired? || r.reply.Busy?)
    && (IsNew(r) ==>
          && r.at <= r.deadline
          && (!c.noLimits ==> r.at - LastAcceptedIn(replies) >= 500))
  }

  ghost predicate History(c: Config, replies: seq<Sent>) {
    replies != [] ==>
      && History(c, replies[..|replies| - 1])
      && Fitting(c, replies[..|replies| - 1], replies[|replies| - 1])
  }

  /** The replies were right one by one, and the fields are what they say. */
  ghost predicate Told(c: Config, s: State) {
    && History(c, s.replies)
    && s.seen == SeenIn(c, s.replies)
    && s.lastAccepted == LastAcceptedIn(s.replies) <= s.clock
  }

  ghost predicate AnsweredOrPending(answered: set<nat>, pending: set<nat>, submitted: set<nat>) {
    answered !! pending && submitted == answered + pending
  }

  /** A message waits exactly as long as its one lookup is open. */
  ghost predicate PendingAreOpen(lookups: seq<Lookup>, pending: set<nat>, submitted: set<nat>) {
    && (forall k :: 0 <= k < |lookups| ==> lookups[k].message in submitted)
    && (forall j, k :: 0 <= j < k < |lookups| ==> lookups[j].message != lookups[k].message)
    && (forall k :: 0 <= k < |lookups| ==> (lookups[k].message in pending <==> !lookups[k].done))
    && (forall m :: m in pending ==> exists k :: 0 <= k < |lookups| && lookups[k].message == m)
  }

  /** Every id seen has one job, and that job is in one place: waiting, started or skipped. */
  ghost predicate OneJobPerSeenId(seen: map<Id, Fingerprint>, jobs: multiset<Job>) {
    && (forall x :: x in jobs ==> jobs[x] == 1 && x.id in seen)
    && (forall x, y :: x in jobs && y in jobs && x.id == y.id ==> x == y)
    && |seen| == |jobs|
  }

  ghost function Jobs(s: State): multiset<Job> {
    multiset(s.scheduled) + multiset(s.started) + multiset(s.skipped)
  }

  /** The jobs account for the ids seen, and the counters for the jobs. */
  ghost predicate Accounted(c: Config, s: State) {
    && OneJobPerSeenId(s.seen, Jobs(s))
    && s.starts == |s.started|
    && s.running == |s.scheduled| + (if c.instant then 0 else s.starts)
    && (!c.noLimits ==> s.running <= 3)
  }

  ghost predicate Inv(c: Config, s: State) {
    && Told(c, s)
    && AnsweredOrPending(AnsweredIn(s.replies), s.pending, s.submitted)
    && PendingAreOpen(s.lookups, s.pending, s.submitted)
    && Accounted(c, s)
  }

  // ---- every step keeps it ----

  lemma {:induction false} Appended(c: Config, replies: seq<Sent>, r: Sent)
    ensures SeenIn(c, replies + [r])
         == if IsNew(r) then SeenIn(c, replies)[r.id := c.sha(r.text)] else SeenIn(c, replies)
    ensures AnsweredIn(replies + [r]) == AnsweredIn(replies) + {r.message}
    ensures LastAcceptedIn(replies + [r]) == if IsNew(r) then r.at else LastAcceptedIn(replies)
    ensures History(c, replies + [r]) <==> History(c, replies) && Fitting(c, replies, r)
  {
    assert (replies + [r])[..|replies|] == replies;
  }

  lemma ScheduleKeepsOneJob(seen: map<Id, Fingerprint>, jobs: multiset<Job>, job: Job, mark: Fingerprint)
    requires OneJobPerSeenId(seen, jobs) && job.id !in seen
    ensures OneJobPerSeenId(seen[job.id := mark], jobs + multiset{job})
  {
    assert job !in jobs;
    assert |seen[job.id := mark]| == |seen| + 1;
  }

  lemma CloseKeepsPending(lookups: seq<Lookup>, pending: set<nat>, submitted: set<nat>, k: nat)
    requires PendingAreOpen(lookups, pending, submitted) && k < |lookups|
    ensures PendingAreOpen(lookups[k := lookups[k].(done := true)], pending - {lookups[k].message}, submitted)
  {
    var after := lookups[k := lookups[k].(done := true)];
    forall m | m in pending - {lookups[k].message} ensures exists j :: 0 <= j < |after| && after[j].message == m {
      var j :| 0 <= j < |lookups| && lookups[j].message == m;
      assert after[j].message == m;
    }
  }

  lemma OpenKeepsPending(lookups: seq<Lookup>, pending: set<nat>, submitted: set<nat>, l: Lookup)
    requires PendingAreOpen(lookups, pending, submitted) && pending <= submitted && l.message !in submitted && !l.done
    ensures PendingAreOpen(lookups + [l], pending + {l.message}, submitted + {l.message})
  {
    var after := lookups + [l];
    forall m | m in pending + {l.message} ensures exists j :: 0 <= j < |after| && after[j].message == m {
      if m == l.message {
        assert after[|lookups|].message == m;
      } else {
        var j :| 0 <= j < |lookups| && lookups[j].message == m;
        assert after[j].message == m;
      }
    }
  }

  /** One fitting reply more, with the fields brought up to date. */
  lemma ReplyTells(c: Config, s: State, t: State, r: Sent)
    requires Told(c, s) && Fitting(c, s.replies, r) && t.replies == s.replies + [r] && t.clock == s.clock
    requires t.seen == if IsNew(r) then s.seen[r.id := c.sha(r.text)] else s.seen
    requires t.lastAccepted == if IsNew(r) then r.at else s.lastAccepted
    requires r.at <= s.clock
    ensures Told(c, t)
    ensures AnsweredIn(t.replies) == AnsweredIn(s.replies) + {r.message}
  {
    Appended(c, s.replies, r);
  }

  lemma {:induction false} VerdictFits(c: Config, s: State, l: Lookup, now: int)
    requires s.seen == SeenIn(c, s.replies) && s.lastAccepted == LastAcceptedIn(s.replies)
    requires l.message !in AnsweredIn(s.replies)
    ensures Fitting(c, s.replies, VerdictSent(c, s, l, now))
  {
  }

  lemma SameWorkAccounts(c: Config, s: State, t: State)
    requires Accounted(c, s)
    requires t.seen == s.seen && t.scheduled == s.scheduled && t.started == s.started && t.skipped == s.skipped
    requires t.starts == s.starts && t.running == s.running
    ensures Accounted(c, t)
  {
    assert Jobs(t) == Jobs(s);
  }

  lemma NewJobAccounts(c: Config, s: State, t: State, job: Job, mark: Fingerprint)
    requires Accounted(c, s) && job.id !in s.seen && (!c.noLimits ==> s.running < 3)
    requires t.seen == s.seen[job.id := mark] && t.scheduled == s.scheduled + [job]
    requires t.started == s.started && t.skipped == s.skipped && t.starts == s.starts && t.running == s.running + 1
    ensures Accounted(c, t)
  {
    ScheduleKeepsOneJob(s.seen, Jobs(s), job, mark);
    assert Jobs(t) == Jobs(s) + multiset{job};
  }

  lemma AdmitAccounts(c: Config, s: State, l: Lookup, now: int)
    requires Accounted(c, s)
    ensures Accounted(c, Admit(c, s, l, now))
  {
    var t := Admit(c, s, l, now);
    if Verdict(c, s, l, now) == Accepted(false) {
      NewJobAccounts(c, s, t, Job(l.id, l.text), c.sha(l.text));
    } else {
      SameWorkAccounts(c, s, t);
    }
  }

  /** Between the closing of a lookup and the reply to its message. */
  ghost predicate Owing(c: Config, t: State, message: nat) {
    && Told(c, t) && Accounted(c, t) && PendingAreOpen(t.lookups, t.pending, t.submitted)
    && AnsweredOrPending(AnsweredIn(t.replies) + {message}, t.pending, t.submitted)
    && message !in AnsweredIn(t.replies)
  }

  lemma CloseOwes(c: Config, s: State, k: nat, now: int)
    requires Inv(c, s) && k < |s.lookups| && s.clock <= now && !s.lookups[k].done
    ensures Owing(c, Closed(s, k, now), s.lookups[k].message)
  {
    CloseKeepsPending(s.lookups, s.pending, s.submitted, k);
    SameWorkAccounts(c, s, Closed(s, k, now));
  }

  lemma AdmitLeavesRest(c: Config, t: State, l: Lookup, now: int)
    ensures var a := Admit(c, t, l, now);
            a.lookups == t.lookups && a.pending == t.pending && a.submitted == t.submitted
  {
  }

  lemma RefusalPays(c: Config, t: State, r: Sent)
    requires Owing(c, t, r.message) && !r.admitted && !r.reply.Accepted? && r.at <= t.clock
    ensures Inv(c, Log(t, r))
  {
    ReplyTells(c, t, Log(t, r), r);
    SameWorkAccounts(c, t, Log(t, r));
  }

  lemma FinishKeeps(c: Config, s: State, k: nat, verified: bool, now: int)
    requires Inv(c, s) && k < |s.lookups| && s.clock <= now
    ensures Inv(c, Finish(c, s, k, verified, now))
  {
    var l := s.lookups[k];
    if l.done {
      SameWorkAccounts(c, s, s.(clock := now));
    } else {
      CloseOwes(c, s, k, now);
      if verified {
        var t := Closed(s, k, now);
        VerdictFits(c, t, l, now);
        ReplyTells(c, t, Admit(c, t, l, now), VerdictSent(c, t, l, now));
        AdmitAccounts(c, t, l, now);
        AdmitLeavesRest(c, t, l, now);
      } else {
        RefusalPays(c, Closed(s, k, now),
                    Sent(l.message, l.id, l.text, l.deadline, now, false, Refused(UnverifiedSender)));
      }
    }
  }

  lemma OpenKeeps(c: Config, s: State, e: Event)
    requires Inv(c, s) && e.Submit? && Enabled(s, e)
    ensures Inv(c, Opened(s, e))
  {
    OpenKeepsPending(s.lookups, s.pending, s.submitted, Lookup(e.message, e.text, e.id, e.deadline, false));
    SameWorkAccounts(c, s, Opened(s, e));
  }

  lemma EarlyKeeps(c: Config, s: State, e: Event)
    requires Inv(c, s) && e.Submit? && Enabled(s, e) && EarlyReply(e).Some?
    ensures Inv(c, SubmitNext(c, s, e))
  {
    var s1 := s.(submitted := s.submitted + {e.message}, clock := e.later);
    PendingIgnoresOthers(s.lookups, s.pending, s.submitted, e.message);
    SameWorkAccounts(c, s, s1);
    RefusalPays(c, s1, Sent(e.message, e.id, e.text, e.deadline, e.now, false, EarlyReply(e).value));
  }

  lemma PendingIgnoresOthers(lookups: seq<Lookup>, pending: set<nat>, submitted: set<nat>, m: nat)
    requires PendingAreOpen(lookups, pending, submitted)
    ensures PendingAreOpen(lookups, pending, submitted + {m})
  {
  }

  lemma WorkKeeps(c: Config, s: State, k: nat)
    requires Inv(c, s) && k < |s.scheduled|
    ensures Inv(c, WorkNext(c, s, k))
  {
    var t := WorkNext(c, s, k);
    JobMoves(s, t, k);
  }

  lemma JobMoves(s: State, t: State, k: nat)
    requires k < |s.scheduled| && t.scheduled == s.scheduled[..k] + s.scheduled[k + 1..]
    requires (t.started == s.started + [s.scheduled[k]] && t.skipped == s.skipped)
          || (t.started == s.started && t.skipped == s.skipped + [s.scheduled[k]])
    ensures Jobs(t) == Jobs(s)
  {
    assert s.scheduled == s.scheduled[..k] + [s.scheduled[k]] + s.scheduled[k + 1..];
    assert multiset(s.scheduled) == multiset(t.scheduled) + multiset{s.scheduled[k]};
  }

  lemma StepKeeps(c: Config, s: State, e: Event)
    requires Inv(c, s) && Enabled(s, e)
    ensures Inv(c, Next(c, s, e))
  {
    match e
    case Submit(_, _, _, _, _, _, later, called) =>
      if EarlyReply(e).Some? {
        EarlyKeeps(c, s, e);
      } else {
        OpenKeeps(c, s, e);
        if !called {
          FinishKeeps(c, Opened(s, e), |s.lookups|, false, later);
        }
      }
    case Answer(k, verified, at) => FinishKeeps(c, s, k, verified, at);
    case Work(k) => WorkKeeps(c, s, k);
  }

  // ---- the server itself ----

  class Server {
    const c: Config
    var seen: map<Id, Fingerprint>
    var running: int
    var starts: nat
    var lastAccepted: int
    var pending: set<nat>
    var shuttingDown: bool
    var lookups: seq<Lookup>      // the closures of Submit, each with its `done` flag
    var scheduled: seq<Job>       // zero-delay timers the event loop has yet to fire
    var replies: seq<Sent>        // the bus
    ghost var clock: int
    ghost var submitted: set<nat>
    ghost var started: seq<Job>
    ghost var skipped: seq<Job>

    ghost function Model(): State
      reads this
    {
      State(seen, running, starts, lastAccepted, pending, shuttingDown, lookups, scheduled,
            clock, submitted, replies, started, skipped)
    }

    constructor (c: Config, ghost now: nat)
      ensures this.c == c && Model() == Initial(now)
    {
      this.c := c;
      seen, running, starts, lastAccepted, pending, shuttingDown := map[], 0, 0, LONG_AGO, {}, false;
      lookups, scheduled, replies := [], [], [];
      clock, submitted, started, skipped := now, {}, [], [];
    }

    /** Sends, and after a fresh acceptance leaves the work to the event loop. */
    method Answer(r: Sent)
      modifies this`replies, this`shuttingDown, this`scheduled
      ensures replies == old(replies) + [r]
      ensures shuttingDown == (old(shuttingDown) || (IsNew(r) && c.shutdownAfterReply))
      ensures scheduled == old(scheduled) + if IsNew(r) then [Job(r.id, r.text)] else []
    {
      replies := replies + [r];
      if IsNew(r) {
        if c.shutdownAfterReply {
          shuttingDown := true;
        }
        scheduled := scheduled + [Job(r.id, r.text)];
      }
    }

    method AdmitMessage(l: Lookup, now: int)
      modifies this
      ensures Model() == Admit(c, old(Model()), l, now)
    {
      var mark, reply := c.sha(l.text), Accepted(true);
      if l.id in seen {
        if seen[l.id] != mark {
          reply := Refused(RequestConflict);
        }
      } else if now > l.deadline {
        reply := Expired;
      } else if !c.noLimits && now - lastAccepted < 500 {
        reply := Busy(RateLimited);
      } else if !c.noLimits && running >= 3 {
        reply := Busy(QueueFull);
      } else {
        seen := seen[l.id := mark];
        running := running + 1;
        lastAccepted := now;
        reply := Accepted(false);
      }
      Answer(Sent(l.message, l.id, l.text, l.deadline, now, true, reply));
    }

    method FinishLookup(k: nat, verified: bool, now: int)
      requires k < |lookups|
      modifies this
      ensures Model() == Finish(c, old(Model()), k, verified, now)
      ensures old(lookups)[k].done ==> replies == old(replies)
      ensures !old(lookups)[k].done ==>
                && |replies| == |old(replies)| + 1 && replies[..|old(replies)|] == old(replies)
                && replies[|old(replies)|].message == old(lookups)[k].message
                && (replies[|old(replies)|].admitted <==> verified)
                && (!verified ==> replies[|old(replies)|].reply == Refused(UnverifiedSender))
    {
      clock := now;
      var l := lookups[k];
      if l.done {
        return;
      }
      lookups := lookups[k := l.(done := true)];
      pending := pending - {l.message};
      if !verified {
        Answer(Sent(l.message, l.id, l.text, l.deadline, now, false, Refused(UnverifiedSender)));
      } else {
        AdmitMessage(l, now);
      }
    }

    method SubmitMessage(message: nat, text: Text, id: Id, deadline: int, invalid: Option<string>, now: int,
                         later: int, called: bool)
      modifies this
      ensures Model() == SubmitNext(c, old(Model()), Submit(message, text, id, deadline, invalid, now, later, called))
    {
      ghost var start, e := Model(), Submit(message, text, id, deadline, invalid, now, later, called);
      submitted := submitted + {message};
      clock := later;
      var early: Option<Reply> := None;
      if invalid.Some? {
        early := Some(Refused(Invalid(invalid.value)));
      } else if now > deadline {
        early := Some(Expired);
      } else {
        var limit := if 100 <= deadline - later - 20 then 100 else deadline - later - 20;
        if limit <= 0 {
          early := Some(Refused(UnverifiedSender));
        }
      }
      assert early == EarlyReply(e);
      if early.Some? {
        Answer(Sent(message, id, text, deadline, now, false, early.value));
        return;
      }
      OpenLookup(message, text, id, deadline);
      assert Model() == Opened(start, e);
      if !called {
        FinishLookup(|lookups| - 1, false, later);
      }
    }

    method OpenLookup(message: nat, text: Text, id: Id, deadline: int)
      modifies this`lookups, this`pending
      ensures lookups == old(lookups) + [Lookup(message, text, id, deadline, false)]
      ensures pending == old(pending) + {message}
    {
      lookups := lookups + [Lookup(message, text, id, deadline, false)];
      pending := pending + {message};
    }

    method RunWork(k: nat)
      requires k < |scheduled|
      modifies this
      ensures Model() == WorkNext(c, old(Model()), k)
    {
      var job := scheduled[k];
      scheduled := scheduled[..k] + scheduled[k + 1..];
      if shuttingDown {
        running := running - 1;
        skipped := skipped + [job];
        return;
      }
      starts := starts + 1;
      started := started + [job];
      if c.instant {
        running := running - 1;
      }
    }
  }
}
