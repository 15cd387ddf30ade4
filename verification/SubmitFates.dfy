/** What becomes of every message of the `Submit` server, read off the events of a run: when it is
    answered at once, who is admitted, which answer an admitted message gets, and whose work starts. */
module SubmitFates {
  import opened Basics
  import opened SubmitServer
  import opened SubmitRuns

  // ---- what the events say ----

  /** The message passes the checks that need no lookup. */
  predicate Waits(e: Event) {
    e.Submit? && e.invalid.None? && e.now <= e.deadline && e.deadline - e.later > 20
  }

  /** How many lookups these events open; the next is numbered so. */
  function Tickets(events: seq<Event>): nat {
    if events == [] then 0
    else Tickets(events[..|events| - 1]) + if Waits(events[|events| - 1]) then 1 else 0
  }

  predicate Closes(e: Event, k: nat) {
    e.Answer? && e.lookup == k
  }

  /** Event `j` is the first to close lookup `k`. */
  ghost predicate FirstClosing(events: seq<Event>, k: nat, j: nat) {
    j < |events| && Closes(events[j], k) && forall h :: 0 <= h < j ==> !Closes(events[h], k)
  }

  // ---- what a fresh answer should be ----

  ghost predicate AcceptedBefore(replies: seq<Sent>, id: Id) {
    exists i :: 0 <= i < |replies| && IsNew(replies[i]) && replies[i].id == id
  }

  ghost predicate AcceptedSame(c: Config, replies: seq<Sent>, id: Id, text: Text) {
    exists i :: 0 <= i < |replies| && IsNew(replies[i]) && replies[i].id == id && c.sha(replies[i].text) == c.sha(text)
  }

  /** Somebody was newly accepted less than half a second ago. */
  ghost predicate JustAccepted(replies: seq<Sent>, now: int) {
    exists i :: 0 <= i < |replies| && IsNew(replies[i]) && now - replies[i].at < 500
  }

  /** Jobs waiting, and those started that never report an end. */
  function Occupied(c: Config, s: State): nat {
    |s.scheduled| + if c.instant then 0 else |s.started|
  }

  /** Each answer to an admitted message under its own condition, and under no other. */
  ghost predicate RightAnswer(c: Config, s: State, r: Sent) {
    var seen := AcceptedBefore(s.replies, r.id);
    var late := r.at > r.deadline;
    var soon := !c.noLimits && JustAccepted(s.replies, r.at);
    var full := !c.noLimits && Occupied(c, s) >= 3;
    && (r.reply == Accepted(true) <==> seen && AcceptedSame(c, s.replies, r.id, r.text))
    && (r.reply == Refused(RequestConflict) <==> seen && !AcceptedSame(c, s.replies, r.id, r.text))
    && (r.reply == Expired <==> !seen && late)
    && (r.reply == Busy(RateLimited) <==> !seen && !late && soon)
    && (r.reply == Busy(QueueFull) <==> !seen && !late && !soon && full)
    && (r.reply == Accepted(false) <==> !seen && !late && !soon && !full)
  }

  lemma SeenIffAccepted(c: Config, s: State, id: Id, text: Text)
    requires Told(c, s)
    ensures id in s.seen <==> AcceptedBefore(s.replies, id)
    ensures id in s.seen ==> (s.seen[id] == c.sha(text) <==> AcceptedSame(c, s.replies, id, text))
  {
    if id in s.seen {
      var i := SeenWasAccepted(c, s.replies, id);
      StaysInHistory(c, s.replies, i);
    }
    forall i: nat | i < |s.replies| && IsNew(s.replies[i]) && s.replies[i].id == id
      ensures id in s.seen && s.seen[id] == c.sha(s.replies[i].text)
    {
      StaysInHistory(c, s.replies, i);
    }
  }

  lemma {:induction false} LastAcceptedIsOne(replies: seq<Sent>) returns (i: int)
    ensures if i < 0 then LastAcceptedIn(replies) == LONG_AGO
            else i < |replies| && IsNew(replies[i]) && replies[i].at == LastAcceptedIn(replies)
  {
    var n := |replies| - 1;
    if replies == [] {
      i := -1;
    } else if IsNew(replies[n]) {
      i := n;
    } else {
      i := LastAcceptedIsOne(replies[..n]);
    }
  }

  lemma SoonIffJustAccepted(c: Config, s: State, now: int)
    requires Told(c, s) && !c.noLimits && 0 <= now
    ensures now - s.lastAccepted < 500 <==> JustAccepted(s.replies, now)
  {
    var i := LastAcceptedIsOne(s.replies);
    forall j: nat | j < |s.replies| && IsNew(s.replies[j]) ensures s.replies[j].at <= s.lastAccepted {
      StaysInHistory(c, s.replies, j);
    }
  }

  lemma VerdictIsRight(c: Config, s: State, l: Lookup, now: int)
    requires Told(c, s) && Accounted(c, s) && 0 <= now
    ensures RightAnswer(c, s, VerdictSent(c, s, l, now))
  {
    SeenIffAccepted(c, s, l.id, l.text);
    if !c.noLimits {
      SoonIffJustAccepted(c, s, now);
    }
  }

  // ---- one step ----

  function Refusing(l: Lookup, at: int): Sent {
    Sent(l.message, l.id, l.text, l.deadline, at, false, Refused(UnverifiedSender))
  }

  /** Whom an event answers, and how. */
  ghost predicate RightReplies(c: Config, s: State, e: Event, replies: seq<Sent>)
    requires Enabled(s, e)
  {
    match e
    case Submit(m, text, id, deadline, invalid, now, later, called) =>
      if invalid.Some? then
        replies == s.replies + [Sent(m, id, text, deadline, now, false, Refused(Invalid(invalid.value)))]
      else if now > deadline then
        replies == s.replies + [Sent(m, id, text, deadline, now, false, Expired)]
      else if deadline - later <= 20 then
        replies == s.replies + [Sent(m, id, text, deadline, now, false, Refused(UnverifiedSender))]
      else if !called then
        replies == s.replies + [Sent(m, id, text, deadline, later, false, Refused(UnverifiedSender))]
      else replies == s.replies
    case Answer(k, verified, at) =>
      var l := s.lookups[k];
      if l.done then replies == s.replies
      else if !verified then replies == s.replies + [Refusing(l, at)]
      else
        && |replies| == |s.replies| + 1 && replies[..|s.replies|] == s.replies
        && IsAdmitted(replies[|s.replies|], l, at) && RightAnswer(c, s, replies[|s.replies|])
    case Work(_) => replies == s.replies
  }

  predicate IsAdmitted(r: Sent, l: Lookup, at: int) {
    r.admitted && (r.message, r.id, r.text, r.deadline, r.at) == (l.message, l.id, l.text, l.deadline, at)
  }

  lemma FinishAnswersRight(c: Config, s: State, e: Event)
    requires Inv(c, s) && Enabled(s, e) && 0 <= s.clock && e.Answer?
    ensures RightReplies(c, s, e, Finish(c, s, e.lookup, e.verified, e.at).replies)
  {
    var l := s.lookups[e.lookup];
    if !l.done && e.verified {
      var t := Closed(s, e.lookup, e.at);
      SameWorkAccounts(c, s, t);
      VerdictIsRight(c, t, l, e.at);
      assert (s.replies + [VerdictSent(c, t, l, e.at)])[..|s.replies|] == s.replies;
    }
  }

  lemma SubmitAnswersRight(c: Config, s: State, e: Event)
    requires Enabled(s, e) && e.Submit?
    ensures RightReplies(c, s, e, SubmitNext(c, s, e).replies)
  {
  }

  lemma StepAnswersRight(c: Config, s: State, e: Event)
    requires Inv(c, s) && Enabled(s, e) && 0 <= s.clock
    ensures RightReplies(c, s, e, Next(c, s, e).replies)
  {
    if e.Answer? {
      FinishAnswersRight(c, s, e);
    } else if e.Submit? {
      SubmitAnswersRight(c, s, e);
    }
  }

  /** Lookups are opened by messages that wait, and closed by the first answer for them. */
  lemma StepLookups(c: Config, s: State, e: Event)
    requires Enabled(s, e)
    ensures var after := Next(c, s, e).lookups;
            && |after| == |s.lookups| + (if Waits(e) then 1 else 0)
            && (forall k: nat :: k < |s.lookups| ==>
                  after[k] == s.lookups[k].(done := s.lookups[k].done || Closes(e, k)))
            && (Waits(e) ==>
                  after[|s.lookups|] == Lookup(e.message, e.text, e.id, e.deadline, !e.called))
  {
  }

  // ---- the work ----

  /** The jobs of the newly accepted. */
  ghost function NewJobs(replies: seq<Sent>): multiset<Job> {
    if replies == [] then multiset{}
    else
      var last := replies[|replies| - 1];
      NewJobs(replies[..|replies| - 1]) + if IsNew(last) then multiset{Job(last.id, last.text)} else multiset{}
  }

  /** Every text newly accepted is one job, waiting or done with; and all are skipped or none, as the
      first acceptance does or does not shut the server down. */
  ghost predicate WorkFollows(c: Config, s: State) {
    && Jobs(s) == NewJobs(s.replies)
    && (s.shuttingDown <==> c.shutdownAfterReply && s.seen != map[])
    && (if c.shutdownAfterReply then s.started == [] else s.skipped == [])
  }

  lemma {:induction false} OneReplyMore(replies: seq<Sent>, r: Sent)
    ensures NewJobs(replies + [r])
         == NewJobs(replies) + if IsNew(r) then multiset{Job(r.id, r.text)} else multiset{}
  {
    assert (replies + [r])[..|replies|] == replies;
  }

  lemma LogFollows(c: Config, s: State, t: State, r: Sent)
    requires WorkFollows(c, s) && !IsNew(r) && t.replies == s.replies + [r]
    requires t.scheduled == s.scheduled && t.started == s.started && t.skipped == s.skipped
    requires t.shuttingDown == s.shuttingDown && t.seen == s.seen
    ensures WorkFollows(c, t)
  {
    OneReplyMore(s.replies, r);
  }

  lemma AdmitFollows(c: Config, s: State, l: Lookup, now: int)
    requires WorkFollows(c, s)
    ensures WorkFollows(c, Admit(c, s, l, now))
  {
    var r, t := VerdictSent(c, s, l, now), Admit(c, s, l, now);
    if IsNew(r) {
      OneReplyMore(s.replies, r);
      assert Jobs(t) == Jobs(s) + multiset{Job(r.id, r.text)};
      assert l.id in t.seen;
    } else {
      LogFollows(c, s, t, r);
    }
  }

  lemma FinishFollows(c: Config, s: State, k: nat, verified: bool, now: int)
    requires WorkFollows(c, s) && k < |s.lookups|
    ensures WorkFollows(c, Finish(c, s, k, verified, now))
  {
    var l := s.lookups[k];
    if !l.done {
      var t := Closed(s, k, now);
      assert WorkFollows(c, t);
      if verified {
        AdmitFollows(c, t, l, now);
      } else {
        LogFollows(c, t, Finish(c, s, k, verified, now), Refusing(l, now));
      }
    }
  }

  lemma WorkStepFollows(c: Config, s: State, k: nat)
    requires Inv(c, s) && WorkFollows(c, s) && k < |s.scheduled|
    ensures WorkFollows(c, WorkNext(c, s, k))
  {
    JobMoves(s, WorkNext(c, s, k), k);
    assert s.scheduled[k] in Jobs(s);
    assert s.scheduled[k].id in s.seen;
  }

  lemma StepFollows(c: Config, s: State, e: Event)
    requires Inv(c, s) && Enabled(s, e) && WorkFollows(c, s)
    ensures WorkFollows(c, Next(c, s, e))
  {
    match e
    case Submit(m, text, id, deadline, _, now, later, called) =>
      if EarlyReply(e).Some? {
        LogFollows(c, s, SubmitNext(c, s, e), Sent(m, id, text, deadline, now, false, EarlyReply(e).value));
      } else {
        assert WorkFollows(c, Opened(s, e));
        if !called {
          FinishFollows(c, Opened(s, e), |s.lookups|, false, later);
        }
      }
    case Answer(k, verified, at) => FinishFollows(c, s, k, verified, at);
    case Work(k) => WorkStepFollows(c, s, k);
  }

  // ---- whole runs ----

  ghost predicate IsRun(c: Config, states: seq<State>, events: seq<Event>) {
    && |states| == |events| + 1 && (exists clock: nat :: states[0] == Initial(clock))
    && forall i :: 0 <= i < |events| ==> Enabled(states[i], events[i]) && states[i + 1] == Next(c, states[i], events[i])
  }

  lemma {:induction false} RunHolds(c: Config, states: seq<State>, events: seq<Event>, n: nat)
    requires IsRun(c, states, events) && n <= |events|
    ensures Inv(c, states[n]) && WorkFollows(c, states[n]) && 0 <= states[n].clock
  {
    if n == 0 {
      var clock: nat :| states[0] == Initial(clock);
      InitialHolds(c, clock);
      assert Jobs(states[0]) == multiset{};
    } else {
      RunHolds(c, states, events, n - 1);
      assert states[n] == Next(c, states[n - 1], events[n - 1]);
      StepKeeps(c, states[n - 1], events[n - 1]);
      StepFollows(c, states[n - 1], events[n - 1]);
      ClockAdvances(c, states[n - 1], events[n - 1]);
    }
  }

  lemma ClockAdvances(c: Config, s: State, e: Event)
    requires Enabled(s, e)
    ensures s.clock <= Next(c, s, e).clock
  {
  }

  /** In every run each text newly accepted is one job; without the shutdown switch none is skipped, and
      with it none is ever started. */
  lemma WorkIsDoneUnlessShutDown(c: Config, states: seq<State>, events: seq<Event>, n: nat)
    requires IsRun(c, states, events) && n <= |events|
    ensures multiset(states[n].scheduled) + multiset(states[n].started) + multiset(states[n].skipped)
         == NewJobs(states[n].replies)
    ensures if c.shutdownAfterReply then states[n].started == [] else states[n].skipped == []
  {
    RunHolds(c, states, events, n);
  }

  lemma {:induction false} RepliesGrow(c: Config, states: seq<State>, events: seq<Event>, i: nat, n: nat)
    requires IsRun(c, states, events) && i <= n <= |events|
    ensures states[i].replies <= states[n].replies
    decreases n - i
  {
    if i < n {
      RepliesGrow(c, states, events, i, n - 1);
      RepliesGrowOnce(c, states, events, n - 1);
    }
  }

  lemma RepliesGrowOnce(c: Config, states: seq<State>, events: seq<Event>, n: nat)
    requires IsRun(c, states, events) && n < |events|
    ensures states[n].replies <= states[n + 1].replies
  {
    RunHolds(c, states, events, n);
    assert Enabled(states[n], events[n]) && states[n + 1] == Next(c, states[n], events[n]);
    StepExtends(c, states[n], events[n]);
  }

  lemma StepExtends(c: Config, s: State, e: Event)
    requires Inv(c, s) && Enabled(s, e) && 0 <= s.clock
    ensures s.replies <= Next(c, s, e).replies
  {
    StepAnswersRight(c, s, e);
  }

  lemma {:induction false} LookupsAreTickets(c: Config, states: seq<State>, events: seq<Event>, n: nat)
    requires IsRun(c, states, events) && n <= |events|
    ensures |states[n].lookups| == Tickets(events[..n])
  {
    if n > 0 {
      LookupsAreTickets(c, states, events, n - 1);
      assert Enabled(states[n - 1], events[n - 1]) && states[n] == Next(c, states[n - 1], events[n - 1]);
      StepLookups(c, states[n - 1], events[n - 1]);
      assert events[..n][..n - 1] == events[..n - 1];
    }
  }

  /** The message of event `i` waits for lookup `k`, from then on known by its number. */
  ghost predicate WaitsFor(events: seq<Event>, i: nat, k: nat) {
    i < |events| && Waits(events[i]) && k == Tickets(events[..i])
  }

  ghost predicate ClosedBetween(events: seq<Event>, k: nat, i: nat, n: nat)
    requires n <= |events|
  {
    exists j :: i < j < n && Closes(events[j], k)
  }

  lemma ClosedByNext(events: seq<Event>, k: nat, i: nat, n: nat)
    requires i + 1 < n <= |events|
    ensures ClosedBetween(events, k, i, n) <==> ClosedBetween(events, k, i, n - 1) || Closes(events[n - 1], k)
  {
  }

  function LookupFor(e: Event, done: bool): Lookup
    requires e.Submit?
  {
    Lookup(e.message, e.text, e.id, e.deadline, done)
  }

  lemma {:induction false} LookupOfMessage(c: Config, states: seq<State>, events: seq<Event>, i: nat, k: nat, n: nat)
    requires IsRun(c, states, events) && WaitsFor(events, i, k) && i < n <= |events|
    ensures k < |states[n].lookups|
    ensures states[n].lookups[k] == LookupFor(events[i], !events[i].called || ClosedBetween(events, k, i, n))
  {
    LookupsAreTickets(c, states, events, i);
    LookupsAreTickets(c, states, events, n - 1);
    assert Enabled(states[n - 1], events[n - 1]) && states[n] == Next(c, states[n - 1], events[n - 1]);
    StepLookups(c, states[n - 1], events[n - 1]);
    if n > i + 1 {
      LookupOfMessage(c, states, events, i, k, n - 1);
      ClosedByNext(events, k, i, n);
    }
  }

  lemma {:induction false} NoLookupBeforeTicket(c: Config, states: seq<State>, events: seq<Event>, i: nat,
                                                k: nat, j: nat)
    requires IsRun(c, states, events) && WaitsFor(events, i, k) && j < |events| && Closes(events[j], k)
    ensures i < j
  {
    assert Enabled(states[j], events[j]);
    LookupsAreTickets(c, states, events, j);
    if j <= i {
      TicketsGrow(events, j, i);
    }
  }

  lemma {:induction false} TicketsGrow(events: seq<Event>, j: nat, i: nat)
    requires j <= i <= |events|
    ensures Tickets(events[..j]) <= Tickets(events[..i])
    decreases i - j
  {
    if j < i {
      TicketsGrow(events, j, i - 1);
      assert events[..i][..i - 1] == events[..i - 1];
    }
  }

  // ---- the fate of a message ----

  /** The reply that event `j` adds. */
  ghost predicate Adds(states: seq<State>, j: nat, r: Sent)
    requires j + 1 < |states|
  {
    states[j + 1].replies == states[j].replies + [r]
  }

  /** How a message is answered that does not wait, or whose lookup could not be called. */
  function AtOnce(e: Event): Sent
    requires e.Submit? && !(Waits(e) && e.called)
  {
    Sent(e.message, e.id, e.text, e.deadline, if Waits(e) then e.later else e.now, false,
         if e.invalid.Some? then Refused(Invalid(e.invalid.value))
         else if e.now > e.deadline then Expired
         else Refused(UnverifiedSender))
  }

  lemma AnsweredAtOnce(c: Config, states: seq<State>, events: seq<Event>, i: nat)
    requires IsRun(c, states, events) && i < |events| && events[i].Submit? && !(Waits(events[i]) && events[i].called)
    ensures Adds(states, i, AtOnce(events[i]))
  {
    RunHolds(c, states, events, i);
    assert Enabled(states[i], events[i]) && states[i + 1] == Next(c, states[i], events[i]);
    StepAnswersRight(c, states[i], events[i]);
  }

  /** `r` is how the waiting message `e` is answered in state `s` when `closing` closes its lookup. */
  ghost predicate Answered(c: Config, s: State, e: Event, closing: Event, r: Sent)
    requires e.Submit? && closing.Answer?
  {
    var l := LookupFor(e, false);
    if closing.verified then IsAdmitted(r, l, closing.at) && RightAnswer(c, s, r) else r == Refusing(l, closing.at)
  }

  /** A waiting message is answered by the first event that closes its lookup: refused unless that is a
      verified answer, and else admitted with the one right answer. */
  lemma AnsweredByFirstClosing(c: Config, states: seq<State>, events: seq<Event>, i: nat, k: nat, j: nat)
    requires IsRun(c, states, events) && WaitsFor(events, i, k) && events[i].called && FirstClosing(events, k, j)
    ensures exists r :: Adds(states, j, r) && Answered(c, states[j], events[i], events[j], r)
  {
    NoLookupBeforeTicket(c, states, events, i, k, j);
    LookupOfMessage(c, states, events, i, k, j);
    RunHolds(c, states, events, j);
    assert Enabled(states[j], events[j]) && states[j + 1] == Next(c, states[j], events[j]);
    StepAnswersRight(c, states[j], events[j]);
    var before, after := states[j].replies, states[j + 1].replies;
    assert after == before + [after[|before|]];
    assert Adds(states, j, after[|before|]);
  }

  lemma {:induction false} SubmittedByEvent(c: Config, states: seq<State>, events: seq<Event>, n: nat, m: nat)
    returns (i: nat)
    requires IsRun(c, states, events) && n <= |events| && m in states[n].submitted
    ensures i < n && events[i].Submit? && events[i].message == m
  {
    assert n > 0;
    assert Enabled(states[n - 1], events[n - 1]) && states[n] == Next(c, states[n - 1], events[n - 1]);
    if m in states[n - 1].submitted {
      i := SubmittedByEvent(c, states, events, n - 1, m);
    } else {
      SubmittedGrows(c, states[n - 1], events[n - 1]);
      i := n - 1;
    }
  }

  lemma SubmittedGrows(c: Config, s: State, e: Event)
    requires Enabled(s, e)
    ensures Next(c, s, e).submitted == s.submitted + if e.Submit? then {e.message} else {}
  {
  }

  /** Event `j` verifies the sender of event `i`'s message, and no answer, error or timeout came before. */
  ghost predicate VerifiedFirst(events: seq<Event>, i: nat, j: nat) {
    && i < |events| && Waits(events[i]) && events[i].called
    && FirstClosing(events, Tickets(events[..i]), j) && events[j].verified
  }

  lemma {:induction false} SomeFirstClosing(events: seq<Event>, k: nat, j: nat) returns (first: nat)
    requires j < |events| && Closes(events[j], k)
    ensures first <= j && FirstClosing(events, k, first)
  {
    if h :| 0 <= h < j && Closes(events[h], k) {
      first := SomeFirstClosing(events, k, h);
    } else {
      first := j;
    }
  }

  lemma AddedIsTheOne(c: Config, states: seq<State>, events: seq<Event>, n: nat, x: nat, j: nat, r: Sent)
    requires IsRun(c, states, events) && j < n <= |events| && x < |states[n].replies|
    requires Adds(states, j, r) && r.message == states[n].replies[x].message
    ensures states[n].replies[x] == r
  {
    RepliesGrow(c, states, events, j + 1, n);
    RunHolds(c, states, events, n);
    RepliesAreSingle(c, states[n]);
    var y := |states[j].replies|;
    assert states[n].replies[y] == states[j + 1].replies[y] == r;
  }

  /** The reply is how the message of event `i` had to be answered. */
  ghost predicate Explains(c: Config, states: seq<State>, events: seq<Event>, n: nat, i: nat, r: Sent)
    requires n <= |events| && |states| == |events| + 1
  {
    && i < n && events[i].Submit? && events[i].message == r.message
    && if Waits(events[i]) && events[i].called then
         exists j: nat :: j < n && FirstClosing(events, Tickets(events[..i]), j)
                       && Answered(c, states[j], events[i], events[j], r)
       else r == AtOnce(events[i])
  }

  /** In every run every reply is the one that the events call for: at once, or by the first event that
      closed the lookup. */
  lemma EveryReplyIsExplained(c: Config, states: seq<State>, events: seq<Event>, n: nat, x: nat) returns (i: nat)
    requires IsRun(c, states, events) && n <= |events| && x < |states[n].replies|
    ensures Explains(c, states, events, n, i, states[n].replies[x])
  {
    var r := states[n].replies[x];
    RunHolds(c, states, events, n);
    StaysInHistory(c, states[n].replies, x);
    i := SubmittedByEvent(c, states, events, n, r.message);
    if Waits(events[i]) && events[i].called {
      var k := Tickets(events[..i]);
      LookupOfMessage(c, states, events, i, k, n);
      assert states[n].lookups[k].message == r.message;
      var h :| i < h < n && Closes(events[h], k);
      var j := SomeFirstClosing(events, k, h);
      AnsweredByFirstClosing(c, states, events, i, k, j);
      var added :| Adds(states, j, added) && Answered(c, states[j], events[i], events[j], added);
      AddedIsTheOne(c, states, events, n, x, j, added);
    } else {
      AnsweredAtOnce(c, states, events, i);
      AddedIsTheOne(c, states, events, n, x, i, AtOnce(events[i]));
    }
  }

  /** In every run a message is admitted exactly if the first event that closed its lookup verified its
      sender. */
  lemma AdmittedIffVerifiedFirst(c: Config, states: seq<State>, events: seq<Event>, n: nat, x: nat)
    requires IsRun(c, states, events) && n <= |events| && x < |states[n].replies|
    ensures var r := states[n].replies[x];
            r.admitted <==>
              exists i: nat, j: nat :: j < n && VerifiedFirst(events, i, j) && events[i].message == r.message
  {
    var r := states[n].replies[x];
    var i := EveryReplyIsExplained(c, states, events, n, x);
    if r.admitted {
      var j: nat :| j < n && FirstClosing(events, Tickets(events[..i]), j)
        && Answered(c, states[j], events[i], events[j], r);
      assert VerifiedFirst(events, i, j);
    }
    if h: nat, j: nat :| j < n && VerifiedFirst(events, h, j) && events[h].message == r.message {
      AnsweredByFirstClosing(c, states, events, h, Tickets(events[..h]), j);
      var added :| Adds(states, j, added) && Answered(c, states[j], events[h], events[j], added);
      AddedIsTheOne(c, states, events, n, x, j, added);
    }
  }
}
