/** What holds in every run of the `Submit` server: replies, acceptances, replays and work, read off
    the history of replies. */
module SubmitRuns {
  import opened Basics
  import opened SubmitServer

  // ---- runs ----

  predicate Possible(c: Config, s: State, events: seq<Event>)
    decreases |events|
  {
    events == [] || (Enabled(s, events[0]) && Possible(c, Next(c, s, events[0]), events[1..]))
  }

  function Run(c: Config, s: State, events: seq<Event>): State
    requires Possible(c, s, events)
    decreases |events|
  {
    if events == [] then s else Run(c, Next(c, s, events[0]), events[1..])
  }

  lemma {:induction false} RunKeeps(c: Config, s: State, events: seq<Event>)
    requires Inv(c, s) && Possible(c, s, events)
    ensures Inv(c, Run(c, s, events))
    decreases |events|
  {
    if events != [] {
      StepKeeps(c, s, events[0]);
      RunKeeps(c, Next(c, s, events[0]), events[1..]);
    }
  }

  lemma InitialHolds(c: Config, clock: nat)
    ensures Inv(c, Initial(clock))
  {
  }

  lemma {:induction false} InEveryRun(c: Config, clock: nat, events: seq<Event>)
    requires Possible(c, Initial(clock), events)
    ensures Inv(c, Run(c, Initial(clock), events))
  {
    InitialHolds(c, clock);
    RunKeeps(c, Initial(clock), events);
  }

  // ---- reading the history ----

  /** Every reply was fitting when it was sent. */
  lemma {:induction false} FittingAt(c: Config, replies: seq<Sent>, j: nat)
    requires History(c, replies) && j < |replies|
    ensures History(c, replies[..j]) && Fitting(c, replies[..j], replies[j])
  {
    var n := |replies| - 1;
    if j < n {
      FittingAt(c, replies[..n], j);
      assert replies[..n][..j] == replies[..j];
    }
  }

  /** An earlier reply is still visible in what the history adds up to. */
  lemma {:induction false} StaysInHistory(c: Config, replies: seq<Sent>, i: nat)
    requires History(c, replies) && i < |replies|
    ensures replies[i].message in AnsweredIn(replies)
    ensures IsNew(replies[i]) ==>
        replies[i].id in SeenIn(c, replies) && SeenIn(c, replies)[replies[i].id] == c.sha(replies[i].text)
    ensures IsNew(replies[i]) && !c.noLimits ==> replies[i].at <= LastAcceptedIn(replies)
  {
    var n := |replies| - 1;
    if i < n {
      StaysInHistory(c, replies[..n], i);
    }
  }

  lemma {:induction false} SeenWasAccepted(c: Config, replies: seq<Sent>, id: Id) returns (i: nat)
    requires History(c, replies) && id in SeenIn(c, replies)
    ensures i < |replies| && IsNew(replies[i]) && replies[i].id == id
  {
    var n := |replies| - 1;
    if IsNew(replies[n]) && replies[n].id == id {
      i := n;
    } else {
      i := SeenWasAccepted(c, replies[..n], id);
    }
  }

  lemma {:induction false} AnsweredHasReply(replies: seq<Sent>, m: nat) returns (i: nat)
    requires m in AnsweredIn(replies)
    ensures i < |replies| && replies[i].message == m
  {
    var n := |replies| - 1;
    if replies[n].message == m {
      i := n;
    } else {
      i := AnsweredHasReply(replies[..n], m);
    }
  }

  /** One reply a message, and a message without one still has its lookup open. */
  ghost predicate OneReplyEach(s: State) {
    && (forall i, j :: 0 <= i < j < |s.replies| ==> s.replies[i].message != s.replies[j].message)
    && (forall m :: m in s.submitted ==>
          ((exists i :: 0 <= i < |s.replies| && s.replies[i].message == m)
           <==> !exists k :: 0 <= k < |s.lookups| && s.lookups[k].message == m && !s.lookups[k].done))
  }

  lemma RepliesAreSingle(c: Config, s: State)
    requires Inv(c, s)
    ensures OneReplyEach(s)
  {
    forall i, j | 0 <= i < j < |s.replies| ensures s.replies[i].message != s.replies[j].message {
      FittingAt(c, s.replies, j);
      StaysInHistory(c, s.replies[..j], i);
    }
    forall m | m in s.submitted
      ensures (exists i :: 0 <= i < |s.replies| && s.replies[i].message == m)
              <==> !exists k :: 0 <= k < |s.lookups| && s.lookups[k].message == m && !s.lookups[k].done
    {
      if m in s.pending {
        forall i | 0 <= i < |s.replies| ensures s.replies[i].message != m {
          StaysInHistory(c, s.replies, i);
        }
      } else {
        var i := AnsweredHasReply(s.replies, m);
      }
    }
  }

  /** In every run: one reply a message, and a message without one still has its lookup open. */
  lemma {:induction false} NoMessageIsAnsweredTwice(c: Config, clock: nat, events: seq<Event>)
    requires Possible(c, Initial(clock), events)
    ensures OneReplyEach(Run(c, Initial(clock), events))
  {
    InEveryRun(c, clock, events);
    RepliesAreSingle(c, Run(c, Initial(clock), events));
  }

  ghost predicate OnceOnTimeAndSpaced(c: Config, r: seq<Sent>) {
    && (forall j :: 0 <= j < |r| && IsNew(r[j]) ==> r[j].at <= r[j].deadline)
    && (forall i, j :: 0 <= i < j < |r| && IsNew(r[i]) && IsNew(r[j]) ==>
          r[i].id != r[j].id && (!c.noLimits ==> r[j].at - r[i].at >= 500))
  }

  lemma {:induction false} HistoryIsSpaced(c: Config, r: seq<Sent>)
    requires History(c, r)
    ensures OnceOnTimeAndSpaced(c, r)
  {
    forall j | 0 <= j < |r| && IsNew(r[j]) ensures r[j].at <= r[j].deadline {
      FittingAt(c, r, j);
    }
    forall i, j | 0 <= i < j < |r| && IsNew(r[i]) && IsNew(r[j])
      ensures r[i].id != r[j].id && (!c.noLimits ==> r[j].at - r[i].at >= 500)
    {
      FittingAt(c, r, j);
      StaysInHistory(c, r[..j], i);
    }
  }

  /** In every run: an id is newly accepted at most once, on time, and (with limits on) at least
      half a second after the one before. */
  lemma {:induction false} AcceptedOnceOnTimeAndSpaced(c: Config, clock: nat, events: seq<Event>)
    requires Possible(c, Initial(clock), events)
    ensures OnceOnTimeAndSpaced(c, Run(c, Initial(clock), events).replies)
  {
    InEveryRun(c, clock, events);
    HistoryIsSpaced(c, Run(c, Initial(clock), events).replies);
  }

  /** Once an id is accepted, an admitted message with that id hears `already` for the same
      fingerprint and `request_conflict` for another; nobody else hears `already`. */
  ghost predicate ReplaysRecognised(c: Config, r: seq<Sent>) {
    && (forall i, j :: 0 <= i < j < |r| && IsNew(r[i]) && r[j].admitted && r[j].id == r[i].id ==>
          r[j].reply == if c.sha(r[j].text) == c.sha(r[i].text) then Accepted(true) else Refused(RequestConflict))
    && (forall j :: 0 <= j < |r| && r[j].reply == Accepted(true) ==>
          exists i :: 0 <= i < j && IsNew(r[i]) && r[i].id == r[j].id && c.sha(r[i].text) == c.sha(r[j].text))
  }

  lemma {:induction false} HistoryRecognises(c: Config, r: seq<Sent>)
    requires History(c, r)
    ensures ReplaysRecognised(c, r)
  {
    forall i, j | 0 <= i < j < |r| && IsNew(r[i]) && r[j].admitted && r[j].id == r[i].id
      ensures r[j].reply == if c.sha(r[j].text) == c.sha(r[i].text) then Accepted(true) else Refused(RequestConflict)
    {
      FittingAt(c, r, j);
      StaysInHistory(c, r[..j], i);
    }
    forall j | 0 <= j < |r| && r[j].reply == Accepted(true)
      ensures exists i :: 0 <= i < j && IsNew(r[i]) && r[i].id == r[j].id && c.sha(r[i].text) == c.sha(r[j].text)
    {
      FittingAt(c, r, j);
      var i := SeenWasAccepted(c, r[..j], r[j].id);
      StaysInHistory(c, r[..j], i);
    }
  }

  /** In every run replays are recognised. */
  lemma {:induction false} ReplaysAreRecognised(c: Config, clock: nat, events: seq<Event>)
    requires Possible(c, Initial(clock), events)
    ensures ReplaysRecognised(c, Run(c, Initial(clock), events).replies)
  {
    InEveryRun(c, clock, events);
    HistoryRecognises(c, Run(c, Initial(clock), events).replies);
  }

  /** Work starts at most once for an id, only for an accepted one; the ids seen are exactly those
      started, scheduled and skipped; the queue bound holds. */
  ghost predicate WorkIsOnce(c: Config, s: State) {
    && (forall i, j :: 0 <= i < j < |s.started| ==> s.started[i].id != s.started[j].id)
    && (forall i :: 0 <= i < |s.started| ==>
          exists k :: 0 <= k < |s.replies| && IsNew(s.replies[k]) && s.replies[k].id == s.started[i].id)
    && |s.seen| == s.starts + |s.scheduled| + |s.skipped|
    && 0 <= s.running && (!c.noLimits ==> s.running <= 3)
  }

  lemma AccountedWorkIsOnce(c: Config, s: State)
    requires Told(c, s) && Accounted(c, s)
    ensures WorkIsOnce(c, s)
  {
    StartedIdsDiffer(s);
    forall i | 0 <= i < |s.started|
      ensures exists k :: 0 <= k < |s.replies| && IsNew(s.replies[k]) && s.replies[k].id == s.started[i].id
    {
      var k := SeenWasAccepted(c, s.replies, s.started[i].id);
    }
  }

  lemma {:induction false} WorkStartsOncePerAcceptedId(c: Config, clock: nat, events: seq<Event>)
    requires Possible(c, Initial(clock), events)
    ensures WorkIsOnce(c, Run(c, Initial(clock), events))
  {
    InEveryRun(c, clock, events);
    AccountedWorkIsOnce(c, Run(c, Initial(clock), events));
  }

  lemma StartedIdsDiffer(s: State)
    requires OneJobPerSeenId(s.seen, Jobs(s))
    ensures forall i :: 0 <= i < |s.started| ==> s.started[i].id in s.seen
    ensures forall i, j :: 0 <= i < j < |s.started| ==> s.started[i].id != s.started[j].id
  {
    assert forall i :: 0 <= i < |s.started| ==> s.started[i] in s.started && s.started[i] in Jobs(s);
    forall i, j | 0 <= i < j < |s.started| ensures s.started[i].id != s.started[j].id {
      TwiceInSequence(s.started, i, j);
    }
  }
}
