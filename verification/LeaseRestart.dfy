/**
  A client that starts again when its id still has a session, be it terminated or about to be:
  `create_session` answers OK on a terminated one but keeps the old object with its old start, so the
  client counts a new lease from a new start.
*/
module LeaseRestart {
  import opened Options
  import opened Lease

  ghost predicate NoRestart(events: seq<Event>) {
    forall i :: 0 <= i < |events| ==> !events[i].ClientStart?
  }

  ghost predicate NoAnswerNorDeadline(events: seq<Event>) {
    forall i :: 0 <= i < |events| ==> !events[i].Deliver? && !events[i].Deadline?
  }

  predicate Terminated(w: World) {
    w.client.Some? && w.session.Some? && w.session.value.terminated
  }

  /** Every answer that a client on the terminated session of `w` can ever see. */
  function Answers(w: World): set<int>
    requires w.session.Some?
  {
    w.replies + {Narrow(w.session.value.length)}
  }

  /** Neither the session nor the client's start moves, and the client's length comes from an answer. */
  ghost predicate Frozen(w: World, v: World)
    requires Terminated(w)
  {
    && v.session == w.session && v.client.Some? && v.client.value.start == w.client.value.start
    && (w.client.value.jeopardy ==> v.client.value.jeopardy)
    && v.replies <= Answers(w)
    && (v.client.value.length == w.client.value.length || v.client.value.length in Answers(w))
  }

  lemma {:induction false} SessionIsFrozen(w: World, events: seq<Event>)
    requires Terminated(w) && NoRestart(events)
    ensures Frozen(w, Run(w, events))
  {
    hide Frozen; hide Next;
    if events == [] {
      FrozenAtFirst(w);
    } else {
      SessionIsFrozen(w, events[..|events| - 1]);
      FrozenStep(w, Run(w, events[..|events| - 1]), events[|events| - 1]);
    }
  }

  lemma FrozenAtFirst(w: World)
    requires Terminated(w)
    ensures Frozen(w, w)
  {
  }

  lemma FrozenStep(w: World, v: World, e: Event)
    requires Terminated(w) && Frozen(w, v) && !e.ClientStart?
    ensures Frozen(w, Next(v, e))
  {
  }

  lemma {:induction false} ClientIsFrozen(w: World, events: seq<Event>)
    requires NoRestart(events) && NoAnswerNorDeadline(events)
    ensures Run(w, events).client == w.client
  {
    if events != [] {
      ClientIsFrozen(w, events[..|events| - 1]);
    }
  }

  /**
    A client starts, and before it has an answer its session is, or has been, terminated: until the
    first answer it is covered exactly if it started at least the length of its own first lease before
    the end of the session's.
  */
  lemma WindowIsCoveredIff(now: int, before: seq<Event>, after: seq<Event>)
    requires NoRestart(after) && NoAnswerNorDeadline(after)
    requires Terminated(Run(Next(Run(Start(now), before), ClientStart), after))
    ensures var started := Run(Start(now), before).now;
      var w := Run(Next(Run(Start(now), before), ClientStart), after);
      Covered(w) <==> started + DEFAULT_LEASE_DURATION * MS <= Expiry(w.session.value)
  {
    ClientIsFrozen(Next(Run(Start(now), before), ClientStart), after);
  }

  /**
    After an answer the client is covered exactly if its start lies no further behind the session's
    than the answer falls short of the session's length: for an answer of the full length, which is
    what a terminated session gives, only if it started no later than the session.
  */
  lemma AnswerCoversIff(now: int, before: seq<Event>, after: seq<Event>, reply: int)
    requires Terminated(Run(Start(now), before)) && NoRestart(after)
    requires var v := Run(Run(Start(now), before), after);
      v.client.Some? && !v.client.value.jeopardy && reply in v.replies
    ensures var w := Run(Start(now), before);
      var s, start := w.session.value, w.client.value.start;
      var told := Next(Run(w, after), Deliver(reply));
      && reply in Answers(w)
      && (Covered(told) <==> start - s.start <= (s.length - reply) * MS)
      && (reply == s.length ==> (Covered(told) <==> start <= s.start))
  {
    SessionIsFrozen(Run(Start(now), before), after);
  }

  /** What can be checked when the session is terminated, or when the client starts after that. */
  ghost predicate StaysCovered(w: World)
    requires Terminated(w)
  {
    !w.client.value.jeopardy ==>
      && ClientExpiry(w.client.value) <= Expiry(w.session.value)
      && forall r :: r in Answers(w) ==> w.client.value.start + r * MS <= Expiry(w.session.value)
  }

  /**
    From any state with a terminated session, whether the client has started before or after its end:
    the client stays covered on every run exactly if the lease that it has and every answer that it may
    see, counted from its start, end within the session's lease.
  */
  lemma RestartIsSafeIff(now: int, before: seq<Event>)
    requires Terminated(Run(Start(now), before))
    ensures var w := Run(Start(now), before);
      (forall after :: NoRestart(after) ==> Covered(Run(w, after))) <==> StaysCovered(w)
  {
    var w := Run(Start(now), before);
    if StaysCovered(w) {
      forall after | NoRestart(after) ensures Covered(Run(w, after)) {
        SessionIsFrozen(w, after);
      }
    } else {
      var after := UncoveredRun(w);
      assert NoRestart(after) && !Covered(Run(w, after));
    }
  }

  /**
    While lengths fit 32 bits, that is: only if the client started no later than the session; for one
    that has started anew, only at the very moment the session began.
  */
  lemma RestartIsSafeOnlyAtTheStart(now: int, before: seq<Event>)
    requires Terminated(Run(Start(now), before)) && Run(Start(now), before).session.value.length < TWO_31
    ensures var w := Run(Start(now), before);
      var start := w.client.value.start;
      && (StaysCovered(w) <==> w.client.value.jeopardy || start <= w.session.value.start)
      && (w.restarted ==> (start <= w.session.value.start <==> start == w.session.value.start))
  {
    RunIsSafe(now, before);
    var w := Run(Start(now), before);
    NarrowNeverGrows(w.session.value.length);
    assert Narrow(w.session.value.length) in Answers(w);
  }

  lemma UncoveredRun(w: World) returns (after: seq<Event>)
    requires Terminated(w) && !StaysCovered(w)
    ensures NoRestart(after) && !Covered(Run(w, after))
  {
    if ClientExpiry(w.client.value) > Expiry(w.session.value) {
      after := [];
    } else {
      var r :| r in Answers(w) && w.client.value.start + r * MS > Expiry(w.session.value);
      var asked := [];
      if r !in w.replies { asked := AskForAnAnswer(w); }
      RunSnoc(w, asked, Deliver(r));
      after := asked + [Deliver(r)];
      SessionIsFrozen(w, after);
    }
  }

  /** The relaunched thread lets a keep-alive through, behind a further thread if the length exceeds 31 bits. */
  lemma AskForAnAnswer(w: World) returns (events: seq<Event>)
    requires Terminated(w) && !w.client.value.jeopardy
    ensures NoRestart(events) && Narrow(w.session.value.length) in Run(w, events).replies
    ensures Run(w, events).client == w.client
  {
    var n := |w.threads|;
    events := RunThree(w, Create, Launch(n), KeepAlive(true, false));
    if Narrow(w.session.value.length) < 0 {
      RunSnoc(w, events, Launch(n + 1));
      RunSnoc(w, events + [Launch(n + 1)], Resume);
      events := events + [Launch(n + 1)] + [Resume];
    }
  }

  /**
    A run in which the restarted client still counts on its lease when the relaunched thread has ended
    the old session: started at 0, closed and restarted at 5 s, answered 15 s, ended at 15 s.
  */
  lemma RestartedClientOutlivesTheSession()
    ensures exists events, k: nat ::
      var w := Run(Start(0), events);
      && w.restarted && Terminated(w) && k < |w.threads| && w.threads[k].Gone?
      && !w.client.value.jeopardy && w.now < ClientExpiry(w.client.value)
  {
    hide Next; hide Run;
    var events := RestartAtFive();
    var more := EndedAtFifteen();
    RunConcat(Start(0), events, more);
    assert Run(Start(0), events + more).threads[1].Gone?;
  }

  const AT_FIVE := World(5 * SECOND, Some(ClientLease(5 * SECOND, 12000, false)), Some(ServerLease(0, 15000, true)),
                         [Looping(0)], 1, 0, {}, true)

  lemma RestartAtFive() returns (events: seq<Event>)
    ensures Run(Start(0), events) == AT_FIVE
  {
    hide Run;
    var first := RunThree(Start(0), ClientStart, Create, Launch(0));
    var second := RunThree(Run(Start(0), first), Pass(5 * SECOND), Close, ClientStart);
    RunConcat(Start(0), first, second);
    events := first + second;
  }

  lemma EndedAtFifteen() returns (events: seq<Event>)
    ensures Run(AT_FIVE, events) == World(15 * SECOND, Some(ClientLease(5 * SECOND, 15000, false)),
              Some(ServerLease(0, 15000, true)), [Looping(0), Gone], 2, 0, {15000}, true)
  {
    hide Run;
    var first := RunThree(AT_FIVE, Create, Launch(1), KeepAlive(true, false));
    var w := Run(AT_FIVE, first);
    assert w == AT_FIVE.(threads := [Looping(0), Looping(5 * SECOND)], replies := {15000});
    var second := RunThree(w, Deliver(15000), Pass(15 * SECOND), Look(1, 15 * SECOND, 15 * SECOND));
    RunConcat(AT_FIVE, first, second);
    events := first + second;
  }

  /**
    A run in which the client starts anew while its session still lives, and the request arrives when
    the session has timed out: started again at 14.9 s, timed out at 15 s, and then answered OK. The
    timeout precedes the end of the client's lease by 11.9 s.
  */
  lemma StartBeforeTheTimeoutIsOvertaken()
    ensures exists events ::
      var w := Run(Start(0), events);
      && w.restarted && Terminated(w) && |w.threads| == 2 && w.threads[0].Gone? && w.threads[1].Unscheduled?
      && !w.client.value.jeopardy && w.now + 11900 * MS == ClientExpiry(w.client.value)
  {
    hide Run;
    var first := RunThree(Start(0), ClientStart, Create, Launch(0));
    var w := Run(Start(0), first);
    assert w == World(0, Some(ClientLease(0, 12000, false)), Some(ServerLease(0, 15000, false)), [Looping(0)], 1, 0, {}, false);
    var second := RunThree(w, Pass(14900 * MS), ClientStart, Look(0, 15 * SECOND, 15 * SECOND));
    RunConcat(Start(0), first, second);
    RunSnoc(Start(0), first + second, Create);
    assert Run(Start(0), first + second + [Create]).threads[0].Gone?;
  }
}
