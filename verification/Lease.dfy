/**
  The lease of one client: the session on the server, the threads that maintain it, the channel of
  reply tokens, the keep-alive handler and the client's own copy of the lease. Times are nanoseconds
  on one clock that never runs backwards; lease lengths are milliseconds, as in the source.
*/
module Lease {
  import opened Options

  const MS := 1_000_000
  const SECOND := 1000 * MS
  const DEFAULT_LEASE_DURATION := 12000
  const DEFAULT_LEASE_EXTENSION := 15000
  const TWO_31 := 0x8000_0000
  const TWO_32 := 0x1_0000_0000

  datatype ServerLease = ServerLease(start: int, length: int, terminated: bool)

  /** `jeopardy`: the client has given up waiting for an answer since it started. */
  datatype ClientLease = ClientLease(start: int, length: int, jeopardy: bool)

  /** A maintenance thread: not yet scheduled, or due for its next look, or gone. */
  datatype Thread = Unscheduled | Looping(due: int) | Gone

  /**
    `replies` are the answers on their way to the client; it may see any of them, at any time.
    `recovering` counts the handlers that wait for a token behind `handle_jeopardy`, and `restarted`
    says that the client has started anew since its id has a session.
  */
  datatype World = World(
    now: int, client: Option<ClientLease>, session: Option<ServerLease>, threads: seq<Thread>,
    tokens: nat, recovering: nat, replies: set<int>, restarted: bool)

  function Expiry(s: ServerLease): int { s.start + s.length * MS }

  function ClientExpiry(c: ClientLease): int { c.start + c.length * MS }

  /** The conversion of the lease length to a 32-bit integer in the handler. */
  function Narrow(x: int): int { (x + TWO_31) % TWO_32 - TWO_31 }

  /**
    What the handler answers for a session of this length. A negative number sends it into recovery,
    which refuses a live session and has to wait for a token of a terminated one.
  */
  function Answer(s: ServerLease): Option<int> {
    if Narrow(s.length) >= 0 then Some(Narrow(s.length)) else if s.terminated then None else Some(-1)
  }

  datatype Event =
    | Pass(time: int)                    // time goes on
    | ClientStart                        // `start_session` on the client, up to the first request, at any time
    | Create                             // `create_session` for a client without a live session
    | Launch(k: nat)                     // a thread starts, with a token for the first keep-alive
    | Look(k: nat, n1: int, n2: int)     // one turn of its loop, with the two readings of the clock
    | KeepAlive(leader: bool, cancelled: bool)   // a handler takes a token, extends and answers
    | Resume                             // a handler in recovery takes a token, extends and answers
    | Close                              // `close_session`
    | Deliver(reply: int)                // the client takes an answer
    | Deadline                           // the client gives up waiting and enters jeopardy

  function Extended(s: ServerLease): ServerLease {
    if s.terminated then s else s.(length := s.length + DEFAULT_LEASE_EXTENSION)
  }

  function TimeUntilExpiry(s: ServerLease, n1: int, n2: int): int {
    if Expiry(s) > n1 then Expiry(s) - n2 else 0
  }

  function AfterLook(w: World, k: nat, n1: int, n2: int): World
    requires w.session.Some? && k < |w.threads|
  {
    var s := w.session.value;
    var left := TimeUntilExpiry(s, n1, n2);
    if left == 0 then
      w.(now := n2, session := Some(s.(terminated := true)), tokens := w.tokens + 1, threads := w.threads[k := Gone])
    else
      w.(now := n2, tokens := if left <= SECOND then w.tokens + 1 else w.tokens,
         threads := w.threads[k := Looping(n2 + SECOND)])
  }

  function Created(w: World): World {
    if w.session.None? then
      w.(session := Some(ServerLease(w.now, DEFAULT_LEASE_EXTENSION, false)), threads := [Unscheduled], tokens := 0)
    else if w.session.value.terminated then w.(threads := w.threads + [Unscheduled])
    else w
  }

  function AfterKeepAlive(w: World): World
    requires w.session.Some? && w.tokens > 0
  {
    var s := Extended(w.session.value);
    var after := w.(session := Some(s), tokens := w.tokens - 1);
    match Answer(s)
    case Some(reply) => after.(replies := w.replies + {reply})
    case None => Created(after).(recovering := w.recovering + 1)
  }

  predicate HasLiveSession(w: World) {
    w.session.Some? && !w.session.value.terminated
  }

  /** An event that is not possible in `w` leaves it alone; so does a request to create a session that lives. */
  function Next(w: World, e: Event): World {
    match e
    case Pass(time) => if w.now <= time then w.(now := time) else w
    case ClientStart =>
      w.(client := Some(ClientLease(w.now, DEFAULT_LEASE_DURATION, false)), restarted := w.session.Some?)
    case Create => if w.client.Some? then Created(w) else w
    case Launch(k) =>
      if w.session.Some? && k < |w.threads| && w.threads[k].Unscheduled? then
        w.(threads := w.threads[k := Looping(w.now)], tokens := w.tokens + 1)
      else w
    case Look(k, n1, n2) =>
      if w.session.Some? && k < |w.threads| && w.threads[k].Looping? && w.threads[k].due <= n1 <= n2 && w.now <= n1 then
        AfterLook(w, k, n1, n2)
      else w
    case KeepAlive(leader, cancelled) =>
      if !leader || cancelled || w.client.None? then w
      else if w.session.None? then Created(w).(recovering := w.recovering + 1)
      else if w.tokens > 0 then AfterKeepAlive(w) else w
    case Resume =>
      if w.recovering > 0 && w.session.Some? && w.tokens > 0 then
        var s := Extended(w.session.value);
        w.(session := Some(s), tokens := w.tokens - 1, recovering := w.recovering - 1,
           replies := w.replies + {Narrow(s.length)})
      else w
    case Close => if w.session.Some? then w.(session := Some(w.session.value.(terminated := true))) else w
    case Deliver(reply) =>
      if w.client.Some? && !w.client.value.jeopardy && reply in w.replies then
        w.(client := Some(w.client.value.(length := reply)))
      else w
    case Deadline => if w.client.Some? then w.(client := Some(w.client.value.(jeopardy := true))) else w
  }

  function Run(w: World, events: seq<Event>): World {
    if events == [] then w else Next(Run(w, events[..|events| - 1]), events[|events| - 1])
  }

  lemma RunSnoc(w: World, events: seq<Event>, e: Event)
    ensures Run(w, events + [e]) == Next(Run(w, events), e)
  {
    assert (events + [e])[..|events|] == events;
  }

  lemma {:induction false} RunConcat(w: World, a: seq<Event>, b: seq<Event>)
    ensures Run(w, a + b) == Run(Run(w, a), b)
    decreases |b|
  {
    hide Next;
    if b == [] {
      assert a + b == a;
    } else {
      var front, last := b[..|b| - 1], b[|b| - 1];
      RunConcat(w, a, front);
      RunSnoc(w, a + front, last);
      assert a + b == (a + front) + [last];
    }
  }

  lemma RunThree(w: World, a: Event, b: Event, c: Event) returns (events: seq<Event>)
    ensures events == [a, b, c] && Run(w, events) == Next(Next(Next(w, a), b), c)
  {
    hide Next;
    assert Run(w, []) == w;
    hide Run;
    RunSnoc(w, [], a);
    assert [] + [a] == [a];
    RunSnoc(w, [a], b);
    assert [a] + [b] == [a, b];
    RunSnoc(w, [a, b], c);
    events := [a, b] + [c];
  }

  function Start(now: int): World {
    World(now, None, None, [], 0, 0, {}, false)
  }

  // ----- the 32-bit answer -----

  /** The conversion keeps the low 32 bits, read as a signed number. */
  lemma NarrowKeepsTheLowBits(x: int)
    ensures -TWO_31 <= Narrow(x) < TWO_31 && (x - Narrow(x)) % TWO_32 == 0
  {
    var q := (x + TWO_31) / TWO_32;
    assert x - Narrow(x) == q * TWO_32;
  }

  lemma NarrowNeverGrows(x: int)
    requires 0 <= x
    ensures Narrow(x) <= x
    ensures Narrow(x) == x <==> x < TWO_31
  {
    if x >= TWO_31 {
      assert (x + TWO_31) % TWO_32 == (x - TWO_31) % TWO_32;
    }
  }

  /**
    The answer is the lease exactly while the length fits a signed 32-bit integer, and never longer. If
    the length reads as a negative number, a live session is answered -1 and a terminated one not yet.
  */
  lemma AnswerIsTheLeaseIff(s: ServerLease)
    requires 0 <= s.length
    ensures Answer(s) == Some(s.length) <==> s.length < TWO_31
    ensures Answer(s).Some? ==> -1 <= Answer(s).value <= s.length
    ensures TWO_31 <= s.length % TWO_32 ==> Answer(s) == if s.terminated then None else Some(-1)
    ensures s.length % TWO_32 < TWO_31 ==> Answer(s) == Some(s.length % TWO_32)
  {
    NarrowNeverGrows(s.length);
  }

  // ----- lease safety -----

  /** The client's copy of the lease ends no later than the session's, unless the client is in jeopardy. */
  predicate Covered(w: World) {
    w.client.Some? && w.session.Some? && !w.client.value.jeopardy ==>
      ClientExpiry(w.client.value) <= Expiry(w.session.value)
  }

  /** Until a restart the client is covered, and so is every answer on its way. */
  ghost predicate Safe(w: World) {
    && (w.session.Some? ==>
      && w.client.Some?
      && w.session.value.length >= DEFAULT_LEASE_EXTENSION
      && w.session.value.start <= w.now
      && w.client.value.length <= w.session.value.length
      && (forall r :: r in w.replies ==> r <= w.session.value.length)
      && (w.restarted ==> w.session.value.start <= w.client.value.start)
      && (!w.restarted ==> w.client.value.start <= w.session.value.start && Covered(w)))
    && (w.session.None? ==> w.replies == {} && !w.restarted && w.recovering == 0)
    && (w.client.Some? ==> w.client.value.start <= w.now)
    && (w.client.Some? && w.session.None? ==> w.client.value.length == DEFAULT_LEASE_DURATION)
  }

  lemma NextKeepsSafe(w: World, e: Event)
    requires Safe(w)
    ensures Safe(Next(w, e))
  {
    if (e.KeepAlive? || e.Resume?) && w.session.Some? {
      NarrowNeverGrows(Extended(w.session.value).length);
    }
  }

  lemma {:induction false} RunIsSafe(now: int, events: seq<Event>)
    ensures Safe(Run(Start(now), events))
  {
    if events != [] {
      RunIsSafe(now, events[..|events| - 1]);
      NextKeepsSafe(Run(Start(now), events[..|events| - 1]), events[|events| - 1]);
    }
  }

  /**
    Lease safety: on every run, for the client's first start, until it enters jeopardy, the server ends
    the session by timeout only at a moment when the client's own lease has run out as well.
  */
  lemma TimeoutNeverPrecedesTheClient(now: int, events: seq<Event>, k: nat, n1: int, n2: int)
    requires var w := Run(Start(now), events);
      HasLiveSession(w) && !w.restarted && w.client.Some? && !w.client.value.jeopardy && !HasLiveSession(Next(w, Look(k, n1, n2)))
    ensures ClientExpiry(Run(Start(now), events).client.value) <= n2
    ensures Next(Run(Start(now), events), Look(k, n1, n2)).now == n2
  {
    RunIsSafe(now, events);
  }

  // ----- how far ahead the server ever promises -----

  /** A thread that has not started yet still owes the token for the first keep-alive. */
  function Owed(w: World): nat {
    if w.threads == [Unscheduled] then w.tokens + 1 else w.tokens
  }

  ghost predicate Bounded(w: World) {
    HasLiveSession(w) ==>
      && |w.threads| == 1 && !w.threads[0].Gone?
      && Owed(w) <= 2 && (w.threads[0].Unscheduled? ==> w.tokens == 0)
      && Expiry(w.session.value) + Owed(w) * DEFAULT_LEASE_EXTENSION * MS <= w.now + 31 * SECOND
      && (w.threads[0].Looping? && w.tokens == 2 ==> Expiry(w.session.value) <= w.threads[0].due)
  }

  lemma NextKeepsBounded(w: World, e: Event)
    requires Bounded(w)
    ensures Bounded(Next(w, e))
  {
  }

  lemma {:induction false} RunIsBounded(now: int, events: seq<Event>)
    ensures Bounded(Run(Start(now), events))
  {
    if events != [] {
      RunIsBounded(now, events[..|events| - 1]);
      NextKeepsBounded(Run(Start(now), events[..|events| - 1]), events[|events| - 1]);
    }
  }

  /**
    Bounded promise: a live session has at most two reply tokens pending, and neither its lease nor
    what the pending tokens can still make of it runs more than 31 seconds past the present. The same
    bound holds for the client's copy until it enters jeopardy or starts anew.
  */
  lemma LeaseNeverExceeds31Seconds(now: int, events: seq<Event>)
    ensures var w := Run(Start(now), events);
      HasLiveSession(w) ==>
        && w.tokens <= 2
        && Expiry(w.session.value) + w.tokens * DEFAULT_LEASE_EXTENSION * MS <= w.now + 31 * SECOND
        && Expiry(w.session.value) <= w.now + 31 * SECOND
        && (w.client.Some? && !w.restarted && !w.client.value.jeopardy ==> ClientExpiry(w.client.value) <= w.now + 31 * SECOND)
  {
    RunIsBounded(now, events);
    RunIsSafe(now, events);
  }

  // ----- what a handler answers -----

  /** The event is a handler that takes a token of a live session. */
  predicate Extends(w: World, e: Event) {
    && HasLiveSession(w) && w.tokens > 0
    && ((e.KeepAlive? && e.leader && !e.cancelled && w.client.Some?) || (e.Resume? && w.recovering > 0))
  }

  function Extensions(w: World, events: seq<Event>): nat {
    if events == [] then 0
    else
      var front, last := events[..|events| - 1], events[|events| - 1];
      Extensions(w, front) + if Extends(Run(w, front), last) then 1 else 0
  }

  lemma {:induction false} LengthCountsExtensions(now: int, events: seq<Event>)
    ensures var w := Run(Start(now), events);
      var n := Extensions(Start(now), events);
      if w.session.Some? then w.session.value.length == DEFAULT_LEASE_EXTENSION * (1 + n) else n == 0
  {
    hide Next; hide Extends;
    if events != [] {
      var front, last := events[..|events| - 1], events[|events| - 1];
      LengthCountsExtensions(now, front);
      LengthAfter(Run(Start(now), front), last);
    }
  }

  lemma LengthAfter(w: World, e: Event)
    ensures w.session.Some? ==>
      && Next(w, e).session.Some?
      && Next(w, e).session.value.length == w.session.value.length + if Extends(w, e) then DEFAULT_LEASE_EXTENSION else 0
    ensures w.session.None? ==>
      !Extends(w, e) && (Next(w, e).session.Some? ==> Next(w, e).session.value.length == DEFAULT_LEASE_EXTENSION)
  {
  }

  /**
    On every interleaving, a handler that comes out of recovery answers 15 seconds for the creation of
    the session and 15 for every extension in the run so far, its own included if the session lives.
  */
  lemma RecoveringHandlerAnswers(now: int, events: seq<Event>)
    requires Run(Start(now), events).recovering > 0 && Run(Start(now), events).tokens > 0
    ensures var w := Run(Start(now), events);
      var n := Extensions(Start(now), events) + if HasLiveSession(w) then 1 else 0;
      && Next(w, Resume).session.Some? && Next(w, Resume).session.value.length == DEFAULT_LEASE_EXTENSION * (1 + n)
      && Next(w, Resume).replies == w.replies + {Narrow(DEFAULT_LEASE_EXTENSION * (1 + n))}
      && Next(w, Resume).recovering == w.recovering - 1
  {
    RunIsSafe(now, events);
    LengthCountsExtensions(now, events);
  }

  /** Such a handler gets there: it opens the session, and the token that the thread starts with is for it. */
  lemma RecoveryOpensAndAnswers(w: World)
    requires Safe(w) && w.client.Some? && w.session.None?
    ensures var v := Next(Next(Next(w, KeepAlive(true, false)), Launch(0)), Resume);
      && v.session == Some(ServerLease(w.now, 30000, false)) && v.threads == [Looping(w.now)]
      && v.replies == {30000} && v.tokens == 0 && v.recovering == 0
  {
  }

  /** A client that gives up waiting is in jeopardy, and takes no answer before it starts anew. */
  lemma DeadlineEndsTheLease(w: World, reply: int)
    requires w.client.Some?
    ensures var v := Next(w, Deadline);
      && v == w.(client := Some(w.client.value.(jeopardy := true)))
      && Next(v, Deliver(reply)) == v && Next(v, ClientStart).client == Some(ClientLease(w.now, 12000, false))
  {
  }

  /** An answer on its way becomes the length of the lease of a client that still waits. */
  lemma DeliveredAnswerIsTheLease(w: World, reply: int)
    requires w.client.Some? && !w.client.value.jeopardy && reply in w.replies
    ensures Next(w, Deliver(reply)) == w.(client := Some(ClientLease(w.client.value.start, reply, false)))
  {
  }

  /** A handler on a server that does not lead, or whose call was cancelled, takes no token and answers nothing. */
  lemma TurnedAway(w: World, leader: bool, cancelled: bool)
    requires !leader || cancelled
    ensures Next(w, KeepAlive(leader, cancelled)) == w
  {
  }
}
