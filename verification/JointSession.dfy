/**
  The lease of one client and the locks of the server taken together: what the events of `Lease` do to
  the lock table, in any interleaving with the lock handlers, the client's own and everybody else's.
*/
module JointSession {
  import opened Options
  import opened LockSpec
  import opened LockInvariant
  import opened SessionEnd
  import opened Failover
  import opened Outcomes
  import Lease

  datatype Joint = Joint(world: Lease.World, server: State)

  /** `claims` matters for a keep-alive that leads into recovery only. */
  datatype JointEvent = Timed(e: Lease.Event, claims: seq<Claim>) | Handled(op: Op)

  /** The handlers that `Lease` has as events. */
  predicate IsSessionOp(op: Op) {
    op.OpCreate? || op.OpClose? || op.OpTimeout? || op.OpJeopardy?
  }

  /** The turn that finds nothing left of the lease. */
  predicate TimesOut(w: Lease.World, e: Lease.Event) {
    && e.Look? && w.session.Some? && e.k < |w.threads| && w.threads[e.k].Looping?
    && e.k < |Lease.Next(w, e).threads| && Lease.Next(w, e).threads[e.k].Gone?
  }

  /** The keep-alive that the handler cannot answer at once. */
  predicate Recovers(w: Lease.World, e: Lease.Event) {
    e.KeepAlive? && Lease.Next(w, e).recovering == w.recovering + 1
  }

  /** What an event of the lease runs on the lock table. */
  ghost function TimedStep(j: Joint, c: Client, e: Lease.Event, claims: seq<Claim>): State {
    if TimesOut(j.world, e) then Step(j.server, OpTimeout(c))
    else if Recovers(j.world, e) then Step(j.server, OpJeopardy(c, claims))
    else if e.Create? && j.world.client.Some? then Step(j.server, OpCreate(c))
    else if e.Close? then Step(j.server, OpClose(c))
    else j.server
  }

  predicate IsTerminated(st: State, c: Client) {
    c in st.sessions && st.sessions[c].terminated
  }

  ghost function Next(j: Joint, c: Client, e: JointEvent): Joint {
    match e
    case Handled(op) => if op.c == c && IsSessionOp(op) then j else j.(server := Step(j.server, op))
    case Timed(e, claims) =>
      var server, world := TimedStep(j, c, e, claims), Lease.Next(j.world, e);
      Joint(if Recovers(j.world, e) && IsTerminated(server, c) then Lease.Next(world, Lease.Close) else world, server)
  }

  ghost function Run(j: Joint, c: Client, events: seq<JointEvent>): Joint {
    if events == [] then j else Next(Run(j, c, events[..|events| - 1]), c, events[|events| - 1])
  }

  // ----- the two sides agree on the session -----

  ghost predicate Coupled(j: Joint, c: Client) {
    && Inv(j.server) && Lease.Safe(j.world)
    && (j.world.session.Some? <==> c in j.server.sessions)
    && (j.world.session.Some? ==> j.world.session.value.terminated == j.server.sessions[c].terminated)
  }

  /** Only the session handlers of `c` touch whether it has a session, and whether that is terminated. */
  lemma SessionStays(st: State, op: Op, c: Client)
    requires Inv(st) && (op.c != c || !IsSessionOp(op))
    ensures c in Step(st, op).sessions <==> c in st.sessions
    ensures IsTerminated(Step(st, op), c) <==> IsTerminated(st, c)
  {
    hide EndSession; hide ClaimAll;
    match op
    case OpClose(d) => if d in st.sessions { EndSessionGivesUpOwnedPrefix(st, d); }
    case OpTimeout(d) => if d in st.sessions { EndSessionGivesUpOwnedPrefix(st, d); }
    case OpDelete(d, p) => DeleteNeverRemoves(st, d, p);
    case OpJeopardy(d, claims) => JeopardySessions(st, d, claims); JeopardyNeverDisturbsOthers(st, d, claims);
    case _ =>
  }

  lemma EndedSession(st: State, c: Client)
    requires Inv(st) && c in st.sessions
    ensures IsTerminated(Step(st, OpTimeout(c)), c) && IsTerminated(Step(st, OpClose(c)), c)
  {
    EndSessionTerminates(st, c);
  }

  lemma RecoveredSession(st: State, c: Client, claims: seq<Claim>)
    requires Inv(st)
    ensures c in Step(st, OpJeopardy(c, claims)).sessions
    ensures IsTerminated(st, c) ==> IsTerminated(Step(st, OpJeopardy(c, claims)), c)
  {
    JeopardySessions(st, c, claims);
    if IsTerminated(st, c) { StepKeepsTerminated(st, OpJeopardy(c, claims), c); }
  }

  predicate Ended(w: Lease.World) {
    w.session.Some? && w.session.value.terminated
  }

  /** What an event of the lease does to the session, in the cases of `TimedStep`. */
  lemma SessionInTheWorld(w: Lease.World, e: Lease.Event)
    requires Lease.Safe(w)
    ensures var after := Lease.Next(w, e);
      if TimesOut(w, e) then w.session.Some? && Ended(after)
      else if Recovers(w, e) then after.session.Some? && (w.session.Some? <==> Ended(w)) && (Ended(after) <==> Ended(w))
      else if e.Create? && w.client.Some? then after.session.Some? && (Ended(after) <==> Ended(w))
      else if e.Close? then (after.session.Some? <==> w.session.Some?) && (w.session.Some? ==> Ended(after))
      else (after.session.Some? <==> w.session.Some?) && (Ended(after) <==> Ended(w))
  {
  }

  /** The same cases on the server. */
  lemma SessionOnTheServer(j: Joint, c: Client, e: Lease.Event, claims: seq<Claim>)
    requires Inv(j.server)
    ensures var st, after := j.server, TimedStep(j, c, e, claims);
      && Inv(after)
      && if TimesOut(j.world, e) then c in st.sessions ==> IsTerminated(after, c)
         else if Recovers(j.world, e) then c in after.sessions && (IsTerminated(st, c) ==> IsTerminated(after, c))
         else if e.Create? && j.world.client.Some? then c in after.sessions && (IsTerminated(after, c) <==> IsTerminated(st, c))
         else if e.Close? then (c in after.sessions <==> c in st.sessions) && (c in st.sessions ==> IsTerminated(after, c))
         else after == st
  {
    StepKeepsInv(j.server, OpTimeout(c));
    StepKeepsInv(j.server, OpJeopardy(c, claims));
    StepKeepsInv(j.server, OpCreate(c));
    StepKeepsInv(j.server, OpClose(c));
    RecoveredSession(j.server, c, claims);
    if c in j.server.sessions { EndedSession(j.server, c); }
    hide Inv; hide TimesOut; hide Recovers; hide EndSession; hide Jeopardy;
  }

  lemma TimedKeepsCoupled(j: Joint, c: Client, e: Lease.Event, claims: seq<Claim>)
    requires Coupled(j, c)
    ensures Coupled(Next(j, c, Timed(e, claims)), c)
  {
    var world := Lease.Next(j.world, e);
    Lease.NextKeepsSafe(j.world, e);
    Lease.NextKeepsSafe(world, Lease.Close);
    SessionInTheWorld(j.world, e);
    SessionInTheWorld(world, Lease.Close);
    SessionOnTheServer(j, c, e, claims);
    assert Lease.Next(world, Lease.Close).session.Some? <==> world.session.Some?;
    assert world.session.Some? ==> Ended(Lease.Next(world, Lease.Close));
    hide Inv; hide Lease.Safe; hide Lease.Next; hide TimedStep; hide TimesOut; hide Recovers;
  }

  lemma NextKeepsCoupled(j: Joint, c: Client, e: JointEvent)
    requires Coupled(j, c)
    ensures Coupled(Next(j, c, e), c)
  {
    if e.Timed? {
      TimedKeepsCoupled(j, c, e.e, e.claims);
    } else if e.op.c != c || !IsSessionOp(e.op) {
      StepKeepsInv(j.server, e.op);
      SessionStays(j.server, e.op, c);
    }
  }

  lemma {:induction false} RunKeepsCoupled(j: Joint, c: Client, events: seq<JointEvent>)
    requires Coupled(j, c)
    ensures Coupled(Run(j, c, events), c)
  {
    if events != [] {
      RunKeepsCoupled(j, c, events[..|events| - 1]);
      NextKeepsCoupled(Run(j, c, events[..|events| - 1]), c, events[|events| - 1]);
    }
  }

  // ----- a terminated session without threads -----

  ghost predicate AllGone(w: Lease.World) {
    forall k :: 0 <= k < |w.threads| ==> w.threads[k].Gone?
  }

  /** A session that is over: no thread looks at it again, and its length still fits the answer. */
  ghost predicate Over(j: Joint, c: Client) {
    && Coupled(j, c) && IsTerminated(j.server, c) && AllGone(j.world)
    && j.world.session.value.length < Lease.TWO_31
  }

  lemma OverStaysOver(j: Joint, c: Client, e: JointEvent)
    requires Over(j, c) && !(e.Timed? && e.e.Create?)
    ensures Over(Next(j, c, e), c)
    ensures e.Timed? ==> Next(j, c, e).server == j.server
  {
    NextKeepsCoupled(j, c, e);
    if e.Handled? {
      if e.op.c != c || !IsSessionOp(e.op) { SessionStays(j.server, e.op, c); }
    } else {
      Lease.NarrowNeverGrows(j.world.session.value.length);
      hide Coupled; hide Inv;
    }
  }

  /**
    Once every thread of a terminated session is gone, and until the client starts a session again, a
    lock that it still holds is freed by its own release and by nothing else: over every interleaving of
    keep-alives, closes and looks with the handlers of all clients.
  */
  lemma {:induction false} OnlyItsReleaseFrees(j: Joint, c: Client, p: Path, m: Mode, events: seq<JointEvent>)
    requires Over(j, c) && Holds(j.server, c, p, m)
    requires forall i :: 0 <= i < |events| ==> events[i] != Handled(OpRelease(c, p)) && !(events[i].Timed? && events[i].e.Create?)
    ensures Over(Run(j, c, events), c) && Holds(Run(j, c, events).server, c, p, m)
  {
    if events != [] {
      var front, e := events[..|events| - 1], events[|events| - 1];
      OnlyItsReleaseFrees(j, c, p, m, front);
      var before := Run(j, c, front);
      OverStaysOver(before, c, e);
      if e.Handled? && (e.op.c != c || !IsSessionOp(e.op)) {
        TerminatedSessionKeepsItsLock(before.server, e.op, c, p, m);
      }
    }
  }

  lemma StartIsCoupled(now: int, files: map<Path, string>, c: Client)
    ensures Coupled(Joint(Lease.Start(now), Init(files)), c)
  {
  }

  /** In particular from the start of the system, after any history. */
  lemma OnlyItsReleaseFreesOnEveryRun(now: int, files: map<Path, string>, c: Client, before: seq<JointEvent>,
                                      p: Path, m: Mode, after: seq<JointEvent>)
    requires var j := Run(Joint(Lease.Start(now), Init(files)), c, before);
      && IsTerminated(j.server, c) && AllGone(j.world) && Holds(j.server, c, p, m)
      && j.world.session.Some? && j.world.session.value.length < Lease.TWO_31
    requires forall i :: 0 <= i < |after| ==> after[i] != Handled(OpRelease(c, p)) && !(after[i].Timed? && after[i].e.Create?)
    ensures Holds(Run(Run(Joint(Lease.Start(now), Init(files)), c, before), c, after).server, c, p, m)
  {
    StartIsCoupled(now, files, c);
    RunKeepsCoupled(Joint(Lease.Start(now), Init(files)), c, before);
    OnlyItsReleaseFrees(Run(Joint(Lease.Start(now), Init(files)), c, before), c, p, m, after);
  }

  /** And its own release does free it. */
  lemma ItsReleaseFrees(j: Joint, c: Client, p: Path)
    requires Coupled(j, c) && Owns(j.server, c, p)
    ensures !Owns(Next(j, c, Handled(OpRelease(c, p))).server, c, p)
  {
    ReleaseAnswers(j.server, c, p);
    ReleaseHoldings(j.server, c, p);
  }

  /** The handlers of everybody else, and the client's own for locks and files, run as they are. */
  lemma HandlersRun(j: Joint, c: Client, op: Op)
    requires op.c != c || !(op.OpCreate? || op.OpClose? || op.OpTimeout? || op.OpJeopardy?)
    ensures Next(j, c, Handled(op)) == j.(server := Step(j.server, op))
  {
  }

  /** The turn that finds the lease over ends the session, with its locks. */
  lemma TimeoutGivesUpTheLocks(j: Joint, c: Client, e: Lease.Event, claims: seq<Claim>)
    requires Coupled(j, c) && TimesOut(j.world, e) && AllEntriesOwned(j.server, c)
    ensures forall p :: !Owns(Next(j, c, Timed(e, claims)).server, c, p)
  {
    EndSessionReleasesEverything(j.server, c);
  }

  /**
    A keep-alive that finds no session presents the claims: the client then holds exactly those behind
    the last refused one, and the lease is terminated from the start exactly if one was refused.
  */
  lemma KeepAliveRecovers(j: Joint, c: Client, claims: seq<Claim>)
    requires Coupled(j, c) && j.world.client.Some? && j.world.session.None? && DistinctPaths(claims)
    ensures var after := Next(j, c, Timed(Lease.KeepAlive(true, false), claims));
      && (forall p, m :: Holds(after.server, c, p, m) <==> Survives(j.server, claims, p, m))
      && after.world.session.Some?
      && (after.world.session.value.terminated <==> !AllCompatible(j.server, claims))
  {
    TimedKeepsCoupled(j, c, Lease.KeepAlive(true, false), claims);
    JeopardyOutcome(j.server, c, claims);
    hide Inv; hide Jeopardy; hide Lease.Safe; hide Survives;
  }
}
