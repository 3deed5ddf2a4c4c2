/** When a client whose next keep-alive is always waiting keeps its session, and when it loses it. */
module LeaseRenewal {
  import opened Options
  import opened Lease

  /** One turn of the maintenance loop, by its two readings of the clock. */
  datatype Turn = Turn(n1: int, n2: int)

  /** The waiting keep-alive takes the token as soon as there is one. */
  function Attended(w: World, turns: seq<Turn>): World
    decreases |turns|
  {
    if turns == [] then w
    else Attended(Next(Next(w, Look(0, turns[0].n1, turns[0].n2)), KeepAlive(true, false)), turns[1..])
  }

  /** Every turn sleeps for at least a second, and takes its readings in order. */
  predicate Spaced(turns: seq<Turn>, due: int) {
    turns == [] || (due <= turns[0].n1 <= turns[0].n2 && Spaced(turns[1..], turns[0].n2 + SECOND))
  }

  lemma {:induction false} NoneBeforeItIsDue(turns: seq<Turn>, due: int, i: nat)
    requires Spaced(turns, due) && i < |turns|
    ensures due <= turns[i].n1 <= turns[i].n2
  {
    if i > 0 { NoneBeforeItIsDue(turns[1..], turns[0].n2 + SECOND, i - 1); }
  }

  /** A live session between two turns, every token taken. */
  predicate Maintained(w: World) {
    && HasLiveSession(w) && w.client.Some? && w.tokens == 0
    && |w.threads| == 1 && w.threads[0].Looping? && w.now <= w.threads[0].due
  }

  /** The turn sees something left of the lease, and no more than a second. */
  predicate Renews(s: ServerLease, t: Turn) {
    t.n1 < Expiry(s) && t.n2 != Expiry(s) && Expiry(s) - t.n2 <= SECOND
  }

  lemma {:induction false} QuietTurns(w: World, turns: seq<Turn>)
    requires Maintained(w) && Spaced(turns, w.threads[0].due)
    requires forall i :: 0 <= i < |turns| ==> turns[i].n2 < Expiry(w.session.value) - SECOND
    ensures Attended(w, turns).session == w.session
    decreases |turns|
  {
    if turns != [] {
      NoneBeforeItIsDue(turns, w.threads[0].due, 0);
      assert turns[0].n2 < Expiry(w.session.value) - SECOND;
      QuietTurns(Next(Next(w, Look(0, turns[0].n1, turns[0].n2)), KeepAlive(true, false)), turns[1..]);
    }
  }

  lemma {:induction false} TerminatedForGood(w: World, turns: seq<Turn>)
    requires w.session.Some? && w.session.value.terminated
    ensures !HasLiveSession(Attended(w, turns))
    decreases |turns|
  {
    if turns != [] {
      TerminatedForGood(Next(Next(w, Look(0, turns[0].n1, turns[0].n2)), KeepAlive(true, false)), turns[1..]);
    }
  }

  /**
    The turns of one lease window, the last of which comes when the lease is over: the session of an
    attentive client survives it exactly if some turn falls into the last second of the lease. It then
    has 15 more seconds.
  */
  lemma {:induction false} AttentiveClientSurvivesIff(w: World, turns: seq<Turn>)
    requires Maintained(w) && Spaced(turns, w.threads[0].due)
    requires turns != [] && Expiry(w.session.value) <= turns[|turns| - 1].n1
    requires forall i :: 0 <= i < |turns| ==> turns[i].n2 < Expiry(w.session.value) + 14 * SECOND
    ensures HasLiveSession(Attended(w, turns)) <==> exists i :: 0 <= i < |turns| && Renews(w.session.value, turns[i])
    ensures HasLiveSession(Attended(w, turns)) ==>
      Attended(w, turns).session == Some(w.session.value.(length := w.session.value.length + DEFAULT_LEASE_EXTENSION))
    decreases |turns|
  {
    var s, t, rest := w.session.value, turns[0], turns[1..];
    NoneBeforeItIsDue(turns, w.threads[0].due, 0);
    var after := Next(Next(w, Look(0, t.n1, t.n2)), KeepAlive(true, false));
    if Renews(s, t) {
      QuietTurns(after, rest);
    } else if Expiry(s) <= t.n1 || t.n2 == Expiry(s) {
      TerminatedForGood(after, rest);
      forall i | 0 <= i < |turns| ensures !Renews(s, turns[i]) {
        if i > 0 { NoneBeforeItIsDue(rest, t.n2 + SECOND, i - 1); }
      }
    } else {
      AttentiveClientSurvivesIff(after, rest);
      assert forall i :: 0 < i < |turns| ==> turns[i] == rest[i - 1];
      assert forall i :: 0 <= i < |rest| ==> rest[i] == turns[i + 1];
    }
  }

  /** A run in which the turns come at 28.5 and 30 seconds, and the session ends while its client waits. */
  lemma AttentiveClientCanLoseItsSession()
    ensures exists events ::
      var w := Run(Start(0), events);
      var turns := [Turn(57 * SECOND / 2, 57 * SECOND / 2), Turn(30 * SECOND, 30 * SECOND)];
      Maintained(w) && Spaced(turns, w.threads[0].due) && !HasLiveSession(Attended(w, turns))
  {
    var first := RunThree(Start(0), ClientStart, Create, Launch(0));
    var w := Run(Start(0), first);
    RunSnoc(Start(0), first, KeepAlive(true, false));
    var v := Run(Start(0), first + [KeepAlive(true, false)]);
    hide Run;
    assert v == World(0, Some(ClientLease(0, 12000, false)), Some(ServerLease(0, 30000, false)),
                      [Looping(0)], 0, 0, {30000}, false);
    LateTurns(v);
  }

  lemma LateTurns(v: World)
    requires Maintained(v) && v.threads[0].due == 0 && v.session == Some(ServerLease(0, 30000, false))
    ensures var turns := [Turn(57 * SECOND / 2, 57 * SECOND / 2), Turn(30 * SECOND, 30 * SECOND)];
      Spaced(turns, 0) && !HasLiveSession(Attended(v, turns))
  {
    var turns := [Turn(57 * SECOND / 2, 57 * SECOND / 2), Turn(30 * SECOND, 30 * SECOND)];
    assert turns[1..][1..] == [];
    AttentiveClientSurvivesIff(v, turns);
    forall i | 0 <= i < |turns| ensures !Renews(v.session.value, turns[i]) {
      assert turns[i] == if i == 0 then Turn(57 * SECOND / 2, 57 * SECOND / 2) else Turn(30 * SECOND, 30 * SECOND);
    }
  }
}
