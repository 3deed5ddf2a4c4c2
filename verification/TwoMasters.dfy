/**
  An old master that does not know yet that it has been replaced, and the new one. The handlers for
  locks do not look at leadership, so both go on granting; `Failover` is about the recovery that may or
  may not come in time.
*/
module TwoMasters {
  import opened LockSpec
  import opened LockInvariant
  import opened SessionEnd
  import opened Failover

  datatype Pair = Pair(prior: State, next: State)

  /** A handler on one of the two servers, or a committed write that reaches its copy of the files. */
  datatype DualEvent = OnPrior(op: Op) | OnNext(op: Op) | Copied(onPrior: bool, p: Path, content: string)

  function WithFile(st: State, p: Path, content: string): State {
    st.(files := st.files[p := content])
  }

  ghost function Dual(s: Pair, e: DualEvent): Pair {
    match e
    case OnPrior(op) => s.(prior := Step(s.prior, op))
    case OnNext(op) => s.(next := Step(s.next, op))
    case Copied(true, p, content) => s.(prior := WithFile(s.prior, p, content))
    case Copied(false, p, content) => s.(next := WithFile(s.next, p, content))
  }

  ghost function DualRun(s: Pair, events: seq<DualEvent>): Pair {
    if events == [] then s else Dual(DualRun(s, events[..|events| - 1]), events[|events| - 1])
  }

  /** `c` can have `p` in mode `m` without a conflict with anybody else's lock on this server. */
  ghost predicate NoConflict(st: State, c: Client, p: Path, m: Mode) {
    forall d, n :: d != c && Holds(st, d, p, n) ==> n == Shared && m == Shared
  }

  /** No two clients hold a path in conflicting modes, one on each server. */
  ghost predicate Agreeing(s: Pair) {
    forall c, p, m :: Holds(s.next, c, p, m) ==> NoConflict(s.prior, c, p, m)
  }

  lemma AgreeingIsSymmetric(s: Pair)
    ensures Agreeing(s) <==> Agreeing(Pair(s.next, s.prior))
  {
    if Agreeing(s) {
      forall c, p, m | Holds(s.prior, c, p, m) ensures NoConflict(s.next, c, p, m) {
        forall d, n | d != c && Holds(s.next, d, p, n) ensures n == Shared && m == Shared {
          assert NoConflict(s.prior, d, p, n);
        }
      }
    }
    if Agreeing(Pair(s.next, s.prior)) {
      forall c, p, m | Holds(s.next, c, p, m) ensures NoConflict(s.prior, c, p, m) {
        forall d, n | d != c && Holds(s.prior, d, p, n) ensures n == Shared && m == Shared {
          assert NoConflict(s.next, d, p, n);
        }
      }
    }
  }

  // ----- what a step adds -----

  ghost predicate Gains(st: State, op: Op, p: Path, m: Mode) {
    Holds(Step(st, op), op.c, p, m) && !Holds(st, op.c, p, m)
  }

  /** The guard of a handler on one server, in terms of the locks on the other. */
  ghost predicate Admissible(st: State, other: State, op: Op) {
    forall p, m :: Gains(st, op, p, m) ==> NoConflict(other, op.c, p, m)
  }

  lemma StepAgreesIff(st: State, other: State, op: Op)
    requires Inv(st) && Agreeing(Pair(other, st))
    ensures Agreeing(Pair(other, Step(st, op))) <==> Admissible(st, other, op)
  {
    hide Inv; hide Step; hide NoConflict;
    var after := Pair(other, Step(st, op));
    if Agreeing(after) {
      forall p, m | Gains(st, op, p, m) ensures NoConflict(other, op.c, p, m) {
        assert Holds(after.next, op.c, p, m);
      }
    }
    if Admissible(st, other, op) {
      forall c, p, m | Holds(after.next, c, p, m) ensures NoConflict(other, c, p, m) {
        if c != op.c {
          OthersKeepTheirLocks(st, op, c, p, m);
        } else {
          assert Gains(st, op, p, m) || Holds(st, c, p, m);
        }
      }
    }
  }

  ghost predicate Admitted(s: Pair, e: DualEvent) {
    match e
    case OnPrior(op) => Admissible(s.prior, s.next, op)
    case OnNext(op) => Admissible(s.next, s.prior, op)
    case Copied(_, _, _) => true
  }

  ghost predicate BothInv(s: Pair) {
    Inv(s.prior) && Inv(s.next)
  }

  lemma DualKeepsInv(s: Pair, e: DualEvent)
    requires BothInv(s)
    ensures BothInv(Dual(s, e))
  {
    match e
    case OnPrior(op) => StepKeepsInv(s.prior, op);
    case OnNext(op) => StepKeepsInv(s.next, op);
    case Copied(_, _, _) =>
  }

  lemma EventAgreesIff(s: Pair, e: DualEvent)
    requires BothInv(s) && Agreeing(s)
    ensures Agreeing(Dual(s, e)) <==> Admitted(s, e)
  {
    match e
    case OnPrior(op) =>
      AgreeingIsSymmetric(s);
      StepAgreesIff(s.prior, s.next, op);
      AgreeingIsSymmetric(Dual(s, e));
    case OnNext(op) =>
      StepAgreesIff(s.next, s.prior, op);
    case Copied(onPrior, p, content) =>
      assert forall c, q, m :: Holds(WithFile(s.prior, p, content), c, q, m) <==> Holds(s.prior, c, q, m);
      assert forall c, q, m :: Holds(WithFile(s.next, p, content), c, q, m) <==> Holds(s.next, c, q, m);
  }

  ghost predicate AgreeingThroughout(s: Pair, events: seq<DualEvent>) {
    Agreeing(DualRun(s, events)) && (events != [] ==> AgreeingThroughout(s, events[..|events| - 1]))
  }

  ghost predicate AdmittedThroughout(s: Pair, events: seq<DualEvent>) {
    events != [] ==>
      && AdmittedThroughout(s, events[..|events| - 1])
      && Admitted(DualRun(s, events[..|events| - 1]), events[|events| - 1])
  }

  lemma {:induction false} RunAgreesIff(s: Pair, events: seq<DualEvent>)
    requires BothInv(s) && Agreeing(s)
    ensures BothInv(DualRun(s, events))
    ensures AgreeingThroughout(s, events) <==> AdmittedThroughout(s, events)
    ensures AgreeingThroughout(s, events) ==> Agreeing(DualRun(s, events))
  {
    hide Agreeing; hide Admitted; hide Dual; hide BothInv;
    if events != [] {
      var front, e := events[..|events| - 1], events[|events| - 1];
      RunAgreesIff(s, front);
      DualKeepsInv(DualRun(s, front), e);
      if AgreeingThroughout(s, front) { EventAgreesIff(DualRun(s, front), e); }
    }
  }

  /**
    From the moment when a new master begins with empty tables: through every interleaving of handlers on
    the two servers, their tables never conflict exactly if every lock that one of them lets a client
    gain does not conflict with what the other records for somebody else at that moment.
  */
  lemma TablesNeverConflictIff(prior: State, files: map<Path, string>, events: seq<DualEvent>)
    requires Reachable(prior)
    ensures var s := Pair(prior, Init(files));
      AgreeingThroughout(s, events) <==> AdmittedThroughout(s, events)
  {
    ReachableStatesSatisfyInv(prior);
    RunAgreesIff(Pair(prior, Init(files)), events);
  }

  // ----- the guard, handler by handler -----

  /** A request for a lock: what is granted, and not held already, must not conflict. */
  lemma AcquireIsAdmissibleIff(st: State, other: State, c: Client, p: Path, m: Mode)
    requires Inv(st)
    ensures Admissible(st, other, OpAcquire(c, p, m)) <==>
            (Acquire(st, c, p, m).out == Ok && !Holds(st, c, p, m) ==> NoConflict(other, c, p, m))
  {
    hide Inv; hide NoConflict;
    var op := OpAcquire(c, p, m);
    if Acquire(st, c, p, m).out == Ok {
      AcquireHoldings(st, c, p, m);
      assert Gains(st, op, p, m) <==> !Holds(st, c, p, m);
    } else {
      RefusalChangesNothing(st, c, p, m);
    }
  }

  /** The recovery of a client without a session: the claims behind the last refused one must not conflict. */
  lemma RecoveryIsAdmissibleIff(st: State, other: State, c: Client, claims: seq<Claim>)
    requires Inv(st) && c !in st.sessions && DistinctPaths(claims)
    ensures Admissible(st, other, OpJeopardy(c, claims)) <==>
            forall p, m :: Survives(st, claims, p, m) ==> NoConflict(other, c, p, m)
  {
    JeopardyOutcome(st, c, claims);
    forall p, m ensures Gains(st, OpJeopardy(c, claims), p, m) <==> Survives(st, claims, p, m) {
      assert Holds(st, c, p, m) ==> Backed(st, c, p);
    }
  }

  /** Claims of what the other server still records for the client are always admissible. */
  lemma TrueClaimsAreAdmissible(st: State, other: State, c: Client, claims: seq<Claim>)
    requires Inv(st) && Inv(other) && c !in st.sessions && TrueClaims(other, Recovery(c, claims))
    ensures Admissible(st, other, OpJeopardy(c, claims))
  {
    RecoveryIsAdmissibleIff(st, other, c, claims);
    forall p, m | Survives(st, claims, p, m) ensures NoConflict(other, c, p, m) {
      assert Claim(p, m) in claims && Holds(other, c, p, m);
      if m == Exclusive { SoleOwner(other.table[p], c); }
    }
  }

  /** No other handler lets anybody gain a lock. */
  lemma OthersAreAdmissible(st: State, other: State, op: Op)
    requires Inv(st) && !op.OpAcquire? && !op.OpJeopardy?
    ensures Admissible(st, other, op)
  {
    hide NoConflict; hide EndSession;
    match op
    case OpClose(c) => if c in st.sessions { EndGainsNothing(st, c); }
    case OpTimeout(c) => if c in st.sessions { EndGainsNothing(st, c); }
    case OpDelete(c, p) => DeleteNeverRemoves(st, c, p);
    case OpOpen(c, p, committed) => OpenHoldings(st, c, p, committed);
    case OpRelease(c, p) => if Release(st, c, p).out == Ok { ReleaseHoldings(st, c, p); }
    case _ =>
  }

  lemma EndGainsNothing(st: State, c: Client)
    requires Inv(st) && c in st.sessions
    ensures forall p, m :: Holds(EndSession(st, c), c, p, m) ==> Holds(st, c, p, m)
  {
    EndSessionGivesUpOwnedPrefix(st, c);
  }

  /**
    What happens without the guard: the old master records an exclusive holder, and before that client
    recovers the new one grants the same lock exclusively to the first who asks.
  */
  lemma TwoExclusiveHolders(prior: State, c: Client, p: Path, d: Client)
    requires Reachable(prior) && Holds(prior, c, p, Exclusive) && c != d
    ensures var s := DualRun(Pair(prior, Init(prior.files)), [OnNext(OpCreate(d)), OnNext(OpAcquire(d, p, Exclusive))]);
      && Holds(s.prior, c, p, Exclusive) && Holds(s.next, d, p, Exclusive) && !Agreeing(s)
  {
    ReachableStatesSatisfyInv(prior);
    assert Backed(prior, c, p);
    var first, both := [OnNext(OpCreate(d))], [OnNext(OpCreate(d)), OnNext(OpAcquire(d, p, Exclusive))];
    var start := Pair(prior, Init(prior.files));
    assert both[..1] == first && first[..0] == [];
    assert DualRun(start, []) == start;
    assert DualRun(start, first) == Dual(start, OnNext(OpCreate(d)));
    var s := DualRun(start, both);
    assert s == Dual(DualRun(start, first), OnNext(OpAcquire(d, p, Exclusive)));
    assert Holds(s.prior, c, p, Exclusive) && Holds(s.next, d, p, Exclusive);
    assert !NoConflict(s.prior, d, p, Exclusive);
  }

  /**
    A file that is written on one server reaches the other: then a lock that nobody has there is granted
    there, whoever holds it on the first, and a read returns the content.
  */
  lemma CopiedFileCanBeLocked(s: Pair, p: Path, content: string, d: Client, m: Mode)
    requires BothInv(s) && d in s.next.sessions && m != Free && LockAt(s.next, p).status == Free
    ensures var copied := Dual(s, Copied(false, p, content));
      var after := Dual(copied, OnNext(OpAcquire(d, p, m)));
      && copied.prior == s.prior && after.prior == s.prior
      && Holds(after.next, d, p, m) && Read(after.next, d, p) == (Ok, content)
  {
  }

  /** A step on one server leaves the other as it is. */
  lemma OneServerAtATime(s: Pair, op: Op, p: Path, content: string)
    ensures Dual(s, OnPrior(op)) == Pair(Step(s.prior, op), s.next)
    ensures Dual(s, OnNext(op)) == Pair(s.prior, Step(s.next, op))
    ensures Dual(s, Copied(true, p, content)).next == s.next
    ensures p in Dual(s, Copied(true, p, content)).prior.files && Dual(s, Copied(true, p, content)).prior.files[p] == content
  {
  }
}
