/** What the restart-from-the-beginning loop of `end_session` achieves, without mentioning the loop. */
module SessionEnd {
  import opened KeyOrder
  import opened LockSpec
  import opened LockInvariant

  /** The longest run of owned entries, in key order: owned, with every entry before it owned too. */
  ghost function OwnedPrefix(st: State, c: Client): set<Path>
    requires c in st.sessions
  {
    set p | p in st.sessions[c].entries && Owns(st, c, p)
            && forall q :: q in st.sessions[c].entries && Less(q, p) ==> Owns(st, c, q)
  }

  /** `c` gave up exactly the locks in `gone`, and its entries for them. */
  ghost predicate GaveUp(st: State, after: State, c: Client, gone: set<Path>)
    requires c in st.sessions
  {
    && after.files == st.files
    && after.sessions == st.sessions[c := st.sessions[c].(entries := st.sessions[c].entries - gone)]
    && after.table.Keys == st.table.Keys
    && forall p :: p in st.table ==> after.table[p] == if p in gone then Without(st.table[p], c) else st.table[p]
  }

  lemma {:induction false} EndLocksGivesUpOwnedPrefix(st: State, c: Client)
    requires Inv(st) && c in st.sessions
    ensures GaveUp(st, EndLocks(st, c), c, OwnedPrefix(st, c))
    decreases |st.sessions[c].entries|
  {
    var entries := st.sessions[c].entries;
    var gone := OwnedPrefix(st, c);
    if entries == map[] {
      assert gone == {};
      NothingGivenUp(st, c);
    } else {
      var p := First(entries.Keys);
      var r := Release(st, c, p);
      if r.out == Ok {
        ReleaseKeepsInv(st, c, p);
        assert r.st.sessions[c].entries.Keys == entries.Keys - {p};
        assert |entries.Keys - {p}| < |entries.Keys|;
        EndLocksGivesUpOwnedPrefix(r.st, c);
        ReleaseShortensPrefix(st, c, p);
        OneMoreGivenUp(st, EndLocks(r.st, c), c, p, OwnedPrefix(r.st, c));
      } else {
        assert gone == {} by {
          assert !Owns(st, c, p);
          assert forall q :: q in entries ==> q == p || Less(p, q);
        }
        NothingGivenUp(st, c);
      }
    }
  }

  lemma NothingGivenUp(st: State, c: Client)
    requires c in st.sessions
    ensures GaveUp(st, st, c, {})
  {
    assert st.sessions[c].entries - {} == st.sessions[c].entries;
  }

  lemma ReleaseShortensPrefix(st: State, c: Client, p: Path)
    requires Inv(st) && c in st.sessions && Release(st, c, p).out == Ok
    requires IsFirst(p, st.sessions[c].entries.Keys)
    ensures OwnedPrefix(st, c) == OwnedPrefix(Release(st, c, p).st, c) + {p}
    ensures p !in OwnedPrefix(Release(st, c, p).st, c)
  {
    hide Inv;
    var r := Release(st, c, p).st;
    assert forall q :: q != p ==> (Owns(r, c, q) <==> Owns(st, c, q));
    assert r.sessions[c].entries.Keys == st.sessions[c].entries.Keys - {p};
    forall q | q in st.sessions[c].entries && Less(q, p) ensures q == p {
      if q != p {
        LessIsTransitive(p, q, p);
        LessIsIrreflexive(p);
      }
    }
    assert p in OwnedPrefix(st, c);
  }

  lemma OneMoreGivenUp(st: State, after: State, c: Client, p: Path, gone: set<Path>)
    requires c in st.sessions && Release(st, c, p).out == Ok && p !in gone
    requires GaveUp(Release(st, c, p).st, after, c, gone)
    ensures GaveUp(st, after, c, gone + {p})
  {
    assert (st.sessions[c].entries - {p}) - gone == st.sessions[c].entries - (gone + {p});
  }

  /** The session ends terminated, without exactly its owned prefix. */
  lemma EndSessionGivesUpOwnedPrefix(st: State, c: Client)
    requires Inv(st) && c in st.sessions
    ensures EndSession(st, c).sessions[c] == Sess(st.sessions[c].entries - OwnedPrefix(st, c), true)
    ensures forall p, m :: Holds(EndSession(st, c), c, p, m) <==> Holds(st, c, p, m) && p !in OwnedPrefix(st, c)
    ensures EndSession(st, c).table.Keys == st.table.Keys
    ensures forall p :: p in st.table ==>
              EndSession(st, c).table[p] == if p in OwnedPrefix(st, c) then Without(st.table[p], c) else st.table[p]
    ensures EndSession(st, c).sessions.Keys == st.sessions.Keys
    ensures OnlyTouches(st, EndSession(st, c), c)
  {
    var marked := st.(sessions := st.sessions[c := st.sessions[c].(terminated := true)]);
    EndLocksGivesUpOwnedPrefix(marked, c);
    assert OwnedPrefix(marked, c) == OwnedPrefix(st, c);
    EndSessionFrame(st, c);
  }

  ghost predicate AllEntriesOwned(st: State, c: Client) {
    c in st.sessions && forall p :: p in st.sessions[c].entries ==> Owns(st, c, p)
  }

  /** The client ends owning nothing exactly when no entry it does not own sorts before one it owns. */
  lemma EndSessionFreesTheClientIff(st: State, c: Client)
    requires Inv(st) && c in st.sessions
    ensures (forall p :: !Owns(EndSession(st, c), c, p)) <==>
            (forall p, q :: Owns(st, c, p) && q in st.sessions[c].entries && Less(q, p) ==> Owns(st, c, q))
  {
    PrefixIsEverythingIff(st, c);
    hide EndSession; hide OwnedPrefix;
    forall p ensures Owns(EndSession(st, c), c, p) <==> Owns(st, c, p) && p !in OwnedPrefix(st, c) {
      OwnedAfterEnd(st, c, p);
    }
  }

  lemma PrefixIsEverythingIff(st: State, c: Client)
    requires Inv(st) && c in st.sessions
    ensures (forall p :: Owns(st, c, p) ==> p in OwnedPrefix(st, c)) <==>
            (forall p, q :: Owns(st, c, p) && q in st.sessions[c].entries && Less(q, p) ==> Owns(st, c, q))
  {
    forall p | Owns(st, c, p) ensures p in st.sessions[c].entries {
      assert Backed(st, c, p);
    }
    hide Inv;
    if forall p :: Owns(st, c, p) ==> p in OwnedPrefix(st, c) {
      forall p, q | Owns(st, c, p) && q in st.sessions[c].entries && Less(q, p) ensures Owns(st, c, q) {
        assert p in OwnedPrefix(st, c);
      }
    }
  }

  lemma OwnedAfterEnd(st: State, c: Client, p: Path)
    requires Inv(st) && c in st.sessions
    ensures Owns(EndSession(st, c), c, p) <==> Owns(st, c, p) && p !in OwnedPrefix(st, c)
  {
    EndSessionGivesUpOwnedPrefix(st, c);
    var after := EndSession(st, c);
    if p in st.table { assert Holds(st, c, p, st.table[p].status) <==> Owns(st, c, p); }
    if p in after.table { assert Holds(after, c, p, after.table[p].status) <==> Owns(after, c, p); }
  }

  /** In particular, nothing is left behind when every entry of the session is owned. */
  lemma EndSessionReleasesEverything(st: State, c: Client)
    requires Inv(st) && AllEntriesOwned(st, c)
    ensures EndSession(st, c).sessions[c] == Sess(map[], true)
    ensures forall p :: !Owns(EndSession(st, c), c, p)
  {
    EndSessionGivesUpOwnedPrefix(st, c);
    EndSessionFreesTheClientIff(st, c);
    assert st.sessions[c].entries - OwnedPrefix(st, c) == map[];
  }

  /**
    Closing a session and starting again lets the client have a lock of its back in mode `m` exactly if
    nobody, itself included if the close did not get to it, still holds the path in a conflicting mode.
    It then holds it through a session that is still terminated.
  */
  lemma CloseAndReacquire(st: State, c: Client, p: Path, m: Mode)
    requires Inv(st) && Owns(st, c, p) && !st.sessions[c].terminated && m != Free
    ensures var closed := CloseSession(st, c).st;
      && CloseSession(st, c).out == Ok && CreateSession(closed, c) == Reply(closed, Ok)
      && (Acquire(closed, c, p, m).out == Ok <==>
          forall d, n :: Holds(st, d, p, n) && !(d == c && p in OwnedPrefix(st, c)) ==> n == Shared && m == Shared)
      && (Acquire(closed, c, p, m).out == Ok ==>
          Holds(Acquire(closed, c, p, m).st, c, p, m) && Acquire(closed, c, p, m).st.sessions[c].terminated)
  {
    var closed := EndSession(st, c);
    EndSessionGivesUpOwnedPrefix(st, c);
    EndSessionKeepsInv(st, c);
    AcquireGrantedIffNoConflict(closed, c, p, m);
    assert Backed(st, c, p);
    assert forall d, n :: Holds(closed, d, p, n) <==> Holds(st, d, p, n) && !(d == c && p in OwnedPrefix(st, c));
  }

  /** What could still free a lock of `c` at `p`: its own release, a thread's timeout, or a claim that is refused. */
  predicate MayFree(op: Op, c: Client, p: Path) {
    op == OpRelease(c, p) || op == OpTimeout(c) || (op.OpJeopardy? && op.c == c)
  }

  /**
    A lock that is held through a terminated session is freed by nothing else: neither by a close, which
    is refused, nor by anything that others do.
  */
  lemma {:induction false} TerminatedSessionKeepsItsLocks(st: State, ops: seq<Op>, c: Client, p: Path, m: Mode)
    requires Inv(st) && Holds(st, c, p, m) && st.sessions[c].terminated
    requires forall i :: 0 <= i < |ops| ==> !MayFree(ops[i], c, p)
    ensures Holds(Run(st, ops), c, p, m) && c in Run(st, ops).sessions && Run(st, ops).sessions[c].terminated
    decreases |ops|
  {
    if ops != [] {
      StepKeepsInv(st, ops[0]);
      StepKeepsTerminated(st, ops[0], c);
      TerminatedSessionKeepsItsLock(st, ops[0], c, p, m);
      TerminatedSessionKeepsItsLocks(Step(st, ops[0]), ops[1..], c, p, m);
    }
  }

  lemma TerminatedSessionKeepsItsLock(st: State, op: Op, c: Client, p: Path, m: Mode)
    requires Inv(st) && Holds(st, c, p, m) && st.sessions[c].terminated && !MayFree(op, c, p)
    ensures Holds(Step(st, op), c, p, m)
  {
    if op.c != c {
      OthersKeepTheirLocks(st, op, c, p, m);
    } else {
      hide EndSession; hide ClaimAll;
      match op
      case OpDelete(_, q) => DeleteNeverRemoves(st, c, q);
      case OpOpen(_, q, committed) => OpenHoldings(st, c, q, committed);
      case OpRelease(_, q) => if Release(st, c, q).out == Ok { ReleaseHoldings(st, c, q); }
      case OpAcquire(_, q, n) => AcquireGrantedIffNoConflict(st, c, q, n);
      case _ =>
    }
  }

  /** A released exclusive lock is free again; a shared one just has one owner less. */
  lemma ReleasedLocks(st: State, c: Client, p: Path)
    requires Inv(st) && c in st.sessions && p in OwnedPrefix(st, c)
    ensures LockAt(EndSession(st, c), p).owners == st.table[p].owners - {c}
    ensures st.table[p].status == Exclusive ==> LockAt(EndSession(st, c), p) == FREE_LOCK
    ensures st.table[p].owners - {c} != {} ==> LockAt(EndSession(st, c), p).status == st.table[p].status
  {
    EndSessionGivesUpOwnedPrefix(st, c);
    WithoutWellFormed(st.table[p], c);
    if st.table[p].status == Exclusive { SoleOwner(st.table[p], c); }
  }

  /**
    One opened but never acquired path that sorts before a held one keeps the held one locked after
    the session has ended: here "a" is only opened and "b" is held exclusively.
  */
  lemma UnownedEntryBlocksRelease()
    ensures exists st :: Reachable(st) && "c" in st.sessions
                         && Holds(st, "c", "b", Exclusive) && Holds(EndSession(st, "c"), "c", "b", Exclusive)
  {
    var st := OneOpenedOneHeld();
    ReachableStatesSatisfyInv(st);
    assert Less("a", "b");
    FirstEntryBlocks(st, "c", "a", "b");
  }

  lemma OneOpenedOneHeld() returns (st: State)
    ensures Reachable(st) && "c" in st.sessions && "a" in st.sessions["c"].entries
    ensures !Owns(st, "c", "a") && Holds(st, "c", "b", Exclusive)
  {
    hide Reachable;
    var s0 := Init(map[]);
    var s1 := Step(s0, OpCreate("c"));
    var s2 := Step(s1, OpOpen("c", "a", true));
    var s3 := Step(s2, OpOpen("c", "b", true));
    st := Step(s3, OpAcquire("c", "b", Exclusive));
    ReachableInit(map[]);
    ReachableStep(s0, OpCreate("c"));
    ReachableStep(s1, OpOpen("c", "a", true));
    ReachableStep(s2, OpOpen("c", "b", true));
    ReachableStep(s3, OpAcquire("c", "b", Exclusive));
  }

  lemma FirstEntryBlocks(st: State, c: Client, p: Path, q: Path)
    requires Inv(st) && c in st.sessions && p in st.sessions[c].entries && !Owns(st, c, p)
    requires Less(p, q) && Holds(st, c, q, Exclusive)
    ensures Holds(EndSession(st, c), c, q, Exclusive)
  {
    EndSessionGivesUpOwnedPrefix(st, c);
    assert q !in OwnedPrefix(st, c);
  }
}
