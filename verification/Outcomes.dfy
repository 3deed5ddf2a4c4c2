/**
  What each handler answers and does, in terms of who holds what: the observable side of the table,
  without the records and the entries that `LockSpec` computes with.
*/
module Outcomes {
  import opened LockSpec
  import opened LockInvariant
  import opened SessionEnd
  import opened Failover

  /** Somebody holds `p` in mode `m`. */
  ghost predicate Held(st: State, p: Path, m: Mode) {
    exists d :: Holds(st, d, p, m)
  }

  lemma HeldIffStatus(st: State, p: Path, m: Mode)
    requires Inv(st) && m != Free
    ensures Held(st, p, m) <==> LockAt(st, p).status == m
  {
    if LockAt(st, p).status == m {
      var d :| d in st.table[p].owners;
      assert Holds(st, d, p, m);
    }
  }

  // ----- sessions -----

  /** A session is refused exactly while one lives; a client that had none has a live and empty one then. */
  lemma CreateAnswers(st: State, c: Client)
    ensures CreateSession(st, c).out == SessionExists <==> c in st.sessions && !st.sessions[c].terminated
    ensures CreateSession(st, c).out in {Ok, SessionExists}
    ensures c !in st.sessions ==> CreateSession(st, c).st.sessions == st.sessions[c := Sess(map[], false)]
    ensures c in st.sessions ==> CreateSession(st, c).st == st
    ensures CreateSession(st, c).st.table == st.table && CreateSession(st, c).st.files == st.files
  {
  }

  /** A close succeeds exactly for a live session, which is then over; otherwise nothing happens. */
  lemma CloseAnswers(st: State, c: Client)
    ensures CloseSession(st, c).out == Ok <==> c in st.sessions && !st.sessions[c].terminated
    ensures CloseSession(st, c).out in {Ok, NoSessionToEnd}
    ensures CloseSession(st, c).out == Ok ==>
      c in CloseSession(st, c).st.sessions && CloseSession(st, c).st.sessions[c].terminated
    ensures CloseSession(st, c).out != Ok ==> CloseSession(st, c).st == st
  {
    if c in st.sessions { EndSessionTerminates(st, c); }
  }

  // ----- locks -----

  lemma OpenAnswers(st: State, c: Client, p: Path, committed: bool)
    ensures var out := Open(st, c, p, committed).out;
      && (out == NoSession <==> c !in st.sessions)
      && (out == FileExists <==> c in st.sessions && p in st.files)
      && (out == Ok <==> c in st.sessions && p !in st.files)
  {
  }

  /**
    A lock that was after, and whose file was committed, is free: every client with a session gets it
    in either mode at once, and reads an empty file then.
  */
  lemma OpenedLockIsFree(st: State, c: Client, p: Path, d: Client, m: Mode)
    requires Inv(st) && Open(st, c, p, true).out == Ok && d in st.sessions && m != Free
    ensures var after := Open(st, c, p, true).st;
      && p in after.table && after.table[p] == FREE_LOCK
      && p in after.sessions[c].entries
      && Acquire(after, d, p, m).out == Ok
      && Read(Acquire(after, d, p, m).st, d, p) == (Ok, "")
  {
    OpenKeepsInv(st, c, p, true);
    OpenedHoldsNothing(st, p);
  }

  /**
    The new object stays the opener's own if the table already has one for the path, from an open that was
    not committed: however the lock is held afterwards, the opener's entry does not show it.
  */
  lemma OpenedEntryIsSharedIffNew(st: State, c: Client, p: Path, d: Client)
    requires Inv(st) && Open(st, c, p, true).out == Ok && p !in st.sessions[c].entries
    requires d in st.sessions && d != c
    ensures var held := Acquire(Open(st, c, p, true).st, d, p, Exclusive);
      && held.out == Ok
      && Delete(held.st, c, p).out == if p in st.table then NotExclusive else FileExists
  {
    OpenedLockIsFree(st, c, p, d, Exclusive);
  }

  lemma OpenedHoldsNothing(st: State, p: Path)
    requires Inv(st) && p !in st.files
    ensures LockAt(st, p) == FREE_LOCK
  {
    assert forall d :: Owns(st, d, p) ==> Backed(st, d, p);
  }

  lemma AcquireAnswers(st: State, c: Client, p: Path, m: Mode)
    requires Inv(st)
    ensures var out := Acquire(st, c, p, m).out;
      && (out == NoSession <==> c !in st.sessions)
      && (out == FreeModeRequested <==> c in st.sessions && m == Free)
      && (out == NoFile <==> c in st.sessions && m != Free && p !in st.files)
      && (out == HeldExclusively <==> c in st.sessions && m != Free && p in st.files && Held(st, p, Exclusive))
      && (out == HeldShared <==> c in st.sessions && m == Exclusive && p in st.files && Held(st, p, Shared))
      && (out != Ok ==> Acquire(st, c, p, m).st == st)
  {
    HeldIffStatus(st, p, Exclusive);
    HeldIffStatus(st, p, Shared);
  }

  lemma ReleaseAnswers(st: State, c: Client, p: Path)
    requires Inv(st)
    ensures var out := Release(st, c, p).out;
      && (out == NoSession <==> c !in st.sessions)
      && (out == NoFile <==> c in st.sessions && p !in st.files)
      && (out == NotInSession <==> c in st.sessions && p in st.files && p !in st.sessions[c].entries)
      && (out == NotOwner <==> c in st.sessions && p in st.files && p in st.sessions[c].entries && !Owns(st, c, p))
      && (out == Ok <==> Owns(st, c, p))
      && (out != Ok ==> Release(st, c, p).st == st)
  {
    if Owns(st, c, p) { assert Backed(st, c, p); }
  }

  /** An entry that was detached says nothing about the lock, so the mode that counts is the client's view of it. */
  lemma DeleteAnswers(st: State, c: Client, p: Path)
    requires Inv(st)
    ensures var out := Delete(st, c, p).out;
      && (out == NoSession <==> c !in st.sessions)
      && (out == NotInSession <==> c in st.sessions && p !in st.sessions[c].entries)
      && (out == FileExists <==> c in st.sessions && p in st.sessions[c].entries
                                 && st.sessions[c].entries[p] && Held(st, p, Exclusive))
      && (out == NotExclusive <==> c in st.sessions && p in st.sessions[c].entries
                                   && !(st.sessions[c].entries[p] && Held(st, p, Exclusive)))
      && Delete(st, c, p).st == st
  {
    HeldIffStatus(st, p, Exclusive);
    DeleteNeverRemoves(st, c, p);
  }

  // ----- files -----

  /** A read succeeds exactly for an owner; every refusal but the first two comes with the content all the same. */
  lemma ReadAnswers(st: State, c: Client, p: Path)
    requires Inv(st)
    ensures var (out, content) := Read(st, c, p);
      && (out == Ok <==> Owns(st, c, p))
      && (out == NoSession <==> c !in st.sessions)
      && (out == ReadThrows <==> c in st.sessions && p !in st.files)
      && (out == NotInSession <==> c in st.sessions && p in st.files && p !in st.sessions[c].entries)
      && (out == NotOwner <==> c in st.sessions && p in st.files && p in st.sessions[c].entries && !Owns(st, c, p))
      && content == if c in st.sessions && p in st.files then st.files[p] else ""
  {
    if Owns(st, c, p) { assert Backed(st, c, p); }
  }

  /** A write is acknowledged exactly for an owner, and then, if committed, is what the file holds; nothing else moves. */
  lemma WriteAnswers(st: State, c: Client, p: Path, content: string, committed: bool)
    requires Inv(st)
    ensures var r := Write(st, c, p, content, committed);
      && (r.out == Ok <==> Owns(st, c, p))
      && (r.out == NoSession <==> c !in st.sessions)
      && (r.out == NoFile <==> c in st.sessions && p !in st.files)
      && (r.out == NotInSession <==> c in st.sessions && p in st.files && p !in st.sessions[c].entries)
      && (r.out == NotOwner <==> c in st.sessions && p in st.files && p in st.sessions[c].entries && !Owns(st, c, p))
      && r.st.table == st.table && r.st.sessions == st.sessions
      && r.st.files == if Owns(st, c, p) && committed then st.files[p := content] else st.files
  {
    if Owns(st, c, p) { assert Backed(st, c, p); }
  }

  /** What was written and committed is what the next read of an owner returns. */
  lemma ReadAfterWrite(st: State, c: Client, p: Path, content: string, d: Client)
    requires Inv(st) && Write(st, c, p, content, true).out == Ok && Owns(st, d, p)
    ensures Read(Write(st, c, p, content, true).st, d, p) == (Ok, content)
  {
    WriteKeepsInv(st, c, p, content, true);
    WriteAnswers(st, c, p, content, true);
    ReadAnswers(Write(st, c, p, content, true).st, d, p);
    assert Backed(st, d, p);
  }

  // ----- the paths that a session has entries for -----

  /** An open and a grant add an entry to the caller's session, a release takes one, and nobody else's change. */
  lemma EntriesMove(st: State, c: Client, p: Path, m: Mode, committed: bool)
    requires c in st.sessions
    ensures Open(st, c, p, committed).out == Ok ==> Paths(Open(st, c, p, committed).st, c) == Paths(st, c) + {p}
    ensures Acquire(st, c, p, m).out == Ok ==> Paths(Acquire(st, c, p, m).st, c) == Paths(st, c) + {p}
    ensures Release(st, c, p).out == Ok ==> Paths(Release(st, c, p).st, c) == Paths(st, c) - {p}
    ensures forall d :: d in st.sessions && d != c ==>
              Paths(Open(st, c, p, committed).st, d) == Paths(Acquire(st, c, p, m).st, d)
              == Paths(Release(st, c, p).st, d) == Paths(st, d)
  {
  }

  function Paths(st: State, c: Client): set<Path> {
    if c in st.sessions then st.sessions[c].entries.Keys else {}
  }

  // ----- recovery on a terminated session -----

  /** What is true after claims that were all granted. */
  ghost predicate AllGranted(st: State, after: State, c: Client, claims: seq<Claim>) {
    && (forall p, m :: Holds(after, c, p, m) <==> if Claimed(claims, p) then Claim(p, m) in claims else Holds(st, c, p, m))
    && (forall p :: !Claimed(claims, p) ==> LockAt(after, p) == LockAt(st, p))
    && after.files == st.files
  }

  /**
    Claims that the table can grant are all granted, whatever the session has gone through, and what
    else the client held it still holds.
  */
  lemma {:induction false} ClaimsOnASession(st: State, c: Client, claims: seq<Claim>)
    requires c in st.sessions && DistinctPaths(claims) && AllCompatible(st, claims)
    ensures AllGranted(st, ClaimAll(st, c, claims), c, claims)
  {
    if claims != [] {
      hide AllGranted; hide ClaimOne;
      var front, last := claims[..|claims| - 1], claims[|claims| - 1];
      assert forall i :: 0 <= i < |front| ==> front[i] == claims[i];
      assert claims == front + [last];
      ClaimsOnASession(st, c, front);
      assert Compatible(st, last);
      OneMoreGranted(st, ClaimAll(st, c, front), c, front, last);
    }
  }

  lemma OneMoreGranted(st: State, mid: State, c: Client, front: seq<Claim>, last: Claim)
    requires c in mid.sessions && AllGranted(st, mid, c, front) && !Claimed(front, last.path) && Compatible(st, last)
    ensures AllGranted(st, ClaimOne(mid, c, last), c, front + [last])
  {
    GrantShape(mid, c, last);
    hide ClaimOne;
    var after := ClaimOne(mid, c, last);
    forall p ensures Claimed(front + [last], p) <==> Claimed(front, p) || last.path == p {
      ClaimedSnoc(front, last, p);
    }
    forall p, m ensures Claim(p, m) in front + [last] <==> Claim(p, m) in front || Claim(p, m) == last {
    }
    assert forall m :: Claim(last.path, m) !in front;
  }

  /** So a client whose session was terminated gets what it claims, and its session stays terminated. */
  lemma RecoveryOfATerminatedSession(st: State, c: Client, claims: seq<Claim>)
    requires Inv(st) && c in st.sessions && st.sessions[c].terminated
    requires DistinctPaths(claims) && AllCompatible(st, claims)
    ensures Jeopardy(st, c, claims).out == Ok
    ensures forall p, m :: Holds(Jeopardy(st, c, claims).st, c, p, m) <==>
              if Claimed(claims, p) then Claim(p, m) in claims else Holds(st, c, p, m)
    ensures Jeopardy(st, c, claims).st.sessions[c].terminated
  {
    ClaimsOnASession(st, c, claims);
    ClaimAllKeepsTerminated(st, c, claims);
  }
}
