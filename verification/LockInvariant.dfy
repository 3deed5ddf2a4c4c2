/** What every handler keeps, and hence what holds in every reachable state of the server. */
module LockInvariant {
  import opened KeyOrder
  import opened LockSpec

  ghost predicate WellFormed(l: LockRec) {
    && (l.status == Free <==> l.owners == {})
    && (l.status == Exclusive ==> |l.owners| == 1)
  }

  /** An owner's session entry for the path is attached, and the file of a held lock exists. */
  ghost predicate Backed(st: State, c: Client, p: Path) {
    && p in st.files
    && c in st.sessions
    && p in st.sessions[c].entries
    && st.sessions[c].entries[p]
  }

  ghost predicate Inv(st: State) {
    && (forall p :: p in st.table ==> WellFormed(st.table[p]))
    && (forall p, c :: p in st.table && c in st.table[p].owners ==> Backed(st, c, p))
    && (forall c, p :: c in st.sessions && p in st.sessions[c].entries ==> p in st.table)
  }

  lemma SoleOwner(l: LockRec, c: Client)
    requires WellFormed(l) && l.status == Exclusive && c in l.owners
    ensures l.owners == {c}
  {
    assert |l.owners - {c}| == 0;
    assert l.owners == (l.owners - {c}) + {c};
  }

  lemma WithoutWellFormed(l: LockRec, c: Client)
    requires WellFormed(l) && c in l.owners
    ensures WellFormed(Without(l, c))
    ensures forall d :: d != c && d in l.owners ==> Without(l, c).status == l.status
  {
    if l.status == Exclusive { SoleOwner(l, c); }
    forall d | d != c && d in l.owners ensures Without(l, c).status == l.status {
      assert d in l.owners - {c};
    }
  }

  // ----- one step -----

  lemma CreateKeepsInv(st: State, c: Client)
    requires Inv(st)
    ensures Inv(CreateSession(st, c).st)
  {
  }

  lemma TerminateKeepsInv(st: State, c: Client)
    requires Inv(st) && c in st.sessions
    ensures Inv(st.(sessions := st.sessions[c := st.sessions[c].(terminated := true)]))
  {
  }

  lemma WriteKeepsInv(st: State, c: Client, p: Path, content: string, committed: bool)
    requires Inv(st)
    ensures Inv(Write(st, c, p, content, committed).st)
  {
  }

  lemma OpenKeepsInv(st: State, c: Client, p: Path, committed: bool)
    requires Inv(st)
    ensures Inv(Open(st, c, p, committed).st)
  {
  }

  lemma ReleaseKeepsInv(st: State, c: Client, p: Path)
    requires Inv(st)
    ensures Inv(Release(st, c, p).st)
  {
    if Release(st, c, p).out == Ok { WithoutWellFormed(st.table[p], c); }
  }

  lemma {:induction false} EndLocksKeepsInv(st: State, c: Client)
    requires Inv(st) && c in st.sessions
    ensures Inv(EndLocks(st, c))
    decreases |st.sessions[c].entries|
  {
    var entries := st.sessions[c].entries;
    if entries != map[] {
      var p := First(entries.Keys);
      var r := Release(st, c, p);
      if r.out == Ok {
        ReleaseKeepsInv(st, c, p);
        assert r.st.sessions[c].entries.Keys == entries.Keys - {p};
        assert |entries.Keys - {p}| < |entries.Keys|;
        EndLocksKeepsInv(r.st, c);
      }
    }
  }

  lemma EndSessionKeepsInv(st: State, c: Client)
    requires Inv(st) && c in st.sessions
    ensures Inv(EndSession(st, c))
  {
    EndLocksKeepsInv(st.(sessions := st.sessions[c := st.sessions[c].(terminated := true)]), c);
  }

  lemma GrantWellFormed(l: LockRec, c: Client, m: Mode)
    requires WellFormed(l) && m != Free && (l.status == Free || (l.status == Shared && m == Shared))
    ensures WellFormed(LockRec(m, l.owners + {c}))
  {
    assert c in l.owners + {c};
    if m == Exclusive { assert l.owners + {c} == {c}; }
  }

  lemma AcquireKeepsInv(st: State, c: Client, p: Path, m: Mode)
    requires Inv(st)
    ensures Inv(Acquire(st, c, p, m).st)
  {
    var r := Acquire(st, c, p, m);
    if r.out == Ok {
      GrantWellFormed(LockAt(st, p), c, m);
      forall q, d | q in r.st.table && d in r.st.table[q].owners ensures Backed(r.st, d, q) {
        assert d != c || q != p ==> q in st.table && d in st.table[q].owners;
      }
    }
  }

  lemma {:induction false} ClaimAllKeepsInv(st: State, c: Client, claims: seq<Claim>)
    requires Inv(st) && c in st.sessions
    ensures Inv(ClaimAll(st, c, claims))
  {
    if claims != [] {
      var before := ClaimAll(st, c, claims[..|claims| - 1]);
      var last := claims[|claims| - 1];
      ClaimAllKeepsInv(st, c, claims[..|claims| - 1]);
      AcquireKeepsInv(before, c, last.path, last.mode);
      EndSessionKeepsInv(before, c);
    }
  }

  /** In a state that satisfies the invariant, `delete_lock` refuses every request. */
  lemma DeleteNeverRemoves(st: State, c: Client, p: Path)
    requires Inv(st)
    ensures Delete(st, c, p).out != Ok && Delete(st, c, p).st == st
  {
    if c in st.sessions && p in st.sessions[c].entries && LockAt(st, p).status == Exclusive {
      var d :| d in st.table[p].owners;
      assert Owns(st, d, p);
    }
  }

  lemma StepKeepsInv(st: State, op: Op)
    requires Inv(st)
    ensures Inv(Step(st, op))
  {
    hide Inv; hide EndSession; hide ClaimAll; hide Open; hide Delete; hide Acquire; hide Release; hide Write;
    match op
    case OpCreate(c) => CreateKeepsInv(st, c);
    case OpClose(c) => if c in st.sessions { EndSessionKeepsInv(st, c); }
    case OpTimeout(c) => if c in st.sessions { EndSessionKeepsInv(st, c); }
    case OpOpen(c, p, committed) => OpenKeepsInv(st, c, p, committed);
    case OpDelete(c, p) => DeleteNeverRemoves(st, c, p);
    case OpAcquire(c, p, m) => AcquireKeepsInv(st, c, p, m);
    case OpRelease(c, p) => ReleaseKeepsInv(st, c, p);
    case OpRead(c, p) =>
    case OpWrite(c, p, content, committed) => WriteKeepsInv(st, c, p, content, committed);
    case OpJeopardy(c, claims) =>
      CreateKeepsInv(st, c);
      var r := CreateSession(st, c);
      if r.out == Ok { ClaimAllKeepsInv(r.st, c, claims); }
  }

  // ----- every run -----

  lemma {:induction false} RunKeepsInv(st: State, ops: seq<Op>)
    requires Inv(st)
    ensures Inv(Run(st, ops))
    decreases |ops|
  {
    if ops != [] {
      StepKeepsInv(st, ops[0]);
      RunKeepsInv(Step(st, ops[0]), ops[1..]);
    }
  }

  ghost predicate Reachable(st: State) {
    exists files, ops :: st == Run(Init(files), ops)
  }

  lemma ReachableStatesSatisfyInv(st: State)
    requires Reachable(st)
    ensures Inv(st)
  {
    var files, ops :| st == Run(Init(files), ops);
    RunKeepsInv(Init(files), ops);
  }

  lemma {:induction false} RunSnoc(st: State, ops: seq<Op>, op: Op)
    ensures Run(st, ops + [op]) == Step(Run(st, ops), op)
    decreases |ops|
  {
    if ops == [] {
      assert [] + [op] == [op] && [op][1..] == [];
    } else {
      RunSnoc(Step(st, ops[0]), ops[1..], op);
      assert (ops + [op])[1..] == ops[1..] + [op];
    }
  }

  lemma ReachableStep(st: State, op: Op)
    requires Reachable(st)
    ensures Reachable(Step(st, op))
  {
    var files, ops :| st == Run(Init(files), ops);
    RunSnoc(Init(files), ops, op);
  }

  lemma ReachableInit(files: map<Path, string>)
    ensures Reachable(Init(files))
  {
    assert Init(files) == Run(Init(files), []);
  }

  /** Mutual exclusion: in a reachable state nobody shares a lock that is held exclusively. */
  lemma MutualExclusion(st: State, c: Client, d: Client, p: Path, m: Mode)
    requires Reachable(st)
    requires Holds(st, c, p, Exclusive) && Holds(st, d, p, m)
    ensures c == d && m == Exclusive
  {
    ReachableStatesSatisfyInv(st);
    SoleOwner(st.table[p], c);
  }

  /**
    In a reachable state a release is granted exactly to an owner; the session entry, the file and
    the attachment that the handler also looks for follow from ownership.
  */
  lemma ReleaseGrantedIffOwner(st: State, c: Client, p: Path)
    requires Reachable(st)
    ensures Release(st, c, p).out == Ok <==> Owns(st, c, p)
  {
    ReachableStatesSatisfyInv(st);
  }

  /**
    Under the invariant a request is granted exactly when there is a session and a file, a real mode
    is asked for, and nobody, the client included, holds the path in a mode that conflicts with it.
  */
  lemma AcquireGrantedIffNoConflict(st: State, c: Client, p: Path, m: Mode)
    requires Inv(st)
    ensures Acquire(st, c, p, m).out == Ok <==>
            c in st.sessions && p in st.files && m != Free
            && forall d, n :: Holds(st, d, p, n) ==> n == Shared && m == Shared
  {
    var l := LockAt(st, p);
    if l.status != Free {
      var d :| d in l.owners;
      assert Holds(st, d, p, l.status);
    }
  }

  /** No reachable state lets a lock be removed: files and lock records only ever accumulate. */
  lemma {:induction false} RunOnlyGrows(st: State, ops: seq<Op>)
    requires Inv(st)
    ensures st.table.Keys <= Run(st, ops).table.Keys
    ensures st.files.Keys <= Run(st, ops).files.Keys
    ensures st.sessions.Keys <= Run(st, ops).sessions.Keys
    decreases |ops|
  {
    if ops != [] {
      StepOnlyGrows(st, ops[0]);
      StepKeepsInv(st, ops[0]);
      RunOnlyGrows(Step(st, ops[0]), ops[1..]);
    }
  }

  lemma StepOnlyGrows(st: State, op: Op)
    requires Inv(st)
    ensures st.table.Keys <= Step(st, op).table.Keys
    ensures st.files.Keys <= Step(st, op).files.Keys
    ensures st.sessions.Keys <= Step(st, op).sessions.Keys
  {
    hide Inv;
    match op
    case OpClose(c) => if c in st.sessions { EndSessionFrame(st, c); }
    case OpTimeout(c) => if c in st.sessions { EndSessionFrame(st, c); }
    case OpDelete(c, p) => DeleteNeverRemoves(st, c, p);
    case OpJeopardy(c, claims) =>
      CreateKeepsInv(st, c);
      var r := CreateSession(st, c);
      if r.out == Ok { ClaimAllFrame(r.st, c, claims); }
    case _ =>
  }

  /** A path opens once: after a committed open, no client can open it again in any later state. */
  lemma OpenedOnceForAll(st: State, c: Client, p: Path, ops: seq<Op>, d: Client, committed: bool)
    requires Inv(st) && Open(st, c, p, true).out == Ok
    ensures var later := Run(Open(st, c, p, true).st, ops);
      Open(later, d, p, committed) == Reply(later, if d in later.sessions then FileExists else NoSession)
  {
    OpenKeepsInv(st, c, p, true);
    RunOnlyGrows(Open(st, c, p, true).st, ops);
  }

  // ----- what the handlers of one client leave alone -----

  /** `after` differs from `before` only in what concerns `c`: nobody else's holdings change. */
  ghost predicate OnlyTouches(before: State, after: State, c: Client) {
    && before.files == after.files
    && before.table.Keys <= after.table.Keys
    && before.sessions.Keys <= after.sessions.Keys
    && (forall d :: d in before.sessions && d != c ==> after.sessions[d] == before.sessions[d])
    && (forall d, p, m :: d != c ==> (Holds(after, d, p, m) <==> Holds(before, d, p, m)))
  }

  lemma ReleaseFrame(st: State, c: Client, p: Path)
    requires Inv(st)
    ensures OnlyTouches(st, Release(st, c, p).st, c)
  {
    if Release(st, c, p).out == Ok { WithoutWellFormed(st.table[p], c); }
  }

  lemma {:induction false} EndLocksFrame(st: State, c: Client)
    requires Inv(st) && c in st.sessions
    ensures OnlyTouches(st, EndLocks(st, c), c)
    decreases |st.sessions[c].entries|
  {
    var entries := st.sessions[c].entries;
    if entries != map[] {
      var p := First(entries.Keys);
      var r := Release(st, c, p);
      if r.out == Ok {
        ReleaseKeepsInv(st, c, p);
        ReleaseFrame(st, c, p);
        assert r.st.sessions[c].entries.Keys == entries.Keys - {p};
        assert |entries.Keys - {p}| < |entries.Keys|;
        EndLocksFrame(r.st, c);
      }
    }
  }

  lemma EndSessionFrame(st: State, c: Client)
    requires Inv(st) && c in st.sessions
    ensures OnlyTouches(st, EndSession(st, c), c)
  {
    EndLocksFrame(st.(sessions := st.sessions[c := st.sessions[c].(terminated := true)]), c);
  }

  lemma AcquireFrame(st: State, c: Client, p: Path, m: Mode)
    requires Inv(st)
    ensures OnlyTouches(st, Acquire(st, c, p, m).st, c)
  {
  }

  lemma {:induction false} ClaimAllFrame(st: State, c: Client, claims: seq<Claim>)
    requires Inv(st) && c in st.sessions
    ensures OnlyTouches(st, ClaimAll(st, c, claims), c)
  {
    if claims != [] {
      var front, last := claims[..|claims| - 1], claims[|claims| - 1];
      var before := ClaimAll(st, c, front);
      ClaimAllFrame(st, c, front);
      ClaimAllKeepsInv(st, c, front);
      AcquireFrame(before, c, last.path, last.mode);
      EndSessionFrame(before, c);
    }
  }

  /** Whatever one client does, no other client gains, loses or changes the mode of a lock. */
  lemma OthersKeepTheirLocks(st: State, op: Op, d: Client, p: Path, m: Mode)
    requires Inv(st) && d != op.c
    ensures Holds(Step(st, op), d, p, m) <==> Holds(st, d, p, m)
  {
    match op
    case OpClose(c) => if c in st.sessions { EndSessionFrame(st, c); }
    case OpTimeout(c) => if c in st.sessions { EndSessionFrame(st, c); }
    case OpDelete(c, q) => DeleteNeverRemoves(st, c, q);
    case OpAcquire(c, q, n) => AcquireFrame(st, c, q, n);
    case OpRelease(c, q) => ReleaseFrame(st, c, q);
    case OpJeopardy(c, claims) =>
      var r := CreateSession(st, c);
      if r.out == Ok { ClaimAllFrame(r.st, c, claims); }
    case _ =>
  }

  // ----- sessions once they have ended -----

  lemma {:induction false} EndLocksKeepsTerminated(st: State, c: Client)
    requires c in st.sessions
    ensures EndLocks(st, c).sessions[c].terminated == st.sessions[c].terminated
    decreases |st.sessions[c].entries|
  {
    var entries := st.sessions[c].entries;
    if entries != map[] {
      var p := First(entries.Keys);
      var r := Release(st, c, p);
      if r.out == Ok {
        assert r.st.sessions[c].entries.Keys == entries.Keys - {p};
        assert |entries.Keys - {p}| < |entries.Keys|;
        EndLocksKeepsTerminated(r.st, c);
      }
    }
  }

  lemma EndSessionTerminates(st: State, c: Client)
    requires c in st.sessions
    ensures EndSession(st, c).sessions[c].terminated
  {
    EndLocksKeepsTerminated(st.(sessions := st.sessions[c := st.sessions[c].(terminated := true)]), c);
  }

  lemma {:induction false} ClaimAllKeepsTerminated(st: State, c: Client, claims: seq<Claim>)
    requires c in st.sessions && st.sessions[c].terminated
    ensures ClaimAll(st, c, claims).sessions[c].terminated
  {
    hide EndSession;
    if claims != [] {
      var front := claims[..|claims| - 1];
      ClaimAllKeepsTerminated(st, c, front);
      EndSessionTerminates(ClaimAll(st, c, front), c);
    }
  }

  /** No handler, whoever calls it, revives a session that has ended. */
  lemma StepKeepsTerminated(st: State, op: Op, c: Client)
    requires Inv(st) && c in st.sessions && st.sessions[c].terminated
    ensures c in Step(st, op).sessions && Step(st, op).sessions[c].terminated
  {
    hide Inv; hide EndSession; hide ClaimAll;
    match op
    case OpClose(d) => if d in st.sessions { EndSessionFrame(st, d); EndSessionTerminates(st, d); }
    case OpTimeout(d) => if d in st.sessions { EndSessionFrame(st, d); EndSessionTerminates(st, d); }
    case OpDelete(d, p) => DeleteNeverRemoves(st, d, p);
    case OpJeopardy(d, claims) =>
      CreateKeepsInv(st, d);
      var r := CreateSession(st, d);
      if r.out == Ok {
        ClaimAllFrame(r.st, d, claims);
        if d == c { ClaimAllKeepsTerminated(r.st, d, claims); }
      }
    case _ =>
  }

  // ----- what the handlers do to the client's own holdings -----

  lemma AcquireHoldings(st: State, c: Client, p: Path, m: Mode)
    requires Acquire(st, c, p, m).out == Ok
    ensures forall q, n :: Holds(Acquire(st, c, p, m).st, c, q, n) <==> if q == p then n == m else Holds(st, c, q, n)
  {
  }

  lemma ReleaseHoldings(st: State, c: Client, p: Path)
    requires Release(st, c, p).out == Ok
    ensures forall q, n :: Holds(Release(st, c, p).st, c, q, n) <==> q != p && Holds(st, c, q, n)
  {
  }

  lemma OpenHoldings(st: State, c: Client, p: Path, committed: bool)
    requires Inv(st)
    ensures forall q, n :: Holds(Open(st, c, p, committed).st, c, q, n) <==> Holds(st, c, q, n)
  {
  }
}
