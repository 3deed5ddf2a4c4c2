/**
  The server as it is built: `Lock` objects on the heap, reached both from the server-wide map and
  from the maps of the sessions. Every handler is shown to act on the table of values of `LockSpec`.
*/
module LockServer {
  import opened KeyOrder
  import opened LockSpec
  import opened LockInvariant
  import opened Lease

  class Lock {
    const path: Path
    var status: Mode
    var owners: map<Client, bool>

    constructor (path: Path)
      ensures this.path == path && Rec() == FREE_LOCK && owners == map[]
    {
      this.path := path;
      status, owners := Free, map[];
    }

    ghost function Rec(): LockRec
      reads this
    {
      LockRec(status, owners.Keys)
    }

    method Grant(c: Client, m: Mode)
      modifies this
      ensures Rec() == LockRec(m, old(Rec()).owners + {c})
      ensures owners == old(owners)[c := true]
    {
      owners := owners[c := true];
      status := m;
      assert owners.Keys == old(owners.Keys) + {c};
    }

    method Drop(c: Client)
      requires c in owners
      modifies this
      ensures Rec() == Without(old(Rec()), c)
      ensures owners == old(owners) - {c}
    {
      if status == Exclusive {
        owners := owners - {c};
        status := Free;
      } else {
        owners := owners - {c};
        if |owners| == 0 { status := Free; }
      }
      assert owners.Keys == old(owners.Keys) - {c};
    }
  }

  /** `blockReply` counts the tokens in the session's channel. */
  class Session {
    const clientId: Client
    const startTime: int
    var leaseLength: int
    var blockReply: nat
    var locks: map<Path, Lock>
    var terminated: bool

    constructor (clientId: Client, now: int)
      ensures this.clientId == clientId && locks == map[] && !terminated
      ensures TheLease() == ServerLease(now, DEFAULT_LEASE_EXTENSION, false) && blockReply == 0
    {
      this.clientId, startTime := clientId, now;
      leaseLength, blockReply := DEFAULT_LEASE_EXTENSION, 0;
      locks, terminated := map[], false;
    }

    ghost function TheLease(): ServerLease
      reads this
    {
      ServerLease(startTime, leaseLength, terminated)
    }
  }

  class Server {
    var locks: map<Path, Lock>
    var sessions: map<Client, Session>
    var files: map<Path, string>              // the replicated store behind `append_log` and `is_exists`
    ghost var lockObjects: set<Lock>
    ghost var sessionObjects: set<Session>
    ghost var view: State                     // the table of values that the objects stand for

    // ----- the aliasing between the two indexes -----

    ghost predicate LockLinked(p: Path)
      requires p in locks
      reads this, locks[p]
    {
      && locks[p].path == p
      && p in view.table && view.table[p] == locks[p].Rec()
      && (forall c :: c in locks[p].owners ==> locks[p].owners[c])
    }

    /** The view says of each entry whether it is the very object in the server-wide map. */
    ghost predicate EntryLinked(c: Client, p: Path)
      requires c in sessions && p in sessions[c].locks
      reads this, sessions[c]
    {
      && sessions[c].locks[p] in lockObjects && sessions[c].locks[p].path == p && p in locks
      && c in view.sessions && p in view.sessions[c].entries
      && view.sessions[c].entries[p] == (sessions[c].locks[p] == locks[p])
    }

    ghost predicate SessionLinked(c: Client)
      requires c in sessions
      reads this, sessions[c]
    {
      && sessions[c].clientId == c
      && c in view.sessions && view.sessions[c].terminated == sessions[c].terminated
      && view.sessions[c].entries.Keys == sessions[c].locks.Keys
      && (forall p :: p in sessions[c].locks ==> EntryLinked(c, p))
    }

    /** A lock object that the server-wide map does not reach is free and has no owners. */
    ghost predicate Linked()
      reads this, lockObjects, sessionObjects
    {
      && view.files == files && view.table.Keys == locks.Keys && view.sessions.Keys == sessions.Keys
      && (forall p :: p in locks ==> locks[p] in lockObjects && LockLinked(p))
      && (forall c :: c in sessions ==> sessions[c] in sessionObjects && SessionLinked(c))
      && (forall l :: l in lockObjects ==> (l.path in locks && l == locks[l.path]) || l.Rec() == FREE_LOCK)
    }

    ghost predicate Valid()
      reads this, lockObjects, sessionObjects
    {
      Linked() && Inv(view)
    }

    /** `c` is an owner in the server-wide map exactly when its session shares that object and is listed in it. */
    lemma OwnershipIsShared(c: Client, p: Path)
      requires Valid()
      ensures p in locks && c in locks[p].owners <==>
              c in sessions && p in sessions[c].locks && p in locks && sessions[c].locks[p] == locks[p]
              && c in sessions[c].locks[p].owners
    {
      if p in locks && c in locks[p].owners {
        assert LockLinked(p);
        assert Backed(view, c, p) && SessionLinked(c) && EntryLinked(c, p);
      }
    }

    /** What the handlers look up first, in the objects and in the view. */
    lemma Lookups(c: Client, p: Path)
      requires Linked()
      ensures view.files == files
      ensures c in sessions <==> c in view.sessions
      ensures p in locks <==> p in view.table
      ensures p in locks ==> locks[p] in lockObjects && locks[p].path == p && locks[p].Rec() == view.table[p]
      ensures c in sessions ==>
        && sessions[c] in sessionObjects && sessions[c].clientId == c
        && sessions[c].terminated == view.sessions[c].terminated
        && sessions[c].locks.Keys == view.sessions[c].entries.Keys
        && (p in sessions[c].locks ==> p in locks)
    {
      assert p in locks ==> LockLinked(p);
      assert c in sessions ==> SessionLinked(c);
      assert c in sessions && p in sessions[c].locks ==> EntryLinked(c, p);
    }

    /** The session of a client, in the objects and in the view. */
    lemma KnownSession(c: Client)
      requires Valid()
      ensures Inv(view) && view.files == files && (c in sessions <==> c in view.sessions)
      ensures c in sessions ==>
        && sessions[c] in sessionObjects && sessions[c].clientId == c
        && sessions[c].terminated == view.sessions[c].terminated
    {
      Lookups(c, "");
    }

    /** The ownership test that the handlers make on a session's own entry. */
    lemma EntryOwnership(c: Client, p: Path)
      requires Linked() && c in sessions && p in sessions[c].locks
      ensures p in view.sessions[c].entries && p in locks
      ensures var l := sessions[c].locks[p];
        && l in lockObjects
        && (c in l.owners && l.owners[c] <==> view.sessions[c].entries[p] && Owns(view, c, p))
        && (c in l.owners ==> l == locks[p])
    {
      var l := sessions[c].locks[p];
      assert SessionLinked(c) && EntryLinked(c, p) && LockLinked(p);
      if l != locks[p] {
        assert l.Rec() == FREE_LOCK;
        assert l.owners.Keys == {};
      }
    }

    constructor (files: map<Path, string>)
      ensures Valid() && view == Init(files) && fresh(lockObjects) && fresh(sessionObjects)
    {
      this.files := files;
      locks, sessions, lockObjects, sessionObjects := map[], map[], {}, {};
      view := Init(files);
    }

    /** A change to the one lock of `p`, with its record in the view, keeps every lock linked. */
    twostate lemma LocksStayLinked(p: Path)
      requires old(Linked()) && locks == old(locks) && p in locks
      requires forall l :: l in old(lockObjects) && l != locks[p] ==> unchanged(l)
      requires view.table == old(view.table)[p := locks[p].Rec()]
      requires forall c :: c in locks[p].owners ==> locks[p].owners[c]
      ensures forall q :: q in locks ==> LockLinked(q)
    {
      forall q | q in locks ensures LockLinked(q) {
        assert old(LockLinked(q));
      }
    }

    /** A change to the one session of `c` keeps every session linked. */
    twostate lemma SessionsStayLinked(c: Client)
      requires old(Linked()) && locks == old(locks) && sessions == old(sessions) && c in sessions
      requires lockObjects == old(lockObjects)
      requires forall s :: s in old(sessionObjects) && s != sessions[c] ==> unchanged(s)
      requires c in view.sessions && view.sessions == old(view.sessions)[c := view.sessions[c]]
      requires SessionLinked(c)
      ensures forall d :: d in sessions ==> SessionLinked(d)
    {
      forall d | d in sessions && d != c ensures SessionLinked(d) {
        assert old(SessionLinked(d));
        forall q | q in sessions[d].locks ensures EntryLinked(d, q) {
          assert old(EntryLinked(d, q));
        }
      }
    }

    twostate lemma LocksUntouched()
      requires old(Linked()) && locks == old(locks) && view.table == old(view.table)
      requires forall l :: l in old(lockObjects) ==> unchanged(l)
      ensures forall q :: q in locks ==> LockLinked(q)
    {
      forall q | q in locks ensures LockLinked(q) {
        assert old(LockLinked(q));
      }
    }

    /** Sessions stay linked when the server-wide map only gains paths that no session knows. */
    twostate lemma SessionsUntouched()
      requires old(Linked()) && sessions == old(sessions) && view.sessions == old(view.sessions)
      requires forall p :: p in old(locks) ==> p in locks && locks[p] == old(locks)[p]
      requires old(lockObjects) <= lockObjects
      requires forall s :: s in old(sessionObjects) ==> unchanged(s)
      ensures forall d :: d in sessions ==> SessionLinked(d)
    {
      forall d | d in sessions ensures SessionLinked(d) {
        assert old(SessionLinked(d));
        forall q | q in sessions[d].locks ensures EntryLinked(d, q) {
          assert old(EntryLinked(d, q));
        }
      }
    }

    // ----- updates of single objects -----

    method GrantLock(p: Path, c: Client, m: Mode)
      requires Linked() && p in locks
      modifies this`view, locks[p]
      ensures Linked()
      ensures view == old(view).(table := old(view).table[p := LockRec(m, old(view).table[p].owners + {c})])
    {
      assert LockLinked(p);
      locks[p].Grant(c, m);
      view := view.(table := view.table[p := LockRec(m, view.table[p].owners + {c})]);
      LocksStayLinked(p);
      SessionsUntouched();
    }

    method DropLock(p: Path, l: Lock, c: Client)
      requires Linked() && p in locks && l == locks[p] && c in l.owners
      modifies this`view, l
      ensures Linked()
      ensures view == old(view).(table := old(view).table[p := Without(old(view).table[p], c)])
    {
      assert LockLinked(p);
      l.Drop(c);
      view := view.(table := view.table[p := Without(view.table[p], c)]);
      LocksStayLinked(p);
      SessionsUntouched();
    }

    /** Storing an object where the server-wide map already has it. */
    method StoreBack(p: Path, l: Lock)
      requires Linked() && p in locks && l == locks[p]
      modifies this`locks
      ensures Linked() && locks == old(locks)
    {
      locks := locks[p := l];
      assert locks == old(locks);
      SessionsUntouched();
      LocksUntouched();
    }

    method NewLock(p: Path) returns (l: Lock)
      requires Linked()
      modifies this`lockObjects
      ensures Linked() && fresh(l) && lockObjects == old(lockObjects) + {l} && l.path == p
    {
      l := new Lock(p);
      assert l.Rec() == FREE_LOCK && l.owners == map[];
      lockObjects := lockObjects + {l};
      SessionsUntouched();
      LocksUntouched();
    }

    /** The server-wide map takes an object only if it has none for the path. */
    method Publish(p: Path, l: Lock)
      requires Linked() && l in lockObjects && l.path == p
      modifies this`view, this`locks
      ensures Linked() && locks == if p in old(locks) then old(locks) else old(locks)[p := l]
      ensures view == old(view).(table := old(view).table[p := LockAt(old(view), p)])
    {
      if p !in locks { locks := locks[p := l]; }
      view := view.(table := view.table[p := LockAt(view, p)]);
      forall q | q in locks ensures LockLinked(q) {
        assert q in old(locks) ==> old(LockLinked(q));
      }
      SessionsUntouched();
    }

    method PutEntry(session: Session, p: Path, l: Lock)
      requires Linked() && session.clientId in sessions && session == sessions[session.clientId]
      requires l in lockObjects && l.path == p && p in locks
      modifies this`view, session`locks
      ensures Linked() && session.locks == old(session.locks)[p := l]
      ensures view == WithEntries(old(view), session.clientId, old(view).sessions[session.clientId].entries[p := l == locks[p]])
    {
      var c := session.clientId;
      assert SessionLinked(c);
      session.locks := session.locks[p := l];
      view := WithEntries(view, c, view.sessions[c].entries[p := l == locks[p]]);
      forall q | q in session.locks ensures EntryLinked(c, q) {
        if q != p { assert old(EntryLinked(c, q)); }
      }
      SessionsStayLinked(c);
      LocksUntouched();
    }

    method EraseEntry(session: Session, p: Path)
      requires Linked() && session.clientId in sessions && session == sessions[session.clientId]
      modifies this`view, session`locks
      ensures Linked() && session.locks == old(session.locks) - {p}
      ensures view == WithEntries(old(view), session.clientId, old(view).sessions[session.clientId].entries - {p})
    {
      var c := session.clientId;
      assert SessionLinked(c);
      session.locks := session.locks - {p};
      view := WithEntries(view, c, view.sessions[c].entries - {p});
      SessionsStayLinked(c);
      LocksUntouched();
    }

    method Terminate(session: Session)
      requires Linked() && session.clientId in sessions && session == sessions[session.clientId]
      modifies this`view, session`terminated
      ensures Linked()
      ensures var c := session.clientId;
              view == old(view).(sessions := old(view).sessions[c := old(view).sessions[c].(terminated := true)])
    {
      var c := session.clientId;
      assert SessionLinked(c);
      session.terminated := true;
      view := view.(sessions := view.sessions[c := view.sessions[c].(terminated := true)]);
      SessionsStayLinked(c);
      LocksUntouched();
    }

    method AddSession(session: Session)
      requires Linked() && session.clientId !in sessions && session.locks == map[] && !session.terminated
      modifies this`view, this`sessions, this`sessionObjects
      ensures Linked() && sessionObjects == old(sessionObjects) + {session}
      ensures sessions == old(sessions)[session.clientId := session]
      ensures view == old(view).(sessions := old(view).sessions[session.clientId := Sess(map[], false)])
    {
      sessions := sessions[session.clientId := session];
      sessionObjects := sessionObjects + {session};
      view := view.(sessions := view.sessions[session.clientId := Sess(map[], false)]);
      OldSessionsStayLinked(session);
      LocksUntouched();
    }

    twostate lemma OldSessionsStayLinked(new session: Session)
      requires old(Linked()) && locks == old(locks) && lockObjects == old(lockObjects)
      requires sessions == old(sessions)[session.clientId := session] && session.clientId !in old(sessions)
      requires forall s :: s in old(sessionObjects) ==> unchanged(s)
      requires session.clientId in view.sessions && view.sessions == old(view.sessions)[session.clientId := view.sessions[session.clientId]]
      requires SessionLinked(session.clientId)
      ensures forall d :: d in sessions ==> SessionLinked(d)
    {
      forall d | d in sessions && d != session.clientId ensures SessionLinked(d) {
        assert old(SessionLinked(d));
        forall q | q in sessions[d].locks ensures EntryLinked(d, q) {
          assert old(EntryLinked(d, q));
        }
      }
    }

    /** `append_log` of a write: the store changes when the log commits it. */
    method AppendWrite(p: Path, content: string, committed: bool)
      requires Linked()
      modifies this`view, this`files
      ensures Linked()
      ensures view == if committed then old(view).(files := old(view).files[p := content]) else old(view)
    {
      if committed {
        files := files[p := content];
        view := view.(files := view.files[p := content]);
      }
      SessionsUntouched();
      LocksUntouched();
    }

    // ----- handlers -----

    /** A new session object is dropped again when the client already has one, terminated or not. */
    method CreateSession(c: Client, now: int) returns (out: Outcome)
      requires Valid()
      modifies this
      ensures Valid() && fresh(sessionObjects - old(sessionObjects)) && lockObjects == old(lockObjects)
      ensures c in sessions && sessions == old(sessions)[c := sessions[c]]
      ensures if c in old(sessions) then sessions[c] == old(sessions)[c]
              else fresh(sessions[c]) && sessions[c].TheLease() == ServerLease(now, DEFAULT_LEASE_EXTENSION, false) && sessions[c].blockReply == 0
      ensures Reply(view, out) == LockSpec.CreateSession(old(view), c)
    {
      hide Inv; hide Linked;
      Lookups(c, "");
      CreateKeepsInv(view, c);
      if c in sessions {
        if !sessions[c].terminated { return SessionExists; }
      }
      var session := new Session(c, now);
      if c !in sessions { AddSession(session); }
      out := Ok;
    }

    method OpenLock(c: Client, p: Path, committed: bool) returns (out: Outcome)
      requires Valid()
      modifies this, sessionObjects`locks
      ensures Valid() && sessionObjects == old(sessionObjects) && fresh(lockObjects - old(lockObjects))
      ensures sessions == old(sessions)
      ensures Reply(view, out) == Open(old(view), c, p, committed)
    {
      hide Inv; hide Linked;
      Lookups(c, p);
      if c !in sessions { return NoSession; }
      if p in files { return FileExists; }
      OpenKeepsInv(view, c, p, committed);
      AppendWrite(p, "", committed);
      CreateLock(sessions[c], p);
      out := Ok;
    }

    /** A new lock object that each index takes only if it has none for the path. */
    method CreateLock(session: Session, p: Path)
      requires Linked() && session.clientId in sessions && session == sessions[session.clientId]
      modifies this`view, this`locks, this`lockObjects, session`locks
      ensures Linked() && fresh(lockObjects - old(lockObjects))
      ensures var c, entries := session.clientId, old(view).sessions[session.clientId].entries;
              view == WithEntries(old(view), c, if p in entries then entries else entries[p := p !in old(view).table])
                        .(table := old(view).table[p := LockAt(old(view), p)])
    {
      hide Linked;
      Lookups(session.clientId, p);
      TableAndEntries(view, session.clientId, p);
      hide WithEntries; hide LockAt;
      var lock := NewLock(p);
      Publish(p, lock);
      if p !in session.locks { PutEntry(session, p, lock); }
    }

    /** The table and the entries of a session can be replaced in either order. */
    lemma TableAndEntries(st: State, c: Client, p: Path)
      requires c in st.sessions
      ensures forall entries, table :: WithEntries(st.(table := table), c, entries) == WithEntries(st, c, entries).(table := table)
      ensures WithEntries(st, c, st.sessions[c].entries) == st
    {
      assert st.sessions[c := st.sessions[c].(entries := st.sessions[c].entries)] == st.sessions;
    }

    /** A path without a lock in memory gets a free one. */
    method LoadLock(session: Session, p: Path)
      requires Linked() && session.clientId in sessions && session == sessions[session.clientId]
      modifies this`view, this`locks, this`lockObjects, session`locks
      ensures Linked() && fresh(lockObjects - old(lockObjects)) && p in locks
      ensures p in old(locks) ==> view == old(view)
      ensures p !in old(locks) && p !in old(session.locks) ==>
        var c := session.clientId;
        view == WithEntries(old(view), c, old(view).sessions[c].entries[p := true])
                  .(table := old(view).table[p := FREE_LOCK])
    {
      hide Linked;
      Lookups(session.clientId, p);
      if p !in locks {
        var lock := NewLock(p);
        Publish(p, lock);
        if p !in session.locks { PutEntry(session, p, lock); }
      }
    }

    /** The updates of a granted request. */
    method Attach(session: Session, p: Path, l: Lock, m: Mode)
      requires Linked() && session.clientId in sessions && session == sessions[session.clientId]
      requires p in locks && l == locks[p]
      modifies this`view, this`locks, l, session`locks
      ensures Linked()
      ensures var c := session.clientId;
              view == WithEntries(old(view), c, old(view).sessions[c].entries[p := true])
                        .(table := old(view).table[p := LockRec(m, old(view).table[p].owners + {c})])
    {
      hide Linked;
      Lookups(session.clientId, p);
      GrantLock(p, session.clientId, m);
      PutEntry(session, p, l);
      StoreBack(p, l);
    }

    method AcquireLock(c: Client, p: Path, m: Mode) returns (out: Outcome)
      requires Valid()
      modifies this, lockObjects, sessionObjects`locks
      ensures Valid() && sessionObjects == old(sessionObjects) && fresh(lockObjects - old(lockObjects))
      ensures sessions == old(sessions)
      ensures Reply(view, out) == Acquire(old(view), c, p, m)
    {
      hide Inv; hide Linked;
      Lookups(c, p);
      if c !in sessions { return NoSession; }
      var session := sessions[c];
      if m != Exclusive && m != Shared { return FreeModeRequested; }
      if p !in files { return NoFile; }
      AcquireKeepsInv(view, c, p, m);
      LoadLock(session, p);
      Lookups(c, p);
      var l := locks[p];
      if l.status == Exclusive { return HeldExclusively; }
      if l.status == Shared && m != Shared { return HeldShared; }
      Granted(old(view), view, c, p, m);
      Attach(session, p, l, m);
      out := Ok;
    }

    /** Loading a free lock first makes no difference to what a grant leaves behind. */
    lemma Granted(st: State, loaded: State, c: Client, p: Path, m: Mode)
      requires Acquire(st, c, p, m).out == Ok
      requires if p in st.table then loaded == st
               else loaded == WithEntries(st, c, st.sessions[c].entries[p := true]).(table := st.table[p := FREE_LOCK])
      ensures Acquire(st, c, p, m).st == WithEntries(loaded, c, loaded.sessions[c].entries[p := true])
                                           .(table := loaded.table[p := LockRec(m, loaded.table[p].owners + {c})])
    {
      var after := WithEntries(loaded, c, loaded.sessions[c].entries[p := true])
                     .(table := loaded.table[p := LockRec(m, loaded.table[p].owners + {c})]);
      assert after.table == Acquire(st, c, p, m).st.table;
      assert after.sessions[c].entries == st.sessions[c].entries[p := true];
      assert after.sessions == Acquire(st, c, p, m).st.sessions;
    }

    /** The updates of a granted release. */
    method Detach(session: Session, p: Path, l: Lock)
      requires Linked() && session.clientId in sessions && session == sessions[session.clientId]
      requires p in locks && l == locks[p] && session.clientId in l.owners
      modifies this`view, this`locks, l, session`locks
      ensures Linked()
      ensures var c := session.clientId;
              view == WithEntries(old(view), c, old(view).sessions[c].entries - {p})
                        .(table := old(view).table[p := Without(old(view).table[p], c)])
    {
      hide Linked;
      Lookups(session.clientId, p);
      DropLock(p, l, session.clientId);
      EraseEntry(session, p);
      StoreBack(p, l);
    }

    method ReleaseLock(c: Client, p: Path) returns (out: Outcome)
      requires Valid()
      modifies this, lockObjects, sessionObjects`locks
      ensures Valid() && sessionObjects == old(sessionObjects) && lockObjects == old(lockObjects)
      ensures sessions == old(sessions)
      ensures Reply(view, out) == Release(old(view), c, p)
    {
      hide Inv; hide Linked;
      Lookups(c, p);
      if c !in sessions { return NoSession; }
      var session := sessions[c];
      if p !in files { return NoFile; }
      if p !in session.locks { return NotInSession; }
      EntryOwnership(c, p);
      var l := session.locks[p];
      if c !in l.owners || !l.owners[c] { return NotOwner; }
      ReleaseKeepsInv(view, c, p);
      Detach(session, p, l);
      out := Ok;
    }

    /** Terminates the session, then releases its first entry again and again until one is refused. */
    method EndSession(session: Session)
      requires Valid() && session.clientId in sessions && session == sessions[session.clientId]
      modifies this, lockObjects, sessionObjects`locks, sessionObjects`terminated
      ensures Valid() && sessionObjects == old(sessionObjects) && lockObjects == old(lockObjects)
      ensures sessions == old(sessions)
      ensures view == LockSpec.EndSession(old(view), session.clientId)
    {
      hide Inv; hide Linked; hide EndLocks; hide Release;
      var c := session.clientId;
      Lookups(c, "");
      Terminate(session);
      TerminateKeepsInv(old(view), c);
      ghost var marked := view;
      Lookups(c, "");
      while session.locks != map[]
        invariant Valid() && sessions == old(sessions)
        invariant sessionObjects == old(sessionObjects) && lockObjects == old(lockObjects)
        invariant c in view.sessions && view.sessions[c].entries.Keys == session.locks.Keys
        invariant EndLocks(view, c) == EndLocks(marked, c)
        decreases |session.locks.Keys|
      {
        FirstExists(session.locks.Keys);
        var p :| p in session.locks && forall q :: q in session.locks && q != p ==> Less(p, q);
        EndLocksOnce(view, c, p);
        var out := ReleaseLock(c, p);
        Lookups(c, p);
        if out != Ok { return; }
      }
      NoEntriesLeft(view, c);
    }

    method CloseSession(c: Client) returns (out: Outcome)
      requires Valid()
      modifies this, lockObjects, sessionObjects`locks, sessionObjects`terminated
      ensures Valid() && sessionObjects == old(sessionObjects) && lockObjects == old(lockObjects)
      ensures sessions == old(sessions)
      ensures Reply(view, out) == LockSpec.CloseSession(old(view), c)
    {
      hide Inv; hide Linked;
      Lookups(c, "");
      if c !in sessions { return NoSessionToEnd; }
      if sessions[c].terminated { return NoSessionToEnd; }
      EndSession(sessions[c]);
      out := Ok;
    }

    method DeleteLock(c: Client, p: Path) returns (out: Outcome)
      requires Valid()
      ensures Reply(view, out) == Delete(view, c, p)
    {
      hide Inv; hide Linked;
      Lookups(c, p);
      if c !in sessions { return NoSession; }
      var session := sessions[c];
      if p !in session.locks { return NotInSession; }
      EntryStatus(c, p);
      if session.locks[p].status != Exclusive { return NotExclusive; }
      if p in files { return FileExists; }
      DeleteNeverRemoves(view, c, p);
      assert false;   // the removal of file, entry and lock would follow here
    }

    lemma EntryStatus(c: Client, p: Path)
      requires Linked() && c in sessions && p in sessions[c].locks
      ensures p in view.sessions[c].entries
      ensures sessions[c].locks[p].status == if view.sessions[c].entries[p] then LockAt(view, p).status else Free
    {
      assert SessionLinked(c) && EntryLinked(c, p) && LockLinked(p);
    }

    lemma ReadsOfOwners(c: Client, p: Path)
      requires Inv(view)
      ensures Read(view, c, p).0 == Ok <==> Owns(view, c, p)
    {
      if Owns(view, c, p) { assert Backed(view, c, p); }
    }

    method ReadFile(c: Client, p: Path) returns (out: Outcome, content: string)
      requires Valid()
      ensures (out, content) == Read(view, c, p)
      ensures out == Ok <==> Owns(view, c, p)
    {
      hide Inv; hide Linked;
      ReadsOfOwners(c, p);
      Lookups(c, p);
      if c !in sessions { return NoSession, ""; }
      if p !in files { return ReadThrows, ""; }
      content := files[p];
      var session := sessions[c];
      if p !in session.locks { return NotInSession, content; }
      EntryOwnership(c, p);
      var l := session.locks[p];
      if c !in l.owners || !l.owners[c] { return NotOwner, content; }
      out := Ok;
    }

    method WriteFile(c: Client, p: Path, content: string, committed: bool) returns (out: Outcome)
      requires Valid()
      modifies this`files, this`view
      ensures Valid()
      ensures Reply(view, out) == Write(old(view), c, p, content, committed)
    {
      hide Inv; hide Linked;
      Lookups(c, p);
      if c !in sessions { return NoSession; }
      if p !in files { return NoFile; }
      var session := sessions[c];
      if p !in session.locks { return NotInSession; }
      EntryOwnership(c, p);
      var l := session.locks[p];
      if c !in l.owners || !l.owners[c] { return NotOwner; }
      WriteKeepsInv(view, c, p, content, committed);
      AppendWrite(p, content, committed);
      out := Ok;
    }

    /** `handle_jeopardy` up to its wait for a token; `claims` are in the order in which the iteration meets them. */
    method Recover(c: Client, claims: seq<Claim>, now: int) returns (out: Outcome)
      requires Valid()
      modifies this, lockObjects, sessionObjects`locks, sessionObjects`terminated
      ensures Valid() && fresh(sessionObjects - old(sessionObjects))
      ensures Reply(view, out) == Jeopardy(old(view), c, claims)
      ensures out == Ok <==> c !in old(sessions) || old(sessions[c].terminated)
      ensures out != Ok ==> view == old(view)
      ensures c in sessions && sessions == old(sessions)[c := sessions[c]]
      ensures if c in old(sessions) then sessions[c] == old(sessions)[c] && sessions[c].terminated == old(sessions[c].terminated)
              else fresh(sessions[c]) && sessions[c].startTime == now && sessions[c].leaseLength == DEFAULT_LEASE_EXTENSION && sessions[c].blockReply == 0
    {
      hide Inv; hide Linked; hide ClaimAll;
      Lookups(c, "");
      JeopardyKeepsTerminated(view, c, claims);
      out := CreateSession(c, now);
      Lookups(c, "");
      if out == Ok { ClaimLocks(c, claims); }
      Lookups(c, "");
    }

    /** The whole handler, for which the thread that it launches, or an earlier one, has put a token. */
    method HandleJeopardy(c: Client, claims: seq<Claim>, now: int) returns (length: int)
      requires Valid()
      modifies this, lockObjects, sessionObjects`locks, sessionObjects`terminated,
               if c in sessions then {sessions[c]} else {}
      ensures Valid() && c in sessions && sessions == old(sessions)[c := sessions[c]]
      ensures view == Jeopardy(old(view), c, claims).st
      ensures c in old(sessions) ==>
        && length == (if old(sessions[c].terminated) then old(sessions[c].leaseLength) else -1)
        && sessions[c].TheLease() == old(sessions[c].TheLease())
      ensures c !in old(sessions) ==>
        && sessions[c].startTime == now && length == sessions[c].leaseLength
        && length == if sessions[c].terminated then DEFAULT_LEASE_EXTENSION else 2 * DEFAULT_LEASE_EXTENSION
    {
      hide Inv; hide Linked; hide Jeopardy;
      var out := Recover(c, claims, now);
      KnownSession(c);
      if out != Ok { return -1; }
      PutToken(sessions[c]);
      length := AttemptExtendSession(c);
    }

    lemma JeopardyKeepsTerminated(st: State, c: Client, claims: seq<Claim>)
      requires Inv(st)
      ensures c in st.sessions && st.sessions[c].terminated ==>
        c in Jeopardy(st, c, claims).st.sessions && Jeopardy(st, c, claims).st.sessions[c].terminated
    {
      if c in st.sessions && st.sessions[c].terminated { StepKeepsTerminated(st, OpJeopardy(c, claims), c); }
    }

    method PutToken(session: Session)
      requires Valid() && session.clientId in sessions && session == sessions[session.clientId]
      modifies session`blockReply
      ensures Valid() && session.blockReply == old(session.blockReply) + 1
    {
      hide Inv;
      assert SessionLinked(session.clientId);
      session.blockReply := session.blockReply + 1;
      forall q | q in session.locks ensures EntryLinked(session.clientId, q) {
        assert old(EntryLinked(session.clientId, q));
      }
      SessionsStayLinked(session.clientId);
      LocksUntouched();
    }

    /** For a client with a session, once there is a token: takes it, and extends the session if it lives. */
    method AttemptExtendSession(c: Client) returns (length: int)
      requires Valid() && (c in sessions ==> sessions[c].blockReply > 0)
      modifies if c in sessions then {sessions[c]} else {}
      ensures Valid() && (c !in sessions ==> length == -1)
      ensures c in sessions ==>
        && length == sessions[c].leaseLength
        && sessions[c].blockReply == old(sessions[c].blockReply) - 1
        && sessions[c].TheLease() == Extended(old(sessions[c].TheLease()))
    {
      hide Inv;
      if c !in sessions { return -1; }
      var session := sessions[c];
      assert SessionLinked(c);
      session.blockReply := session.blockReply - 1;
      if !session.terminated { session.leaseLength := session.leaseLength + DEFAULT_LEASE_EXTENSION; }
      length := session.leaseLength;
      SessionsStayLinked(c);
      LocksUntouched();
    }

    method ClaimLocks(c: Client, claims: seq<Claim>)
      requires Valid() && c in sessions && c in view.sessions
      modifies this, lockObjects, sessionObjects`locks, sessionObjects`terminated
      ensures Valid() && view == ClaimAll(old(view), c, claims)
      ensures sessions == old(sessions) && sessionObjects == old(sessionObjects)
    {
      hide Inv; hide Linked; hide LockSpec.EndSession; hide Acquire;
      assert claims[..0] == [];
      for i := 0 to |claims|
        invariant Valid() && c in sessions && sessions == old(sessions)
        invariant fresh(lockObjects - old(lockObjects)) && sessionObjects == old(sessionObjects)
        invariant view == ClaimAll(old(view), c, claims[..i])
      {
        RefusalChangesNothing(view, c, claims[i].path, claims[i].mode);
        var acquired := AcquireLock(c, claims[i].path, claims[i].mode);
        Lookups(c, "");
        if acquired != Ok { EndSession(sessions[c]); }
        assert claims[..i + 1][..i] == claims[..i];
      }
      assert claims[..|claims|] == claims;
    }
  }
}
