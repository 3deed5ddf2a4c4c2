/** The client library over a server: its calls keep the map of held locks that `ClientView` describes. */
module LockClient {
  import opened LockSpec
  import opened LockInvariant
  import opened LockServer
  import opened ClientView
  import opened Outcomes

  class LockClient {
    const sessionId: Client
    const master: Server
    var locks: map<Path, Mode>

    constructor (sessionId: Client, master: Server)
      ensures this.sessionId == sessionId && this.master == master && locks == map[]
    {
      this.sessionId, this.master, locks := sessionId, master, map[];
    }

    ghost function TheSystem(): System
      reads this, master
    {
      System(master.view, locks)
    }

    /** `blocked`: the session was in jeopardy, and still was, or had expired, when waiting ended. */
    method AcquireLock(p: Path, m: Mode, blocked: bool) returns (ok: bool)
      requires master.Valid()
      modifies this`locks, master, master.lockObjects, master.sessionObjects`locks
      ensures master.Valid()
      ensures TheSystem() == Next(old(TheSystem()), sessionId, Mine(CallAcquire(p, m), blocked))
      ensures ok <==> !blocked && Acquire(old(master.view), sessionId, p, m).out == Ok
      ensures ok ==> Holds(master.view, sessionId, p, m) && p in locks
      ensures locks == if ok && p !in old(locks) then old(locks)[p := m] else old(locks)
      ensures !ok ==> master.view == old(master.view)
    {
      hide Server.Valid; hide Inv; hide Acquire; hide Step; hide Holds; hide Owns;
      Granted(master.view, p, m);
      RefusalChangesNothing(master.view, sessionId, p, m);
      if blocked { return false; }
      var status := master.AcquireLock(sessionId, p, m);
      ok := status == Ok;
      if ok && p !in locks { locks := locks[p := m]; }
    }

    /** A path that the client does not list never reaches the server. */
    method ReleaseLock(p: Path, blocked: bool) returns (ok: bool)
      requires master.Valid()
      modifies this`locks, master, master.lockObjects, master.sessionObjects`locks
      ensures master.Valid()
      ensures TheSystem() == Next(old(TheSystem()), sessionId, Mine(CallRelease(p), blocked))
      ensures ok <==> !blocked && p in old(locks) && Release(old(master.view), sessionId, p).out == Ok
      ensures ok ==> !Owns(master.view, sessionId, p) && old(Owns(master.view, sessionId, p))
      ensures locks == if ok then old(locks) - {p} else old(locks)
      ensures !ok ==> master.view == old(master.view)
    {
      hide Server.Valid; hide Inv; hide Release; hide Step; hide Owns;
      Released(master.view, p);
      if blocked || p !in locks { return false; }
      var status := master.ReleaseLock(sessionId, p);
      ok := status == Ok;
      if ok { locks := locks - {p}; }
    }

    /** A successful read erases the path from the client's map, as a release would. */
    method Read(p: Path, blocked: bool) returns (ok: bool, content: string)
      requires master.Valid()
      modifies this`locks
      ensures master.Valid()
      ensures TheSystem() == Next(old(TheSystem()), sessionId, Mine(CallRead(p), blocked))
      ensures ok <==> !blocked && p in old(locks) && LockSpec.Read(master.view, sessionId, p).0 == Ok
      ensures content == if blocked || p !in old(locks) then "" else LockSpec.Read(master.view, sessionId, p).1
      ensures ok <==> !blocked && p in old(locks) && Owns(master.view, sessionId, p)
      ensures ok ==> p in master.view.files && content == master.view.files[p]
      ensures locks == if ok then old(locks) - {p} else old(locks)
    {
      hide Server.Valid; hide Inv; hide Step; hide Owns; hide LockSpec.Read;
      FileOf(p);
      if blocked || p !in locks { return false, ""; }
      var status, text := master.ReadFile(sessionId, p);
      ok, content := status == Ok, text;
      if ok { locks := locks - {p}; }
    }

    method Write(p: Path, content: string, committed: bool, blocked: bool) returns (ok: bool)
      requires master.Valid()
      modifies master`files, master`view
      ensures master.Valid()
      ensures TheSystem() == Next(old(TheSystem()), sessionId, Mine(CallWrite(p, content, committed), blocked))
      ensures ok <==> !blocked && p in locks && LockSpec.Write(old(master.view), sessionId, p, content, committed).out == Ok
      ensures ok <==> !blocked && p in locks && old(Owns(master.view, sessionId, p))
      ensures master.view == if ok && committed then old(master.view).(files := old(master.view).files[p := content]) else old(master.view)
      ensures master.files == master.view.files
    {
      hide Server.Valid; hide Inv; hide Step;
      master.KnownSession(sessionId);
      WriteAnswers(master.view, sessionId, p, content, committed);
      if blocked || p !in locks { return false; }
      var status := master.WriteFile(sessionId, p, content, committed);
      ok := status == Ok;
      master.KnownSession(sessionId);
    }

    /** What is written, acknowledged and committed is what a read through the library returns next. */
    method WriteThenRead(p: Path, content: string, committed: bool) returns (written: bool, read: bool, text: string)
      requires master.Valid()
      modifies this`locks, master`files, master`view
      ensures master.Valid() && (written <==> read)
      ensures written <==> p in old(locks) && old(Owns(master.view, sessionId, p))
      ensures written && committed ==> text == content
      ensures written && !committed ==> p in old(master.view.files) && text == old(master.view.files[p])
    {
      hide Server.Valid; hide Inv; hide Next;
      written := Write(p, content, committed, false);
      read, text := Read(p, false);
    }

    lemma Granted(st: State, p: Path, m: Mode)
      ensures Acquire(st, sessionId, p, m).out == Ok ==> Holds(Acquire(st, sessionId, p, m).st, sessionId, p, m)
    {
    }

    lemma Released(st: State, p: Path)
      ensures Release(st, sessionId, p).out == Ok ==>
        Owns(st, sessionId, p) && !Owns(Release(st, sessionId, p).st, sessionId, p)
      ensures Release(st, sessionId, p).out != Ok ==> Release(st, sessionId, p).st == st
    {
    }

    lemma FileOf(p: Path)
      requires master.Valid()
      ensures LockSpec.Read(master.view, sessionId, p).0 == Ok <==> Owns(master.view, sessionId, p)
      ensures Owns(master.view, sessionId, p) ==>
        p in master.view.files && LockSpec.Read(master.view, sessionId, p).1 == master.view.files[p]
    {
      ReadAnswers(master.view, sessionId, p);
      if Owns(master.view, sessionId, p) { assert Backed(master.view, sessionId, p); }
    }
  }
}
