/**
  The client library's own map of held locks, next to the server's table. Replies are reliable:
  a client call and its handler are one step. `blocked` says that the call found the client in
  jeopardy and gave up waiting, so that it never reached the server.
*/
module ClientView {
  import opened LockSpec
  import opened LockInvariant
  import opened Isolation

  datatype System = System(server: State, view: map<Path, Mode>)

  datatype Call =
    | CallOpen(p: Path, committed: bool)
    | CallDelete(p: Path)
    | CallAcquire(p: Path, m: Mode)
    | CallRelease(p: Path)
    | CallRead(p: Path)
    | CallWrite(p: Path, content: string, committed: bool)

  /** A step of the client `c`, or any step of the server on behalf of somebody else. */
  datatype Event = Mine(call: Call, blocked: bool) | Theirs(op: Op)

  function Insert(view: map<Path, Mode>, p: Path, m: Mode): map<Path, Mode> {
    if p in view then view else view[p := m]
  }

  function ClientAcquire(s: System, c: Client, p: Path, m: Mode): System {
    var r := Acquire(s.server, c, p, m);
    System(r.st, if r.out == Ok then Insert(s.view, p, m) else s.view)
  }

  function ClientRelease(s: System, c: Client, p: Path): System {
    if p !in s.view then s
    else
      var r := Release(s.server, c, p);
      System(r.st, if r.out == Ok then s.view - {p} else s.view)
  }

  /** A successful read drops the path from the client's map. */
  function ClientRead(s: System, c: Client, p: Path): System {
    if p in s.view && Read(s.server, c, p).0 == Ok then s.(view := s.view - {p}) else s
  }

  function ClientWrite(s: System, c: Client, p: Path, content: string, committed: bool): System {
    if p !in s.view then s else s.(server := Write(s.server, c, p, content, committed).st)
  }

  ghost function Next(s: System, c: Client, e: Event): System {
    match e
    case Theirs(op) => s.(server := Step(s.server, op))
    case Mine(call, blocked) =>
      if blocked then s else
      match call
      case CallOpen(p, committed) => s.(server := Open(s.server, c, p, committed).st)
      case CallDelete(p) => s.(server := Delete(s.server, c, p).st)
      case CallAcquire(p, m) => ClientAcquire(s, c, p, m)
      case CallRelease(p) => ClientRelease(s, c, p)
      case CallRead(p) => ClientRead(s, c, p)
      case CallWrite(p, content, committed) => ClientWrite(s, c, p, content, committed)
  }

  ghost function Trace(s: System, c: Client, events: seq<Event>): System
    decreases |events|
  {
    if events == [] then s else Trace(Next(s, c, events[0]), c, events[1..])
  }

  /** Nobody acts on the server in the name of `c` but `c` itself: in particular its session is not ended. */
  ghost predicate OthersOnly(events: seq<Event>, c: Client) {
    forall i :: 0 <= i < |events| && events[i].Theirs? ==> events[i].op.c != c
  }

  /** Every lock in the client's map is one that the server records for it, in that mode. */
  ghost predicate Sound(s: System, c: Client) {
    forall p :: p in s.view ==> Holds(s.server, c, p, s.view[p])
  }

  ghost predicate Complete(s: System, c: Client) {
    forall p :: Owns(s.server, c, p) ==> p in s.view
  }

  /** The handler that an event runs, if it reaches the server at all. */
  function Handler(c: Client, e: Event): Op {
    match e
    case Theirs(op) => op
    case Mine(CallOpen(p, committed), _) => OpOpen(c, p, committed)
    case Mine(CallDelete(p), _) => OpDelete(c, p)
    case Mine(CallAcquire(p, m), _) => OpAcquire(c, p, m)
    case Mine(CallRelease(p), _) => OpRelease(c, p)
    case Mine(CallRead(p), _) => OpRead(c, p)
    case Mine(CallWrite(p, content, committed), _) => OpWrite(c, p, content, committed)
  }

  /** A release, a read and a write go out for listed paths only. */
  predicate Reaches(s: System, call: Call) {
    call.CallOpen? || call.CallDelete? || call.CallAcquire? || call.p in s.view
  }

  /** A call that is not blocked and reaches the server runs its handler there, once, and any other runs nothing. */
  lemma ServerRunsTheHandler(s: System, c: Client, e: Event)
    ensures Next(s, c, e).server ==
            if e.Theirs? || (!e.blocked && Reaches(s, e.call)) then Step(s.server, Handler(c, e)) else s.server
  {
  }

  // ----- what a call achieves -----

  /** A granted request is held in its mode and listed with it, and nothing else in the map moves. */
  lemma AcquiredIsHeldAndListed(s: System, c: Client, p: Path, m: Mode)
    requires Inv(s.server) && Sound(s, c) && Acquire(s.server, c, p, m).out == Ok
    ensures var t := Next(s, c, Mine(CallAcquire(p, m), false));
      && Holds(t.server, c, p, m) && t.view == s.view[p := m]
  {
    if p in s.view {
      assert Holds(s.server, c, p, s.view[p]);
      AcquireGrantedIffNoConflict(s.server, c, p, m);
    }
  }

  /** A listed lock can always be released: it is neither owned nor listed then. */
  lemma ReleasedIsGone(s: System, c: Client, p: Path)
    requires Inv(s.server) && Sound(s, c) && p in s.view
    ensures var t := Next(s, c, Mine(CallRelease(p), false));
      && Release(s.server, c, p).out == Ok && !Owns(t.server, c, p) && t.view == s.view - {p}
  {
    assert Owns(s.server, c, p) && Backed(s.server, c, p);
  }

  /**
    A write to a listed path reaches the file if it is committed, and a read through the library then
    returns it; no lock moves, and no other file.
  */
  lemma WriteThenRead(s: System, c: Client, p: Path, content: string)
    requires Inv(s.server) && Sound(s, c) && p in s.view
    ensures var t := Next(s, c, Mine(CallWrite(p, content, true), false));
      && Write(s.server, c, p, content, true).out == Ok
      && t == s.(server := s.server.(files := s.server.files[p := content]))
      && Read(t.server, c, p) == (Ok, content)
  {
    assert Owns(s.server, c, p) && Backed(s.server, c, p);
  }

  /** A listed path can be read; the read takes it from the map and leaves the server as it is. */
  lemma ReadOfAListedPath(s: System, c: Client, p: Path)
    requires Inv(s.server) && Sound(s, c) && p in s.view
    ensures var t := Next(s, c, Mine(CallRead(p), false));
      && p in s.server.files && Read(s.server, c, p) == (Ok, s.server.files[p])
      && t == System(s.server, s.view - {p})
  {
    assert Owns(s.server, c, p) && Backed(s.server, c, p);
  }

  lemma NextKeepsServerInv(s: System, c: Client, e: Event)
    requires Inv(s.server)
    ensures Inv(Next(s, c, e).server)
  {
    ServerRunsTheHandler(s, c, e);
    StepKeepsInv(s.server, Handler(c, e));
  }

  lemma NextKeepsSound(s: System, c: Client, e: Event)
    requires Inv(s.server) && Sound(s, c) && (e.Theirs? ==> e.op.c != c)
    ensures Sound(Next(s, c, e), c)
  {
    if e.Theirs? {
      forall p | p in s.view ensures Holds(Next(s, c, e).server, c, p, s.view[p]) {
        OthersKeepTheirLocks(s.server, e.op, c, p, s.view[p]);
      }
    } else {
      MyStepKeepsSound(s, c, e.call);
    }
  }

  lemma MyStepKeepsSound(s: System, c: Client, call: Call)
    requires Inv(s.server) && Sound(s, c)
    ensures Sound(Next(s, c, Mine(call, false)), c)
  {
    hide Inv;
    match call
    case CallOpen(p, committed) => OpenHoldings(s.server, c, p, committed);
    case CallDelete(p) => DeleteNeverRemoves(s.server, c, p);
    case CallAcquire(p, m) =>
      if Acquire(s.server, c, p, m).out == Ok {
        AcquireHoldings(s.server, c, p, m);
        AcquiredIsHeldAndListed(s, c, p, m);
      }
    case CallRelease(p) =>
      if p in s.view && Release(s.server, c, p).out == Ok { ReleaseHoldings(s.server, c, p); }
    case _ =>
  }

  /** The client's map is sound throughout every interleaving with other clients. */
  lemma {:induction false} ClientViewIsSound(s: System, c: Client, events: seq<Event>)
    requires Inv(s.server) && Sound(s, c) && OthersOnly(events, c)
    ensures Sound(Trace(s, c, events), c) && Inv(Trace(s, c, events).server)
    decreases |events|
  {
    if events != [] {
      NextKeepsSound(s, c, events[0]);
      NextKeepsServerInv(s, c, events[0]);
      ClientViewIsSound(Next(s, c, events[0]), c, events[1..]);
    }
  }

  /** It starts out sound and complete: a client that has just opened its first session holds nothing. */
  lemma FreshSession(st: State, c: Client)
    requires Inv(st) && c !in st.sessions
    ensures Sound(System(CreateSession(st, c).st, map[]), c) && Complete(System(CreateSession(st, c).st, map[]), c)
  {
    assert forall p :: Owns(st, c, p) ==> Backed(st, c, p);
  }

  /** So a client that opens its first session, whatever the server already holds, has a sound map from then on. */
  lemma SoundFromTheFirstSession(st: State, c: Client, events: seq<Event>)
    requires Inv(st) && c !in st.sessions && OthersOnly(events, c)
    ensures Sound(Trace(System(CreateSession(st, c).st, map[]), c, events), c)
  {
    FreshSession(st, c);
    CreateKeepsInv(st, c);
    ClientViewIsSound(System(CreateSession(st, c).st, map[]), c, events);
  }

  ghost predicate NoReads(events: seq<Event>) {
    forall i :: 0 <= i < |events| && events[i].Mine? ==> !events[i].call.CallRead?
  }

  lemma NextKeepsComplete(s: System, c: Client, e: Event)
    requires Inv(s.server) && Sound(s, c) && Complete(s, c)
    requires if e.Theirs? then e.op.c != c else !e.call.CallRead?
    ensures Complete(Next(s, c, e), c)
  {
    var t := Next(s, c, e);
    if e.Theirs? {
      forall p | Owns(t.server, c, p) ensures p in t.view {
        OthersKeepTheirLocks(s.server, e.op, c, p, t.server.table[p].status);
        assert Owns(s.server, c, p);
      }
    } else {
      MyStepKeepsComplete(s, c, e.call);
    }
  }

  lemma MyStepKeepsComplete(s: System, c: Client, call: Call)
    requires Inv(s.server) && Complete(s, c) && !call.CallRead?
    ensures Complete(Next(s, c, Mine(call, false)), c)
  {
    var t := Next(s, c, Mine(call, false));
    match call
    case CallOpen(p, committed) => OpenHoldings(s.server, c, p, committed);
    case CallDelete(p) => DeleteNeverRemoves(s.server, c, p);
    case CallAcquire(p, m) =>
      if Acquire(s.server, c, p, m).out == Ok { AcquireHoldings(s.server, c, p, m); }
    case CallRelease(p) =>
      if p in s.view && Release(s.server, c, p).out == Ok { ReleaseHoldings(s.server, c, p); }
    case CallWrite(_, _, _) =>
    forall q | Owns(t.server, c, q) ensures q in t.view {
      assert Holds(t.server, c, q, t.server.table[q].status);
      assert Owns(s.server, c, q) || (call.CallAcquire? && q == call.p);
    }
  }

  /** Without reads the two sides agree exactly. */
  lemma {:induction false} ClientViewIsExactWithoutReads(s: System, c: Client, events: seq<Event>)
    requires Inv(s.server) && Sound(s, c) && Complete(s, c) && OthersOnly(events, c) && NoReads(events)
    ensures forall p, m :: p in Trace(s, c, events).view && Trace(s, c, events).view[p] == m
                           <==> Holds(Trace(s, c, events).server, c, p, m)
    decreases |events|
  {
    if events != [] {
      NextKeepsSound(s, c, events[0]);
      NextKeepsComplete(s, c, events[0]);
      NextKeepsServerInv(s, c, events[0]);
      ClientViewIsExactWithoutReads(Next(s, c, events[0]), c, events[1..]);
    } else {
      forall p, m | Holds(s.server, c, p, m) ensures p in s.view && s.view[p] == m {
        assert Owns(s.server, c, p);
      }
    }
  }

  /** A read keeps the two sides in agreement exactly when the client does not list the path. */
  lemma ReadKeepsAgreementIff(s: System, c: Client, p: Path)
    requires Inv(s.server) && Sound(s, c) && Complete(s, c)
    ensures Complete(ClientRead(s, c, p), c) <==> p !in s.view
  {
    if p in s.view {
      assert Owns(s.server, c, p) && Backed(s.server, c, p);
      assert p !in ClientRead(s, c, p).view;
    }
  }

  /** The server still has the exclusive lock and the client's map does not. */
  ghost predicate Forgotten(s: System, c: Client, p: Path) {
    Holds(s.server, c, p, Exclusive) && p !in s.view
  }

  lemma ReadForgetsTheLock(s: System, c: Client, p: Path)
    requires Inv(s.server) && Sound(s, c) && p in s.view && s.view[p] == Exclusive
    ensures Forgotten(ClientRead(s, c, p), c, p)
  {
    assert Backed(s.server, c, p);
  }

  /**
    A forgotten lock can never again be released, read or written through the client library: whatever
    the client and the others do, the server keeps it and the client never lists it, until the session
    is ended.
  */
  lemma {:induction false} ForgottenLockIsStuck(s: System, c: Client, p: Path, events: seq<Event>)
    requires Inv(s.server) && Forgotten(s, c, p) && OthersOnly(events, c)
    ensures Forgotten(Trace(s, c, events), c, p)
    ensures p in s.server.files && p in Trace(s, c, events).server.files
    ensures Trace(s, c, events).server.files[p] == s.server.files[p]
    decreases |events|
  {
    assert Backed(s.server, c, p);
    if events != [] {
      var e := events[0];
      ForgottenStep(s, c, p, e);
      NextKeepsServerInv(s, c, e);
      ForgottenLockIsStuck(Next(s, c, e), c, p, events[1..]);
    }
  }

  /** So one successful read of an exclusive lock is enough. */
  lemma ReadLockIsStuck(s: System, c: Client, p: Path, events: seq<Event>)
    requires Inv(s.server) && Sound(s, c) && p in s.view && s.view[p] == Exclusive && OthersOnly(events, c)
    ensures Forgotten(Trace(ClientRead(s, c, p), c, events), c, p)
    ensures p in s.server.files && p in Trace(ClientRead(s, c, p), c, events).server.files
    ensures Trace(ClientRead(s, c, p), c, events).server.files[p] == s.server.files[p]
  {
    ReadForgetsTheLock(s, c, p);
    ForgottenLockIsStuck(ClientRead(s, c, p), c, p, events);
  }

  lemma ForgottenStep(s: System, c: Client, p: Path, e: Event)
    requires Inv(s.server) && Forgotten(s, c, p) && (e.Theirs? ==> e.op.c != c)
    ensures Forgotten(Next(s, c, e), c, p)
    ensures p in s.server.files && p in Next(s, c, e).server.files
    ensures Next(s, c, e).server.files[p] == s.server.files[p]
  {
    assert Backed(s.server, c, p);
    SoleOwner(s.server.table[p], c);
    match e
    case Theirs(op) =>
      OthersKeepTheirLocks(s.server, op, c, p, Exclusive);
      ContentChangesOnlyByOwners(s.server, op, p);
    case Mine(call, blocked) =>
      if !blocked { ForgottenUnderMyStep(s, c, p, call); }
  }

  lemma ForgottenUnderMyStep(s: System, c: Client, p: Path, call: Call)
    requires Inv(s.server) && Forgotten(s, c, p) && p in s.server.files
    ensures Forgotten(Next(s, c, Mine(call, false)), c, p)
    ensures p in Next(s, c, Mine(call, false)).server.files
    ensures Next(s, c, Mine(call, false)).server.files[p] == s.server.files[p]
  {
    hide Inv;
    match call
    case CallOpen(q, committed) => OpenHoldings(s.server, c, q, committed);
    case CallDelete(q) => DeleteNeverRemoves(s.server, c, q);
    case CallAcquire(q, m) =>
      if Acquire(s.server, c, q, m).out == Ok { AcquireHoldings(s.server, c, q, m); }
    case CallRelease(q) =>
      if q in s.view && Release(s.server, c, q).out == Ok { ReleaseHoldings(s.server, c, q); }
    case _ =>
  }
}
