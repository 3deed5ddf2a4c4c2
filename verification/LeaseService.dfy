/**
  One client of a lock server, updated in place: every method is one event of the protocol in `Lease`,
  and what it does to the locks on the server.
*/
module LeaseService {
  import opened Options
  import opened LockSpec
  import opened LockInvariant
  import opened LockServer
  import opened Lease

  /** The lease in the client library. */
  class ClientInfo {
    var leaseStart: int
    var leaseLength: int
    var jeopardy: bool

    constructor (now: int)
      ensures Fields() == ClientLease(now, DEFAULT_LEASE_DURATION, false)
    {
      leaseStart, leaseLength, jeopardy := now, DEFAULT_LEASE_DURATION, false;
    }

    ghost function Fields(): ClientLease
      reads this
    {
      ClientLease(leaseStart, leaseLength, jeopardy)
    }
  }

  class Service {
    const clientId: Client
    const server: Server
    var client: ClientInfo?
    ghost var now: int
    ghost var threads: seq<Thread>
    ghost var recovering: nat
    ghost var replies: set<int>
    ghost var restarted: bool

    ghost function TheWorld(): World
      reads this, client, server, if clientId in server.sessions then {server.sessions[clientId]} else {}
    {
      var session := if clientId in server.sessions then Some(server.sessions[clientId]) else None;
      World(now,
            if client == null then None else Some(client.Fields()),
            if session.None? then None else Some(session.value.TheLease()),
            threads, if session.None? then 0 else session.value.blockReply, recovering, replies, restarted)
    }

    constructor (clientId: Client, server: Server, now: int)
      requires server.Valid() && clientId !in server.sessions
      ensures server.Valid() && this.server == server && this.clientId == clientId && TheWorld() == Start(now)
    {
      this.clientId, this.server, this.now, client := clientId, server, now, null;
      threads, recovering, replies, restarted := [], 0, {}, false;
    }

    /** `start_session` on the client, up to the first request, whatever the server still holds for its id. */
    method StartSession(clock: int)
      requires clock == now
      modifies this`client, this`restarted
      ensures TheWorld() == Next(old(TheWorld()), ClientStart)
      ensures client != null && client.Fields() == ClientLease(clock, 12000, false)
    {
      client := new ClientInfo(clock);
      restarted := clientId in server.sessions;
    }

    /** A new session has a new thread; a terminated one gets one thread more. */
    method CreateSession(clock: int) returns (out: Outcome)
      requires server.Valid() && client != null && clock == now
      modifies server, this`threads
      ensures server.Valid() && TheWorld() == Next(old(TheWorld()), Create)
      ensures Reply(server.view, out) == LockSpec.CreateSession(old(server.view), clientId)
    {
      hide Server.Valid;
      server.KnownSession(clientId);
      out := server.CreateSession(clientId, clock);
      if clientId !in old(server.sessions) {
        threads := [Unscheduled];
      } else if out == Ok {
        threads := threads + [Unscheduled];
      }
    }

    /** A maintenance thread starts: the first keep-alive is not to be blocked. */
    method Launched(k: nat)
      requires server.Valid() && clientId in server.sessions && k < |threads| && threads[k].Unscheduled?
      modifies this`threads, server.sessions[clientId]
      ensures server.Valid() && TheWorld() == Next(old(TheWorld()), Launch(k))
    {
      hide Server.Valid;
      server.KnownSession(clientId);
      server.PutToken(server.sessions[clientId]);
      threads := threads[k := Looping(now)];
    }

    /** One turn of the loop of `maintain_session` on the server, with its two readings of the clock. */
    method MaintainTurn(k: nat, n1: int, n2: int)
      requires server.Valid() && clientId in server.sessions && k < |threads|
      requires threads[k].Looping? && threads[k].due <= n1 <= n2 && now <= n1
      modifies this`now, this`threads, server, server.lockObjects, server.sessionObjects`locks, server.sessionObjects`terminated, server.sessions[clientId]
      ensures server.Valid() && TheWorld() == Next(old(TheWorld()), Look(k, n1, n2))
      ensures server.view == if threads[k].Gone? then EndSession(old(server.view), clientId) else old(server.view)
    {
      hide Server.Valid; hide EndSession;
      server.KnownSession(clientId);
      var session := server.sessions[clientId];
      var expires := session.startTime + session.leaseLength * MS;
      var left := 0;
      if expires > n1 { left := expires - n2; }
      if left == 0 { TimedOut(k, n2); return; }
      now := n2;
      if left <= SECOND { server.PutToken(session); }
      threads := threads[k := Looping(n2 + SECOND)];
    }

    method TimedOut(k: nat, clock: int)
      requires server.Valid() && clientId in server.sessions && k < |threads|
      modifies this`now, this`threads, server, server.lockObjects, server.sessionObjects`locks, server.sessionObjects`terminated, server.sessions[clientId]
      ensures server.Valid() && server.view == EndSession(old(server.view), clientId)
      ensures clientId in server.sessions
      ensures var w, s := old(TheWorld()), old(server.sessions[clientId].TheLease());
        TheWorld() == w.(now := clock, session := Some(s.(terminated := true)), tokens := w.tokens + 1,
                         threads := w.threads[k := Gone])
    {
      hide Server.Valid; hide EndSession;
      server.KnownSession(clientId);
      EndSessionTerminates(server.view, clientId);
      var session := server.sessions[clientId];
      server.EndSession(session);
      server.KnownSession(clientId);
      server.PutToken(session);
      now, threads := clock, threads[k := Gone];
    }

    /**
      `RPC::keep_alive` with the client's claims; if the client has a session, a handler that is not
      turned away has waited for a token. No answer from such a handler means that it now waits for a
      token behind `handle_jeopardy`. A session that it opened is closed again if a claim was refused.
    */
    method KeepAliveRpc(leader: bool, cancelled: bool, claims: seq<Claim>, clock: int) returns (answer: Option<int>)
      requires server.Valid() && client != null && clock == now
      requires leader && !cancelled && clientId in server.sessions ==> server.sessions[clientId].blockReply > 0
      modifies this`threads, this`recovering, this`replies, server, server.lockObjects, server.sessionObjects`locks, server.sessionObjects`terminated,
               if clientId in server.sessions then {server.sessions[clientId]} else {}
      ensures server.Valid()
      ensures var after := Next(old(TheWorld()), KeepAlive(leader, cancelled));
        TheWorld() == if clientId in server.sessions && server.sessions[clientId].terminated then Next(after, Close) else after
      ensures answer == if leader && !cancelled && clientId in old(server.sessions)
                        then Answer(Extended(old(server.sessions[clientId].TheLease()))) else None
      ensures server.view == if leader && !cancelled && answer.None?
                             then Jeopardy(old(server.view), clientId, claims).st else old(server.view)
    {
      hide Server.Valid; hide Jeopardy; hide Created; hide Next;
      KeepAliveCases(TheWorld(), leader, cancelled);
      server.KnownSession(clientId);
      if !leader || cancelled { return None; }
      answer := Served(claims, clock);
    }

    /** The handler once it is past its two gates. */
    method Served(claims: seq<Claim>, clock: int) returns (answer: Option<int>)
      requires server.Valid() && client != null && clock == now
      requires clientId in server.sessions ==> server.sessions[clientId].blockReply > 0
      modifies this`threads, this`recovering, this`replies, server, server.lockObjects,
               server.sessionObjects`locks, server.sessionObjects`terminated,
               if clientId in server.sessions then {server.sessions[clientId]} else {}
      ensures server.Valid()
      ensures var after := Next(old(TheWorld()), KeepAlive(true, false));
        TheWorld() == if clientId in server.sessions && server.sessions[clientId].terminated then Next(after, Close) else after
      ensures answer == if clientId in old(server.sessions)
                        then Answer(Extended(old(server.sessions[clientId].TheLease()))) else None
      ensures server.view == if answer.None? then Jeopardy(old(server.view), clientId, claims).st else old(server.view)
    {
      hide Server.Valid; hide Jeopardy; hide Recovering; hide Created; hide Next; hide Narrow;
      KeepAliveCases(TheWorld(), true, false);
      server.KnownSession(clientId);
      var length := AttemptExtend();
      var leaseDuration := Narrow(length);
      if leaseDuration < 0 {
        var waiting := StartRecovery(claims, clock);
        if waiting { return None; }
        leaseDuration := -1;
      }
      replies := replies + {leaseDuration};
      answer := Some(leaseDuration);
    }

    /** The outcomes of a keep-alive, by what happens to the session; closing it again changes nothing. */
    static lemma KeepAliveCases(w: World, leader: bool, cancelled: bool)
      requires w.client.Some? && (w.session.Some? && leader && !cancelled ==> w.tokens > 0)
      ensures var after := Next(w, KeepAlive(leader, cancelled));
        && (!leader || cancelled ==> after == w)
        && (leader && !cancelled && w.session.None? ==> after == Recovering(w, false) && Next(after, Close) == Recovering(w, true))
        && (leader && !cancelled && w.session.Some? ==>
              var s := Extended(w.session.value);
              var taken := w.(session := Some(s), tokens := w.tokens - 1);
              after == if Answer(s).Some? then taken.(replies := w.replies + {Answer(s).value}) else Recovering(taken, true))
        && (leader && !cancelled && w.session.Some? && Answer(Extended(w.session.value)).None? ==> Next(after, Close) == after)
        && (after.session.Some? && after.session.value.terminated ==> Next(after, Close) == after)
        && Narrow(-1) == -1
    {
    }

    /** Nothing happens for a client without a session. */
    method AttemptExtend() returns (length: int)
      requires server.Valid() && (clientId in server.sessions ==> server.sessions[clientId].blockReply > 0)
      modifies if clientId in server.sessions then {server.sessions[clientId]} else {}
      ensures server.Valid()
      ensures var w := old(TheWorld());
        && (w.session.None? ==> TheWorld() == w && length == -1)
        && (w.session.Some? ==> TheWorld() == w.(session := Some(Extended(w.session.value)), tokens := w.tokens - 1)
                                && length == Extended(w.session.value).length)
    {
      hide Server.Valid;
      server.KnownSession(clientId);
      length := server.AttemptExtendSession(clientId);
    }

    /**
      The first half of `handle_jeopardy`: refused while the session lives. A session that is new may be
      terminated at once, by a refused claim.
    */
    method StartRecovery(claims: seq<Claim>, clock: int) returns (waiting: bool)
      requires server.Valid() && clock == now
      modifies this`threads, this`recovering, server, server.lockObjects, server.sessionObjects`locks, server.sessionObjects`terminated
      ensures server.Valid() && clientId in server.sessions
      ensures waiting <==> !HasLiveSession(old(TheWorld()))
      ensures clientId in old(server.sessions) ==> server.sessions[clientId].terminated == old(server.sessions[clientId].terminated)
      ensures server.view == if waiting then Jeopardy(old(server.view), clientId, claims).st else old(server.view)
      ensures TheWorld() == if waiting then Recovering(old(TheWorld()), server.sessions[clientId].terminated) else old(TheWorld())
    {
      hide Server.Valid; hide Jeopardy; hide Recovering; hide Next; hide Created;
      if !HasLiveSession(TheWorld()) { RecoveringCases(TheWorld()); }
      var out := server.Recover(clientId, claims, clock);
      waiting := out == Ok;
      if waiting {
        threads := if clientId in old(server.sessions) then threads + [Unscheduled] else [Unscheduled];
        recovering := recovering + 1;
      }
    }

    static lemma RecoveringCases(w: World)
      requires !HasLiveSession(w)
      ensures w.session.Some? ==>
        Recovering(w, true) == w.(threads := w.threads + [Unscheduled], recovering := w.recovering + 1)
      ensures w.session.None? ==> forall terminated ::
        Recovering(w, terminated) == w.(session := Some(ServerLease(w.now, DEFAULT_LEASE_EXTENSION, terminated)),
                                        threads := [Unscheduled], tokens := 0, recovering := w.recovering + 1)
    {
    }

    static ghost function Recovering(w: World, terminated: bool): World {
      var after := Created(w).(recovering := w.recovering + 1);
      if terminated then Next(after, Close) else after
    }

    /** The second half, once there is a token. */
    method Resumed() returns (answer: int)
      requires server.Valid() && clientId in server.sessions && recovering > 0 && server.sessions[clientId].blockReply > 0
      modifies this`recovering, this`replies, server.sessions[clientId]
      ensures server.Valid() && TheWorld() == Next(old(TheWorld()), Resume)
      ensures answer == Narrow(server.sessions[clientId].leaseLength)
    {
      hide Server.Valid;
      server.KnownSession(clientId);
      var length := AttemptExtend();
      answer := Narrow(length);
      recovering, replies := recovering - 1, replies + {answer};
    }

    method CloseSession() returns (out: Outcome)
      requires server.Valid()
      modifies server, server.lockObjects, server.sessionObjects`locks, server.sessionObjects`terminated
      ensures server.Valid() && TheWorld() == Next(old(TheWorld()), Close)
      ensures Reply(server.view, out) == LockSpec.CloseSession(old(server.view), clientId)
    {
      hide Server.Valid; hide EndSession;
      server.KnownSession(clientId);
      if clientId in server.sessions { EndSessionTerminates(server.view, clientId); }
      out := server.CloseSession(clientId);
      server.KnownSession(clientId);
    }

    /** One turn of the loop of `maintain_session` on the client: an answer, or none before the deadline. */
    method ClientTurn(reply: Option<int>)
      requires client != null && !client.jeopardy && (reply.Some? ==> reply.value in replies)
      modifies client
      ensures TheWorld() == Next(old(TheWorld()), if reply.Some? then Deliver(reply.value) else Deadline)
      ensures client.leaseStart == old(client.leaseStart)
      ensures client.leaseLength == if reply.Some? then reply.value else old(client.leaseLength)
      ensures client.jeopardy <==> reply.None?
    {
      if reply.Some? { client.leaseLength := reply.value; } else { client.jeopardy := true; }
    }
  }
}
