/**
  The committed commands behind the files: a node's files are the replay of its log, so a node that has
  the same log has the same files, and a master that takes over finds every held lock's file.
*/
module Replication {
  import opened LockSpec
  import opened LockInvariant
  import opened LockServer
  import opened Failover
  import opened Snapshots

  /** `k` is the last write to `p` in the log. */
  predicate LastWriteTo(log: seq<Command>, p: Path, k: nat) {
    && k < |log| && log[k].op == OpType.Write && log[k].path == p
    && forall j :: k < j < |log| && log[j].op == OpType.Write ==> log[j].path != p
  }

  predicate Written(log: seq<Command>, p: Path) {
    exists j :: 0 <= j < |log| && log[j].op == OpType.Write && log[j].path == p
  }

  /** A file is there if it was at the start or has been written, with the content of the last write. */
  lemma {:induction false} ReplayHasTheLastWrite(files: map<Path, string>, log: seq<Command>, p: Path)
    ensures p in Replay(files, log) <==> p in files || Written(log, p)
    ensures forall k: nat :: LastWriteTo(log, p, k) ==> p in Replay(files, log) && Replay(files, log)[p] == log[k].content
    ensures !Written(log, p) && p in files ==> Replay(files, log)[p] == files[p]
  {
    if log != [] {
      var front, last := log[..|log| - 1], log[|log| - 1];
      ReplayHasTheLastWrite(files, front, p);
      assert log == front + [last];
      assert forall j :: 0 <= j < |front| ==> front[j] == log[j];
      forall k: nat | LastWriteTo(log, p, k) ensures p in Replay(files, log) && Replay(files, log)[p] == log[k].content {
        if k < |front| {
          assert LastWriteTo(front, p, k);
          assert !(last.op == OpType.Write && last.path == p);
        }
      }
      if last.op == OpType.Write && last.path == p {
        assert log[|front|] == last;
      } else if Written(log, p) {
        var j :| 0 <= j < |log| && log[j].op == OpType.Write && log[j].path == p;
        assert front[j] == log[j];
      }
    }
  }

  /** A server on a node, with the log that the node has committed. */
  class Node {
    const server: Server
    const machine: StateMachine
    ghost const initial: map<Path, string>
    ghost var log: seq<Command>

    ghost predicate Valid()
      reads this, server, server.lockObjects, server.sessionObjects, machine
    {
      server.Valid() && machine.Valid() && server.files == machine.files == Replay(initial, log)
    }

    constructor (server: Server, machine: StateMachine, ghost initial: map<Path, string>, ghost log: seq<Command>)
      requires server.Valid() && machine.Valid() && server.files == machine.files == Replay(initial, log)
      ensures Valid() && this.server == server && this.machine == machine && this.initial == initial && this.log == log
    {
      this.server, this.machine, this.initial, this.log := server, machine, initial, log;
    }

    method Append(op: OpType, p: Path, content: string, logIdx: nat)
      requires machine.Valid() && machine.files == Replay(initial, log)
      modifies this`log, machine`current, machine`lastCommitted, machine`files
      ensures machine.Valid() && log == old(log) + [Command(op, p, content)]
      ensures machine.files == Replay(initial, log)
      ensures machine.lastCommitted == logIdx
    {
      var result := machine.Commit(logIdx, op, p, content);
      ReplaySnoc(initial, log, Command(op, p, content));
      log := log + [Command(op, p, content)];
    }

    /** `open_lock` and what its log entry commits: an empty file. */
    method Open(c: Client, p: Path, committed: bool, logIdx: nat) returns (out: Outcome)
      requires Valid()
      modifies this`log, server, server.sessionObjects`locks, machine`current, machine`lastCommitted, machine`files
      ensures Valid() && Reply(server.view, out) == LockSpec.Open(old(server.view), c, p, committed)
      ensures log == if out == Ok && committed then old(log) + [Command(OpType.Write, p, "")] else old(log)
    {
      hide Server.Valid; hide Inv; hide IsTop; hide Replay;
      server.KnownSession(c);
      out := server.OpenLock(c, p, committed);
      server.KnownSession(c);
      if out == Ok && committed {
        ReplaySnoc(initial, log, Command(OpType.Write, p, ""));
        Append(OpType.Write, p, "", logIdx);
      }
    }

    /** `write` and what its log entry commits: the content, when the writer owns the lock. */
    method Write(c: Client, p: Path, content: string, committed: bool, logIdx: nat) returns (out: Outcome)
      requires Valid()
      modifies this`log, server`files, server`view, machine`current, machine`lastCommitted, machine`files
      ensures Valid() && Reply(server.view, out) == LockSpec.Write(old(server.view), c, p, content, committed)
      ensures log == if out == Ok && committed then old(log) + [Command(OpType.Write, p, content)] else old(log)
    {
      hide Server.Valid; hide Inv; hide IsTop; hide Replay;
      server.KnownSession(c);
      out := server.WriteFile(c, p, content, committed);
      server.KnownSession(c);
      if out == Ok && committed {
        ReplaySnoc(initial, log, Command(OpType.Write, p, content));
        Append(OpType.Write, p, content, logIdx);
      }
    }

    /** A read hands out the content of the last committed write in the log. */
    lemma ReadsTheLog(c: Client, p: Path, k: nat)
      requires Valid() && LastWriteTo(log, p, k) && LockSpec.Read(server.view, c, p).0 == Ok
      ensures LockSpec.Read(server.view, c, p).1 == log[k].content
    {
      ReplayHasTheLastWrite(initial, log, p);
      server.Lookups(c, p);
    }
  }

  /**
    A new master on a node that has caught up: its files are those of the old one, so that honest
    recoveries find every file they need, and the old lock table comes back exactly if everything that
    was held is claimed.
  */
  method TakeOver(prior: Node, machine: StateMachine, ghost plan: seq<Recovery>) returns (server: Server)
    requires prior.Valid() && machine.Valid() && machine.files == Replay(prior.initial, prior.log)
    requires HonestPlan(prior.server.view, plan)
    ensures server.Valid() && fresh(server) && server.view == Init(prior.server.files)
    ensures (forall p :: LockAt(RecoverAll(server.view, plan), p) == LockAt(prior.server.view, p)) <==>
            (forall c, p, m :: Holds(prior.server.view, c, p, m) ==> ClaimedBy(plan, c, p, m))
  {
    hide Inv; hide RecoverAll; hide HonestPlan;
    server := new Server(machine.files);
    prior.server.KnownSession("");
    HeldFilesExist(prior.server.view);
    FailoverRebuildsTheLockTable(prior.server.view, machine.files, plan);
  }

  lemma HeldFilesExist(st: State)
    requires Inv(st)
    ensures forall c, p :: Owns(st, c, p) ==> p in st.files
  {
    forall c, p | Owns(st, c, p) ensures p in st.files {
      assert Backed(st, c, p);
    }
  }
}
