/** The replicated state machine: commits, and the table of the latest snapshots. */
module Snapshots {
  import opened Options
  import opened Sets

  datatype Snapshot = Snapshot(lastTerm: nat, lastIdx: nat)

  /** A snapshot with the value that the state machine had when it was taken. */
  datatype Context = Context(snapshot: Snapshot, value: string)

  datatype OpType = Create | Write | Delete

  datatype Command = Command(op: OpType, path: string, content: string)

  /** The files after a log of commands. */
  function Replay(files: map<string, string>, log: seq<Command>): map<string, string> {
    if log == [] then files
    else
      var before, last := Replay(files, log[..|log| - 1]), log[|log| - 1];
      if last.op == Write then before[last.path := last.content] else before
  }

  lemma ReplaySnoc(files: map<string, string>, log: seq<Command>, last: Command)
    ensures Replay(files, log + [last]) ==
            if last.op == Write then Replay(files, log)[last.path := last.content] else Replay(files, log)
  {
    assert (log + [last])[..|log|] == log;
  }

  /** The two objects that a snapshot is transferred in. */
  datatype Object = Dummy | Value(value: string)

  const MAX_SNAPSHOTS := 3

  // ----- the largest keys of a map -----

  ghost predicate IsTop<V>(kept: map<nat, V>, all: map<nat, V>, n: nat) {
    && kept.Keys <= all.Keys
    && (forall i :: i in kept ==> kept[i] == all[i])
    && (forall i, j :: i in kept && j in all && j !in kept ==> j < i)
    && |kept.Keys| == if |all.Keys| < n then |all.Keys| else n
  }

  /** `IsTop` leaves no choice: the restriction to the `n` largest keys is one map. */
  lemma TopIsUnique<V>(a: map<nat, V>, b: map<nat, V>, all: map<nat, V>, n: nat)
    requires IsTop(a, all, n) && IsTop(b, all, n)
    ensures a == b
  {
    if i :| i in a && i !in b {
      SmallerSubset(b.Keys, a.Keys, i);
    }
    if i :| i in b && i !in a {
      SmallerSubset(a.Keys, b.Keys, i);
    }
  }

  /** Two sets of one size of which one has an element of its own: so has the other. */
  lemma SmallerSubset(s: set<nat>, t: set<nat>, i: nat)
    requires |s| == |t| && i in t && i !in s
    ensures exists j :: j in s && j !in t
  {
    if s <= t {
      assert s <= t - {i};
      SubsetSize(s, t - {i});
    }
  }

  lemma TopIsAll<V>(kept: map<nat, V>, all: map<nat, V>, n: nat)
    requires IsTop(kept, all, n) && |kept.Keys| < n
    ensures kept == all
  {
    SubsetSize(kept.Keys, all.Keys);
  }

  /** Evicting from the table does the same as evicting from the full history. */
  lemma InsertThenTrim<V>(table: map<nat, V>, all: map<nat, V>, i: nat, v: V, trimmed: map<nat, V>, n: nat)
    requires n > 0 && IsTop(table, all, n) && IsTop(trimmed, table[i := v], n)
    ensures IsTop(trimmed, all[i := v], n)
  {
    var before, after := table[i := v], all[i := v];
    if |table.Keys| < n {
      TopIsAll(table, all, n);
    } else {
      SubsetSize(table.Keys, before.Keys);
      SubsetSize(all.Keys, after.Keys);
      SubsetSize(table.Keys, all.Keys);
      forall t, d | t in trimmed && d in after && d !in trimmed ensures d < t {
        if d !in before && t !in table {
          TrimmedOldKey(table, i, v, trimmed, n);
          var k :| k in table && k !in trimmed;
          assert d < k < t;
        }
      }
    }
  }

  /** If a full table keeps the new key, it lost an old one. */
  lemma TrimmedOldKey<V>(table: map<nat, V>, i: nat, v: V, trimmed: map<nat, V>, n: nat)
    requires IsTop(trimmed, table[i := v], n) && |table.Keys| == n && i in trimmed && i !in table
    ensures exists k :: k in table && k !in trimmed
  {
    assert table[i := v].Keys == table.Keys + {i};
    SmallerSubset(table.Keys, trimmed.Keys, i);
  }

  /** The largest key of all is among the largest. */
  lemma GreatestIsKept<V>(kept: map<nat, V>, all: map<nat, V>, n: nat, k: nat)
    requires n > 0 && IsTop(kept, all, n) && IsGreatest(k, kept.Keys)
    ensures IsGreatest(k, all.Keys)
  {
  }

  /** How many snapshots with a larger index there have been. */
  ghost function Above<V>(all: map<nat, V>, i: nat): set<nat> {
    set j | j in all && j > i
  }

  lemma AboveItself<V>(all: map<nat, V>, i: nat, v: V)
    ensures Above(all[i := v], i) == Above(all, i)
  {
  }

  /** A key stays among the `n` largest exactly while fewer than `n` larger ones exist. */
  lemma KeptIff<V>(kept: map<nat, V>, all: map<nat, V>, n: nat, i: nat)
    requires IsTop(kept, all, n) && i in all
    ensures i in kept <==> |Above(all, i)| < n
  {
    var above := Above(all, i);
    if i in kept {
      assert above <= kept.Keys - {i} by {
        forall j | j in above ensures j in kept.Keys - {i} { }
      }
      SubsetSize(above, kept.Keys - {i});
    } else {
      SubsetSize(kept.Keys, above);
      if |kept.Keys| < n { TopIsAll(kept, all, n); }
    }
  }

  // ----- the state machine -----

  class StateMachine {
    var current: Option<string>
    var lastCommitted: nat
    var files: map<string, string>
    var snapshots: map<nat, Context>
    ghost var history: map<nat, Context>      // the latest context ever recorded under each index

    ghost predicate Valid()
      reads this
    {
      IsTop(snapshots, history, MAX_SNAPSHOTS)
    }

    constructor ()
      ensures Valid() && history == map[] && current == None && lastCommitted == 0 && files == map[]
    {
      current, lastCommitted, files, snapshots, history := None, 0, map[], map[], map[];
    }

    /** Only a write touches the files; every commit makes its path the current value. */
    method Commit(logIdx: nat, op: OpType, path: string, content: string) returns (result: nat)
      requires Valid()
      modifies this`current, this`lastCommitted, this`files
      ensures Valid() && result == logIdx == lastCommitted && current == Some(path)
      ensures files == if op == Write then old(files)[path := content] else old(files)
    {
      match op {
        case Create =>
        case Write => files := files[path := content];
        case Delete =>
      }
      current := Some(path);
      lastCommitted := logIdx;
      result := logIdx;
    }

    function CurrentValue(): (value: string)
      reads this
      ensures current == Some(value) || (current == None && value == "/")
    {
      if current.Some? then current.value else "/"
    }

    /** The new context enters the history; the table stays its three largest indices. */
    method CreateSnapshotInternal(ss: Snapshot)
      requires Valid()
      modifies this`snapshots, this`history
      ensures Valid() && history == old(history)[ss.lastIdx := Context(ss, CurrentValue())]
      ensures ss.lastIdx in snapshots ==> snapshots[ss.lastIdx].snapshot == ss
      ensures ss.lastIdx in snapshots ==> Some(snapshots[ss.lastIdx].value) == if current.Some? then current else Some("/")
      ensures forall i :: i in history ==> (i in snapshots <==> |Above(history, i)| < 3)
    {
      var ctx := Context(ss, CurrentValue());
      snapshots := snapshots[ss.lastIdx := ctx];
      EvictOldest();
      InsertThenTrim(old(snapshots), old(history), ss.lastIdx, ctx, snapshots, MAX_SNAPSHOTS);
      history := history[ss.lastIdx := ctx];
      forall i | i in history ensures i in snapshots <==> |Above(history, i)| < 3 {
        KeptIff(snapshots, history, MAX_SNAPSHOTS, i);
      }
    }

    method EvictOldest()
      modifies this`snapshots
      ensures IsTop(snapshots, old(snapshots), MAX_SNAPSHOTS)
    {
      ghost var before := snapshots;
      var num := |snapshots.Keys|;
      var ii := 0;
      while ii < num - MAX_SNAPSHOTS
        invariant 0 <= ii && (ii <= num - MAX_SNAPSHOTS || (ii == 0 && num <= MAX_SNAPSHOTS))
        invariant IsTop(snapshots, before, num - ii)
      {
        LeastExists(snapshots.Keys);
        var entry :| entry in snapshots && IsLeast(entry, snapshots.Keys);
        assert (snapshots - {entry}).Keys == snapshots.Keys - {entry};
        snapshots := snapshots - {entry};
        ii := ii + 1;
      }
    }

    /** Nothing to transfer for a snapshot that is gone; otherwise a dummy first, then the value. */
    method ReadLogicalSnpObj(s: Snapshot, objId: nat) returns (data: Option<Object>, isLast: bool)
      ensures data == if s.lastIdx !in snapshots then None
                      else if objId == 0 then Some(Dummy) else Some(Value(snapshots[s.lastIdx].value))
      ensures isLast <==> s.lastIdx !in snapshots || objId > 0
    {
      if s.lastIdx !in snapshots { return None, true; }
      var ctx := snapshots[s.lastIdx];
      if objId == 0 { return Some(Dummy), false; }
      return Some(Value(ctx.value)), true;
    }

    /** The second object finds no entry, and the source's assertion fails, if the first was evicted at once. */
    method SaveLogicalSnpObj(s: Snapshot, objId: nat, data: Object) returns (next: nat, ok: bool)
      requires Valid() && (objId > 0 ==> data.Value?)
      modifies this`snapshots, this`history
      ensures Valid() && next == objId + 1
      ensures objId == 0 ==> ok && history == old(history)[s.lastIdx := Context(s, CurrentValue())]
      ensures objId > 0 ==> (ok <==> s.lastIdx in old(snapshots))
      ensures objId > 0 ==>
        history == if ok then old(history)[s.lastIdx := old(snapshots)[s.lastIdx].(value := data.value)] else old(history)
      ensures objId > 0 ==> snapshots.Keys == old(snapshots.Keys)
    {
      ok := true;
      if objId == 0 {
        CreateSnapshotInternal(s);
      } else if s.lastIdx in snapshots {
        var ctx := snapshots[s.lastIdx].(value := data.value);
        snapshots := snapshots[s.lastIdx := ctx];
        history := history[s.lastIdx := ctx];
        assert snapshots.Keys == old(snapshots.Keys) && history.Keys == old(history.Keys);
      } else {
        ok := false;
      }
      next := objId + 1;
    }

    method ApplySnapshot(s: Snapshot) returns (ok: bool)
      requires Valid()
      modifies this`current
      ensures Valid() && (ok <==> s.lastIdx in snapshots)
      ensures current == if ok then Some(snapshots[s.lastIdx].value) else old(current)
    {
      if s.lastIdx !in snapshots { return false; }
      current := Some(snapshots[s.lastIdx].value);
      ok := true;
    }

    /** The snapshot with the largest index ever recorded. */
    method LastSnapshot() returns (s: Option<Snapshot>)
      requires Valid()
      ensures s.None? <==> history == map[]
      ensures s.Some? ==> exists k :: k in history && IsGreatest(k, history.Keys) && s.value == history[k].snapshot
    {
      if snapshots == map[] {
        assert |history.Keys| == 0;
        return None;
      }
      GreatestExists(snapshots.Keys);
      var k :| k in snapshots && IsGreatest(k, snapshots.Keys);
      GreatestIsKept(snapshots, history, MAX_SNAPSHOTS, k);
      s := Some(snapshots[k].snapshot);
    }
  }

  /**
    Installing a leader's snapshot on a follower, object by object: it gets through exactly when the
    leader still has the snapshot and the follower has seen fewer than three later ones, and then the
    follower's value is the leader's.
  */
  method Transfer(leader: StateMachine, follower: StateMachine, s: Snapshot) returns (ok: bool)
    requires leader != follower && leader.Valid() && follower.Valid()
    modifies follower`snapshots, follower`history, follower`current
    ensures follower.Valid()
    ensures ok <==> s.lastIdx in leader.snapshots && |Above(old(follower.history), s.lastIdx)| < MAX_SNAPSHOTS
    ensures ok ==> follower.current == Some(leader.snapshots[s.lastIdx].value)
    ensures ok ==> s.lastIdx in follower.snapshots && follower.snapshots[s.lastIdx] == Context(s, leader.snapshots[s.lastIdx].value)
    ensures !ok ==> follower.current == old(follower.current)
  {
    var data, isLast := leader.ReadLogicalSnpObj(s, 0);
    if data.None? { return false; }
    var next, saved := follower.SaveLogicalSnpObj(s, 0, data.value);
    KeptIff(follower.snapshots, follower.history, MAX_SNAPSHOTS, s.lastIdx);
    AboveItself(old(follower.history), s.lastIdx, follower.history[s.lastIdx]);
    data, isLast := leader.ReadLogicalSnpObj(s, next);
    next, saved := follower.SaveLogicalSnpObj(s, next, data.value);
    if !saved { return false; }
    assert follower.snapshots[s.lastIdx] == follower.history[s.lastIdx];
    ok := follower.ApplySnapshot(s);
  }

  /** A node that commits a log of commands, one by one, ends with its replay, and the last path as its value. */
  method CommitAll(machine: StateMachine, firstIdx: nat, log: seq<Command>)
    requires machine.Valid()
    modifies machine`current, machine`lastCommitted, machine`files
    ensures machine.Valid() && machine.files == Replay(old(machine.files), log)
    ensures log != [] ==> machine.current == Some(log[|log| - 1].path) && machine.lastCommitted == firstIdx + |log| - 1
    ensures log == [] ==> machine.current == old(machine.current) && machine.lastCommitted == old(machine.lastCommitted)
  {
    hide IsTop; hide Replay;
    ghost var initial := machine.files;
    ReplayNothing(initial, log);
    for i := 0 to |log|
      invariant machine.Valid() && machine.files == Replay(initial, log[..i])
      invariant i > 0 ==> machine.current == Some(log[i - 1].path) && machine.lastCommitted == firstIdx + i - 1
      invariant i == 0 ==> machine.current == old(machine.current) && machine.lastCommitted == old(machine.lastCommitted)
    {
      var result := machine.Commit(firstIdx + i, log[i].op, log[i].path, log[i].content);
      ReplaySnoc(initial, log[..i], log[i]);
      assert log[..i] + [log[i]] == log[..i + 1];
    }
    assert log[..|log|] == log;
  }

  lemma ReplayNothing(files: map<string, string>, log: seq<Command>)
    ensures Replay(files, log[..0]) == files
  {
  }

  /**
    From the commits of the leader to the value of the follower: after a run of commands, a snapshot at
    the last of them and its transfer, the follower's value is the path of the leader's last command,
    exactly if neither of the two had three snapshots with larger indices.
  */
  method CommitSnapshotTransfer(leader: StateMachine, follower: StateMachine, firstIdx: nat, commands: seq<Command>, term: nat)
    returns (ok: bool)
    requires leader != follower && leader.Valid() && follower.Valid() && commands != []
    modifies leader, follower
    ensures leader.Valid() && follower.Valid()
    ensures var idx := firstIdx + |commands| - 1;
      ok <==> |Above(old(leader.history), idx)| < 3 && |Above(old(follower.history), idx)| < 3
    ensures ok ==> follower.current == Some(commands[|commands| - 1].path)
    ensures leader.files == Replay(old(leader.files), commands)
  {
    hide IsTop; hide Above;
    CommitAll(leader, firstIdx, commands);
    var s := Snapshot(term, leader.lastCommitted);
    leader.CreateSnapshotInternal(s);
    AboveItself(old(leader.history), s.lastIdx, leader.history[s.lastIdx]);
    ok := Transfer(leader, follower, s);
  }
}
