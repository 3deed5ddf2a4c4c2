/** Who can change the content of a file, and what an exclusive holder can therefore rely on. */
module Isolation {
  import opened LockSpec
  import opened LockInvariant

  /** A write by an owner of `p` that the replicated log commits. */
  predicate CommittedWrite(st: State, op: Op, p: Path) {
    op.OpWrite? && op.p == p && op.committed && Owns(st, op.c, p)
  }

  /** The content of an existing file moves exactly by committed writes of its owners. */
  lemma ContentChangesOnlyByOwners(st: State, op: Op, p: Path)
    requires Inv(st) && p in st.files
    ensures p in Step(st, op).files
    ensures Step(st, op).files[p] == if CommittedWrite(st, op, p) then op.content else st.files[p]
  {
    match op
    case OpClose(c) => if c in st.sessions { EndSessionFrame(st, c); }
    case OpTimeout(c) => if c in st.sessions { EndSessionFrame(st, c); }
    case OpDelete(c, q) => DeleteNeverRemoves(st, c, q);
    case OpJeopardy(c, claims) =>
      var r := CreateSession(st, c);
      if r.out == Ok { ClaimAllFrame(r.st, c, claims); }
    case _ =>
  }

  /** Whatever the others do, an exclusive holder keeps both its lock and the file as it was. */
  lemma {:induction false} ExclusiveHolderIsIsolated(st: State, ops: seq<Op>, c: Client, p: Path)
    requires Inv(st) && Holds(st, c, p, Exclusive)
    requires forall i :: 0 <= i < |ops| ==> ops[i].c != c
    ensures Holds(Run(st, ops), c, p, Exclusive)
    ensures p in Run(st, ops).files && Run(st, ops).files[p] == st.files[p]
    decreases |ops|
  {
    if ops != [] {
      SoleOwner(st.table[p], c);
      OthersKeepTheirLocks(st, ops[0], c, p, Exclusive);
      ContentChangesOnlyByOwners(st, ops[0], p);
      StepKeepsInv(st, ops[0]);
      ExclusiveHolderIsIsolated(Step(st, ops[0]), ops[1..], c, p);
    }
  }

  /** `c` holds `p` exclusively in every state of the run. */
  ghost predicate HeldThroughout(st: State, ops: seq<Op>, c: Client, p: Path)
    decreases |ops|
  {
    Holds(st, c, p, Exclusive) && (ops != [] ==> HeldThroughout(Step(st, ops[0]), ops[1..], c, p))
  }

  /** The content of the last committed write of `c` to `p`, or what was there before. */
  function LastWrite(ops: seq<Op>, c: Client, p: Path, before: string): string {
    if ops == [] then before
    else
      var op := ops[|ops| - 1];
      if op.OpWrite? && op.c == c && op.p == p && op.committed then op.content
      else LastWrite(ops[..|ops| - 1], c, p, before)
  }

  lemma {:induction false} LastWriteFromFront(ops: seq<Op>, c: Client, p: Path, before: string)
    requires ops != []
    ensures LastWrite(ops, c, p, before) == LastWrite(ops[1..], c, p, LastWrite([ops[0]], c, p, before))
    decreases |ops|
  {
    if |ops| > 1 {
      var front := ops[..|ops| - 1];
      assert ops[1..][..|ops| - 2] == front[1..];
      LastWriteFromFront(front, c, p, before);
    } else {
      assert ops == [ops[0]];
    }
  }

  lemma {:induction false} HolderDeterminesContent(st: State, ops: seq<Op>, c: Client, p: Path)
    requires Inv(st) && HeldThroughout(st, ops, c, p)
    ensures p in st.files && p in Run(st, ops).files
    ensures Run(st, ops).files[p] == LastWrite(ops, c, p, st.files[p])
    ensures Inv(Run(st, ops)) && Holds(Run(st, ops), c, p, Exclusive)
    decreases |ops|
  {
    assert Backed(st, c, p);
    if ops != [] {
      SoleOwner(st.table[p], c);
      ContentChangesOnlyByOwners(st, ops[0], p);
      StepKeepsInv(st, ops[0]);
      HolderDeterminesContent(Step(st, ops[0]), ops[1..], c, p);
      LastWriteFromFront(ops, c, p, st.files[p]);
      assert [ops[0]][..0] == [];
    }
  }

  /**
    Reads see writes: while `c` holds `p` exclusively, through any interleaving with other clients,
    its read succeeds and returns its last committed write, or the content it found.
  */
  lemma ReadReturnsLastCommittedWrite(st: State, ops: seq<Op>, c: Client, p: Path)
    requires Reachable(st) && HeldThroughout(st, ops, c, p)
    ensures p in st.files
    ensures Read(Run(st, ops), c, p) == (Ok, LastWrite(ops, c, p, st.files[p]))
  {
    ReachableStatesSatisfyInv(st);
    HolderDeterminesContent(st, ops, c, p);
  }

  /** A read succeeds exactly for an owner of the lock, in whichever mode, and returns the content of the file. */
  lemma ReadSucceedsIffOwner(st: State, c: Client, p: Path)
    requires Reachable(st)
    ensures Read(st, c, p).0 == Ok <==> Owns(st, c, p)
    ensures Owns(st, c, p) ==> p in st.files && Read(st, c, p).1 == st.files[p]
  {
    ReachableStatesSatisfyInv(st);
  }

  /** A write is acknowledged exactly when the writer owns the lock, in whichever mode. */
  lemma WriteAcknowledgedIffOwner(st: State, c: Client, p: Path, content: string, committed: bool)
    requires Reachable(st)
    ensures Write(st, c, p, content, committed).out == Ok <==> Owns(st, c, p)
  {
    ReachableStatesSatisfyInv(st);
  }

  /**
    The isolation above needs the exclusive mode: with a shared lock another owner's committed write
    goes through, and from every such state.
  */
  lemma SharedHolderIsNotIsolated(st: State, c: Client, d: Client, p: Path, content: string)
    requires Inv(st) && c != d && Holds(st, c, p, Shared) && Holds(st, d, p, Shared)
    ensures Write(st, d, p, content, true).out == Ok
    ensures Read(Step(st, OpWrite(d, p, content, true)), c, p) == (Ok, content)
  {
    assert Backed(st, c, p) && Backed(st, d, p);
  }
}
