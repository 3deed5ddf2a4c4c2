/**
  The lock and session server as a table of values: every path has at most one lock record and a
  session remembers which paths it has an entry for. Each handler is one atomic step.
  `LockServer` shows that the server's heap of shared lock objects behaves exactly like this table.
*/
module LockSpec {
  import opened KeyOrder

  type Client = string
  type Path = string

  /** The wire enumeration of lock states; `Free` also stands for unrecognised numbers in a request. */
  datatype Mode = Exclusive | Shared | Free

  datatype LockRec = LockRec(status: Mode, owners: set<Client>)

  /**
    `entries[p]` says whether the session's lock object for `p` is the one in the server-wide map
    (attached), or an object of its own that the server-wide map never took (detached).
  */
  datatype Sess = Sess(entries: map<Path, bool>, terminated: bool)

  /** `files` is the replicated store: a path is in it once a write to it has been committed. */
  datatype State = State(table: map<Path, LockRec>, sessions: map<Client, Sess>, files: map<Path, string>)

  datatype Outcome =
    | Ok
    | NoSession | SessionExists | NoSessionToEnd
    | FreeModeRequested | FileExists | NoFile
    | HeldExclusively | HeldShared
    | NotInSession | NotOwner | NotExclusive
    | ReadThrows

  datatype Reply = Reply(st: State, out: Outcome)

  const FREE_LOCK := LockRec(Free, {})

  function Init(files: map<Path, string>): State {
    State(map[], map[], files)
  }

  function LockAt(st: State, p: Path): LockRec {
    if p in st.table then st.table[p] else FREE_LOCK
  }

  predicate Owns(st: State, c: Client, p: Path) {
    p in st.table && c in st.table[p].owners
  }

  predicate Holds(st: State, c: Client, p: Path, m: Mode) {
    Owns(st, c, p) && st.table[p].status == m
  }

  function WithEntries(st: State, c: Client, entries: map<Path, bool>): State
    requires c in st.sessions
  {
    st.(sessions := st.sessions[c := st.sessions[c].(entries := entries)])
  }

  // ----- sessions -----

  /** An existing entry is never overwritten, so a terminated session stays terminated. */
  function CreateSession(st: State, c: Client): Reply {
    if c in st.sessions then
      if st.sessions[c].terminated then Reply(st, Ok) else Reply(st, SessionExists)
    else
      Reply(st.(sessions := st.sessions[c := Sess(map[], false)]), Ok)
  }

  /** Release entries in key order, starting over after each, until one is refused or none is left. */
  ghost function EndLocks(st: State, c: Client): (r: State)
    requires c in st.sessions
    ensures c in r.sessions
    decreases |st.sessions[c].entries|
  {
    var entries := st.sessions[c].entries;
    if entries == map[] then st
    else
      var p := First(entries.Keys);
      var r := Release(st, c, p);
      if r.out != Ok then st else
        assert r.st.sessions[c].entries.Keys == entries.Keys - {p};
        assert |entries.Keys - {p}| < |entries.Keys|;
        EndLocks(r.st, c)
  }

  ghost function EndSession(st: State, c: Client): (r: State)
    requires c in st.sessions
    ensures c in r.sessions
  {
    EndLocks(st.(sessions := st.sessions[c := st.sessions[c].(terminated := true)]), c)
  }

  ghost function CloseSession(st: State, c: Client): Reply {
    if c !in st.sessions || st.sessions[c].terminated then Reply(st, NoSessionToEnd)
    else Reply(EndSession(st, c), Ok)
  }

  // ----- locks -----

  function Open(st: State, c: Client, p: Path, committed: bool): Reply {
    if c !in st.sessions then Reply(st, NoSession)
    else if p in st.files then Reply(st, FileExists)
    else
      var entries := st.sessions[c].entries;
      var st1 := WithEntries(st, c, if p in entries then entries else entries[p := p !in st.table]);
      Reply(st1.(table := st.table[p := LockAt(st, p)],
                 files := if committed then st.files[p := ""] else st.files), Ok)
  }

  /** The removal at the end is never reached: see `LockInvariant.DeleteNeverRemoves`. */
  function Delete(st: State, c: Client, p: Path): Reply {
    if c !in st.sessions then Reply(st, NoSession)
    else if p !in st.sessions[c].entries then Reply(st, NotInSession)
    else if (if st.sessions[c].entries[p] then LockAt(st, p).status else Free) != Exclusive then Reply(st, NotExclusive)
    else if p in st.files then Reply(st, FileExists)
    else Reply(WithEntries(st, c, st.sessions[c].entries - {p}).(table := st.table - {p}), Ok)
  }

  function Acquire(st: State, c: Client, p: Path, m: Mode): Reply {
    if c !in st.sessions then Reply(st, NoSession)
    else if m == Free then Reply(st, FreeModeRequested)
    else if p !in st.files then Reply(st, NoFile)
    else
      var l := LockAt(st, p);
      if l.status == Exclusive then Reply(st, HeldExclusively)
      else if l.status == Shared && m != Shared then Reply(st, HeldShared)
      else
        var st1 := WithEntries(st, c, st.sessions[c].entries[p := true]);
        Reply(st1.(table := st.table[p := LockRec(m, l.owners + {c})]), Ok)
  }

  function Without(l: LockRec, c: Client): LockRec {
    LockRec(if l.status == Exclusive || l.owners - {c} == {} then Free else l.status, l.owners - {c})
  }

  function Release(st: State, c: Client, p: Path): (r: Reply)
    ensures c in st.sessions ==> c in r.st.sessions
    ensures r.out == Ok ==> c in st.sessions && p in st.sessions[c].entries
                            && r.st.sessions[c].entries == st.sessions[c].entries - {p}
  {
    if c !in st.sessions then Reply(st, NoSession)
    else if p !in st.files then Reply(st, NoFile)
    else if p !in st.sessions[c].entries then Reply(st, NotInSession)
    else if !(st.sessions[c].entries[p] && Owns(st, c, p)) then Reply(st, NotOwner)
    else
      var st1 := WithEntries(st, c, st.sessions[c].entries - {p});
      Reply(st1.(table := st.table[p := Without(st.table[p], c)]), Ok)
  }

  /** Which of the two checks shared by `read` and `write` refuses, if any. */
  function Access(st: State, c: Client, p: Path): Outcome
    requires c in st.sessions
  {
    if p !in st.sessions[c].entries then NotInSession
    else if !(st.sessions[c].entries[p] && Owns(st, c, p)) then NotOwner
    else Ok
  }

  /** The content comes back even with a refusal; a missing file escapes the handler's `catch`. */
  function Read(st: State, c: Client, p: Path): (Outcome, string) {
    if c !in st.sessions then (NoSession, "")
    else if p !in st.files then (ReadThrows, "")
    else (Access(st, c, p), st.files[p])
  }

  /** Any owner may write, shared or exclusive, and the answer is the same when the log rejects it. */
  function Write(st: State, c: Client, p: Path, content: string, committed: bool): Reply {
    if c !in st.sessions then Reply(st, NoSession)
    else if p !in st.files then Reply(st, NoFile)
    else if Access(st, c, p) != Ok then Reply(st, Access(st, c, p))
    else Reply(if committed then st.(files := st.files[p := content]) else st, Ok)
  }

  // ----- recovery of a client's locks by a new master -----

  datatype Claim = Claim(path: Path, mode: Mode)

  /** A refused claim ends the session, and the claims after it are tried all the same. */
  ghost function ClaimAll(st: State, c: Client, claims: seq<Claim>): (r: State)
    requires c in st.sessions
    ensures c in r.sessions
  {
    if claims == [] then st
    else
      var before := ClaimAll(st, c, claims[..|claims| - 1]);
      ClaimOne(before, c, claims[|claims| - 1])
  }

  ghost function ClaimOne(st: State, c: Client, claim: Claim): (r: State)
    requires c in st.sessions
    ensures c in r.sessions
  {
    var reply := Acquire(st, c, claim.path, claim.mode);
    if reply.out == Ok then reply.st else EndSession(st, c)
  }

  ghost function Jeopardy(st: State, c: Client, claims: seq<Claim>): Reply {
    var r := CreateSession(st, c);
    if r.out != Ok then r else Reply(ClaimAll(r.st, c, claims), Ok)
  }

  // ----- runs -----

  datatype Op =
    | OpCreate(c: Client)
    | OpClose(c: Client)
    | OpTimeout(c: Client)   // the maintenance thread of the session finds the lease expired
    | OpOpen(c: Client, p: Path, committed: bool)
    | OpDelete(c: Client, p: Path)
    | OpAcquire(c: Client, p: Path, m: Mode)
    | OpRelease(c: Client, p: Path)
    | OpRead(c: Client, p: Path)
    | OpWrite(c: Client, p: Path, content: string, committed: bool)
    | OpJeopardy(c: Client, claims: seq<Claim>)

  ghost function Step(st: State, op: Op): State {
    match op
    case OpCreate(c) => CreateSession(st, c).st
    case OpClose(c) => CloseSession(st, c).st
    case OpTimeout(c) => if c in st.sessions then EndSession(st, c) else st
    case OpOpen(c, p, committed) => Open(st, c, p, committed).st
    case OpDelete(c, p) => Delete(st, c, p).st
    case OpAcquire(c, p, m) => Acquire(st, c, p, m).st
    case OpRelease(c, p) => Release(st, c, p).st
    case OpRead(_, _) => st
    case OpWrite(c, p, content, committed) => Write(st, c, p, content, committed).st
    case OpJeopardy(c, claims) => Jeopardy(st, c, claims).st
  }

  ghost function Run(st: State, ops: seq<Op>): State
    decreases |ops|
  {
    if ops == [] then st else Run(Step(st, ops[0]), ops[1..])
  }

  // ----- single turns of the loops above -----

  lemma NoEntriesLeft(st: State, c: Client)
    requires c in st.sessions && st.sessions[c].entries.Keys == {}
    ensures EndLocks(st, c) == st
  {
    assert st.sessions[c].entries == map[];
  }

  /** One turn of the loop in the specification. */
  lemma EndLocksOnce(st: State, c: Client, p: Path)
    requires c in st.sessions && IsFirst(p, st.sessions[c].entries.Keys)
    ensures var r := Release(st, c, p);
      && (r.out != Ok ==> EndLocks(st, c) == st && r.st == st)
      && (r.out == Ok ==> EndLocks(st, c) == EndLocks(r.st, c)
                          && |r.st.sessions[c].entries.Keys| < |st.sessions[c].entries.Keys|)
  {
    var entries := st.sessions[c].entries;
    FirstIsUnique(p, First(entries.Keys), entries.Keys);
    var r := Release(st, c, p);
    if r.out == Ok {
      assert r.st.sessions[c].entries.Keys == entries.Keys - {p};
      assert |entries.Keys - {p}| < |entries.Keys|;
    }
  }

  lemma RefusalChangesNothing(st: State, c: Client, p: Path, m: Mode)
    ensures Acquire(st, c, p, m).out != Ok ==> Acquire(st, c, p, m).st == st
  {
  }
}
