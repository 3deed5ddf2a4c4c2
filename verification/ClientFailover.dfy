/** Several client libraries on one server, and what a new master gets back from their maps of locks. */
module ClientFailover {
  import opened KeyOrder
  import opened LockSpec
  import opened LockInvariant
  import opened SessionEnd
  import opened ClientView
  import opened Failover

  /** The server, and the map of every client that has started a session and not ended it. */
  datatype Group = Group(server: State, views: map<Client, map<Path, Mode>>)

  /** `Ends`: by a close, or by a timeout; the client's map is of no use until it starts again, with an empty one. */
  datatype Action = Joins(c: Client) | Calls(c: Client, call: Call, blocked: bool) | Ends(c: Client, closing: bool)

  function EndOp(c: Client, closing: bool): Op {
    if closing then OpClose(c) else OpTimeout(c)
  }

  ghost function After(g: Group, a: Action): Group {
    match a
    case Joins(c) =>
      var r := CreateSession(g.server, c);
      if r.out != Ok then g else Group(r.st, g.views[c := map[]])
    case Calls(c, call, blocked) =>
      if c !in g.views then g
      else
        var s := Next(System(g.server, g.views[c]), c, Mine(call, blocked));
        Group(s.server, g.views[c := s.view])
    case Ends(c, closing) => Group(Step(g.server, EndOp(c, closing)), g.views - {c})
  }

  ghost function History(g: Group, actions: seq<Action>): Group
    decreases |actions|
  {
    if actions == [] then g else History(After(g, actions[0]), actions[1..])
  }

  /** Every client's map is sound. */
  ghost predicate AllSound(g: Group) {
    && Inv(g.server)
    && (forall c :: c in g.views ==> c in g.server.sessions && Sound(System(g.server, g.views[c]), c))
  }

  /** Every lock that is held is in its holder's map. */
  ghost predicate AllComplete(g: Group) {
    forall c, p :: Owns(g.server, c, p) ==> c in g.views && p in g.views[c]
  }

  ghost predicate OwnsNothing(st: State, c: Client) {
    forall p :: !Owns(st, c, p)
  }

  /** What ends the session leaves nothing behind: no entry that the client does not own sorts before one it owns. */
  ghost predicate LeavesNothing(st: State, c: Client, closing: bool) {
    if c !in st.sessions || (closing && st.sessions[c].terminated) then OwnsNothing(st, c)
    else forall p, q :: Owns(st, c, p) && q in st.sessions[c].entries && Less(q, p) ==> Owns(st, c, q)
  }

  /** The guard of an action: it reads no listed lock, and neither a start nor an end strands one. */
  ghost predicate Careful(g: Group, a: Action) {
    match a
    case Joins(c) => CreateSession(g.server, c).out == Ok ==> OwnsNothing(g.server, c)
    case Calls(c, CallRead(p), blocked) => !blocked && c in g.views ==> p !in g.views[c]
    case Calls(_, _, _) => true
    case Ends(c, closing) => LeavesNothing(g.server, c, closing)
  }

  ghost predicate CarefulHistory(g: Group, actions: seq<Action>)
    decreases |actions|
  {
    actions != [] ==> Careful(g, actions[0]) && CarefulHistory(After(g, actions[0]), actions[1..])
  }

  /** What one client does reaches the map of another at most as a handler run for somebody else. */
  lemma AsSeenBy(g: Group, a: Action, d: Client)
    requires AllSound(g) && a.Calls? && a.c in g.views && d in g.views && d != a.c
    ensures var s, after := System(g.server, g.views[d]), System(After(g, a).server, After(g, a).views[d]);
      after == s || after == Next(s, d, Theirs(Handler(a.c, Mine(a.call, a.blocked))))
  {
    ServerRunsTheHandler(System(g.server, g.views[a.c]), a.c, Mine(a.call, a.blocked));
  }

  /** A handler run for one client leaves the maps of the others sound. */
  lemma OthersStaySound(g: Group, op: Op, d: Client)
    requires AllSound(g) && d in g.views && d != op.c
    ensures d in Step(g.server, op).sessions && Sound(System(Step(g.server, op), g.views[d]), d)
  {
    StepOnlyGrows(g.server, op);
    NextKeepsSound(System(g.server, g.views[d]), d, Theirs(op));
  }

  lemma AfterCallKeepsSound(g: Group, a: Action)
    requires AllSound(g) && a.Calls? && a.c in g.views
    ensures AllSound(After(g, a))
  {
    hide Inv; hide Sound; hide Next;
    var after, e := After(g, a), Mine(a.call, a.blocked);
    var s := System(g.server, g.views[a.c]);
    NextKeepsServerInv(s, a.c, e);
    ServerRunsTheHandler(s, a.c, e);
    StepOnlyGrows(g.server, Handler(a.c, e));
    forall d | d in after.views ensures Sound(System(after.server, after.views[d]), d) {
      if d == a.c {
        NextKeepsSound(s, a.c, e);
      } else {
        AsSeenBy(g, a, d);
        NextKeepsSound(System(g.server, g.views[d]), d, Theirs(Handler(a.c, e)));
      }
    }
  }

  lemma AfterJoinKeepsSound(g: Group, c: Client)
    requires AllSound(g)
    ensures AllSound(After(g, Joins(c)))
  {
    StepKeepsInv(g.server, OpCreate(c));
    hide Inv;
    forall d | d in g.views && d != c ensures Sound(System(CreateSession(g.server, c).st, g.views[d]), d) {
      OthersStaySound(g, OpCreate(c), d);
    }
  }

  lemma AfterEndKeepsSound(g: Group, c: Client, closing: bool)
    requires AllSound(g)
    ensures AllSound(After(g, Ends(c, closing)))
  {
    hide Inv; hide Sound; hide Step;
    StepKeepsInv(g.server, EndOp(c, closing));
    forall d | d in g.views && d != c
      ensures var st := Step(g.server, EndOp(c, closing)); d in st.sessions && Sound(System(st, g.views[d]), d)
    {
      OthersStaySound(g, EndOp(c, closing), d);
    }
  }

  lemma OneActionKeepsAllSound(g: Group, a: Action)
    requires AllSound(g)
    ensures AllSound(After(g, a))
  {
    match a
    case Joins(c) => AfterJoinKeepsSound(g, c);
    case Calls(c, _, _) => if c in g.views { AfterCallKeepsSound(g, a); }
    case Ends(c, closing) => AfterEndKeepsSound(g, c, closing);
  }

  // ----- completeness -----

  /** Whatever runs for one client, the others own what they owned. */
  lemma OthersOwnTheSame(st: State, op: Op, d: Client, p: Path)
    requires Inv(st) && d != op.c
    ensures Owns(Step(st, op), d, p) <==> Owns(st, d, p)
  {
    hide Step;
    var after := Step(st, op);
    if p in st.table { OthersKeepTheirLocks(st, op, d, p, st.table[p].status); }
    if p in after.table { OthersKeepTheirLocks(st, op, d, p, after.table[p].status); }
  }

  /** With the maps of the others complete, what decides is the map of the one who acts. */
  lemma CompleteForTheActor(g: Group, after: Group, op: Op)
    requires AllSound(g) && AllComplete(g) && (after.server == g.server || after.server == Step(g.server, op))
    requires forall d :: d != op.c ==> (d in after.views <==> d in g.views)
    requires forall d :: d != op.c && d in g.views ==> after.views[d] == g.views[d]
    ensures AllComplete(after) <==>
            forall p :: Owns(after.server, op.c, p) ==> op.c in after.views && p in after.views[op.c]
  {
    hide Inv; hide Sound; hide Step;
    forall d, p | d != op.c && Owns(after.server, d, p) ensures d in after.views && p in after.views[d] {
      OthersOwnTheSame(g.server, op, d, p);
    }
  }

  lemma CallKeepsCompleteIff(g: Group, a: Action)
    requires AllSound(g) && AllComplete(g) && a.Calls?
    ensures AllComplete(After(g, a)) <==> Careful(g, a)
  {
    if a.c in g.views {
      var s, e := System(g.server, g.views[a.c]), Mine(a.call, a.blocked);
      var after := After(g, a);
      ServerRunsTheHandler(s, a.c, e);
      CompleteForTheActor(g, after, Handler(a.c, e));
      assert Complete(s, a.c) && Sound(s, a.c);
      if !a.call.CallRead? {
        NextKeepsComplete(s, a.c, e);
      } else if !a.blocked {
        ReadKeepsAgreementIff(s, a.c, a.call.p);
      }
    }
  }

  lemma JoinKeepsCompleteIff(g: Group, c: Client)
    requires AllSound(g) && AllComplete(g)
    ensures AllComplete(After(g, Joins(c))) <==> Careful(g, Joins(c))
  {
    hide Inv; hide Sound;
    if CreateSession(g.server, c).out == Ok {
      CompleteForTheActor(g, After(g, Joins(c)), OpCreate(c));
      assert forall p :: Owns(CreateSession(g.server, c).st, c, p) <==> Owns(g.server, c, p);
    }
  }

  lemma EndKeepsCompleteIff(g: Group, c: Client, closing: bool)
    requires AllSound(g) && AllComplete(g)
    ensures AllComplete(After(g, Ends(c, closing))) <==> Careful(g, Ends(c, closing))
  {
    CompleteForTheActor(g, After(g, Ends(c, closing)), EndOp(c, closing));
    EndLeavesNothingIff(g.server, c, closing);
  }

  lemma EndLeavesNothingIff(st: State, c: Client, closing: bool)
    requires Inv(st)
    ensures OwnsNothing(Step(st, EndOp(c, closing)), c) <==> LeavesNothing(st, c, closing)
  {
    hide Inv; hide EndSession;
    if c in st.sessions && !(closing && st.sessions[c].terminated) { EndSessionFreesTheClientIff(st, c); }
  }

  /** An action keeps the maps complete exactly if it is careful. */
  lemma ActionKeepsCompleteIff(g: Group, a: Action)
    requires AllSound(g) && AllComplete(g)
    ensures AllComplete(After(g, a)) <==> Careful(g, a)
  {
    match a
    case Joins(c) => JoinKeepsCompleteIff(g, c);
    case Calls(_, _, _) => CallKeepsCompleteIff(g, a);
    case Ends(c, closing) => EndKeepsCompleteIff(g, c, closing);
  }

  lemma {:induction false} HistoryKeepsAllSound(g: Group, actions: seq<Action>)
    requires AllSound(g)
    ensures AllSound(History(g, actions))
    ensures AllComplete(g) && CarefulHistory(g, actions) ==> AllComplete(History(g, actions))
    decreases |actions|
  {
    if actions != [] {
      hide AllSound; hide AllComplete; hide After; hide Careful;
      OneActionKeepsAllSound(g, actions[0]);
      if AllComplete(g) { ActionKeepsCompleteIff(g, actions[0]); }
      HistoryKeepsAllSound(After(g, actions[0]), actions[1..]);
    }
  }

  /** From the first session on, whatever the clients do and however sessions end, every client's map is sound. */
  lemma EveryMapIsSound(files: map<Path, string>, actions: seq<Action>)
    ensures AllSound(History(Group(Init(files), map[]), actions))
    ensures CarefulHistory(Group(Init(files), map[]), actions) ==> AllComplete(History(Group(Init(files), map[]), actions))
  {
    HistoryKeepsAllSound(Group(Init(files), map[]), actions);
  }

  // ----- a new master -----

  /** The clients present their maps, each entry once, in any order. */
  ghost predicate PresentsMaps(views: map<Client, map<Path, Mode>>, plan: seq<Recovery>) {
    && (forall i :: 0 <= i < |plan| ==>
          && plan[i].c in views && DistinctPaths(plan[i].claims)
          && forall p, m :: Claim(p, m) in plan[i].claims <==> p in views[plan[i].c] && views[plan[i].c][p] == m)
    && (forall i, j :: 0 <= i < j < |plan| ==> plan[i].c != plan[j].c)
    && (forall c :: c in views ==> InPlan(plan, c))
  }

  lemma MapsAreHonest(g: Group, plan: seq<Recovery>)
    requires AllSound(g) && PresentsMaps(g.views, plan)
    ensures HonestPlan(g.server, plan)
  {
    forall i | 0 <= i < |plan| ensures TrueClaims(g.server, plan[i]) {
      var r := plan[i];
      forall claim | claim in r.claims ensures Holds(g.server, r.c, claim.path, claim.mode) {
        assert claim == Claim(claim.path, claim.mode);
        assert Sound(System(g.server, g.views[r.c]), r.c);
      }
    }
  }

  lemma ClaimedIffListed(views: map<Client, map<Path, Mode>>, plan: seq<Recovery>, c: Client, p: Path, m: Mode)
    requires PresentsMaps(views, plan)
    ensures ClaimedBy(plan, c, p, m) <==> c in views && p in views[c] && views[c][p] == m
  {
    if c in views {
      var i :| 0 <= i < |plan| && plan[i].c == c;
      assert ClaimedBy(plan, c, p, m) <==> Claim(p, m) in plan[i].claims;
    }
  }

  /** After any history the clients' own maps give the old lock table back exactly if every lock that is held is in one. */
  lemma MapsRebuildTheTableIff(files: map<Path, string>, actions: seq<Action>, kept: map<Path, string>, plan: seq<Recovery>)
    requires var g := History(Group(Init(files), map[]), actions);
      PresentsMaps(g.views, plan) && g.server.files.Keys <= kept.Keys
    ensures var g := History(Group(Init(files), map[]), actions);
      (forall p :: LockAt(RecoverAll(Init(kept), plan), p) == LockAt(g.server, p)) <==> AllComplete(g)
  {
    var g := History(Group(Init(files), map[]), actions);
    EveryMapIsSound(files, actions);
    MapsAreHonest(g, plan);
    assert forall c, p :: Owns(g.server, c, p) ==> Backed(g.server, c, p);
    FailoverRebuildsTheLockTable(g.server, kept, plan);
    hide RecoverAll; hide Inv;
    forall c, p, m ensures ClaimedBy(plan, c, p, m) <==> c in g.views && p in g.views[c] && g.views[c][p] == m {
      ClaimedIffListed(g.views, plan, c, p, m);
    }
    EverythingListedIff(g);
  }

  lemma EverythingListedIff(g: Group)
    requires AllSound(g)
    ensures AllComplete(g) <==> forall c, p, m :: Holds(g.server, c, p, m) ==> c in g.views && p in g.views[c] && g.views[c][p] == m
  {
    if AllComplete(g) {
      forall c, p, m | Holds(g.server, c, p, m) ensures c in g.views && p in g.views[c] && g.views[c][p] == m {
        assert Owns(g.server, c, p);
        assert Sound(System(g.server, g.views[c]), c);
      }
    }
    if forall c, p, m :: Holds(g.server, c, p, m) ==> c in g.views && p in g.views[c] && g.views[c][p] == m {
      forall c, p | Owns(g.server, c, p) ensures c in g.views && p in g.views[c] {
        assert Holds(g.server, c, p, g.server.table[p].status);
      }
    }
  }

  /** Careful clients rebuild the table from their own maps. */
  lemma CarefulClientsRebuildTheTable(files: map<Path, string>, actions: seq<Action>, kept: map<Path, string>, plan: seq<Recovery>)
    requires CarefulHistory(Group(Init(files), map[]), actions)
    requires var g := History(Group(Init(files), map[]), actions);
      PresentsMaps(g.views, plan) && g.server.files.Keys <= kept.Keys
    ensures var g := History(Group(Init(files), map[]), actions);
      forall p :: LockAt(RecoverAll(Init(kept), plan), p) == LockAt(g.server, p)
  {
    EveryMapIsSound(files, actions);
    MapsRebuildTheTableIff(files, actions, kept, plan);
  }

  ghost predicate NobodyReadsNorEnds(actions: seq<Action>) {
    forall i :: 0 <= i < |actions| ==> !actions[i].Ends? && (actions[i].Calls? ==> !actions[i].call.CallRead?)
  }

  ghost predicate NoneTerminated(st: State) {
    forall c :: c in st.sessions ==> !st.sessions[c].terminated
  }

  lemma CallTerminatesNobody(g: Group, a: Action)
    requires AllSound(g) && NoneTerminated(g.server) && a.Calls?
    ensures NoneTerminated(After(g, a).server)
  {
    hide Sound;
    if a.c in g.views && a.call.CallDelete? { DeleteNeverRemoves(g.server, a.c, a.call.p); }
    hide Inv;
  }

  lemma {:induction false} NonReadersAreCareful(g: Group, actions: seq<Action>)
    requires AllSound(g) && NoneTerminated(g.server) && NobodyReadsNorEnds(actions)
    ensures CarefulHistory(g, actions)
    decreases |actions|
  {
    if actions != [] {
      var a := actions[0];
      assert !a.Ends? && (a.Calls? ==> !a.call.CallRead?);
      OneActionKeepsAllSound(g, a);
      if a.Calls? { CallTerminatesNobody(g, a); }
      assert forall p :: Owns(g.server, a.c, p) ==> Backed(g.server, a.c, p);
      hide AllSound; hide Next;
      NonReadersAreCareful(After(g, a), actions[1..]);
    }
  }

  /** Clients that never read, and whose sessions do not end, are. */
  lemma NonReadersRebuildTheTable(files: map<Path, string>, actions: seq<Action>, kept: map<Path, string>, plan: seq<Recovery>)
    requires NobodyReadsNorEnds(actions)
    requires var g := History(Group(Init(files), map[]), actions);
      PresentsMaps(g.views, plan) && g.server.files.Keys <= kept.Keys
    ensures var g := History(Group(Init(files), map[]), actions);
      forall p :: LockAt(RecoverAll(Init(kept), plan), p) == LockAt(g.server, p)
  {
    NonReadersAreCareful(Group(Init(files), map[]), actions);
    CarefulClientsRebuildTheTable(files, actions, kept, plan);
  }

  /** A lock whose exclusive holder does not list it, because it has read it or its session has ended, is lost. */
  lemma UnlistedLockIsLost(files: map<Path, string>, actions: seq<Action>, kept: map<Path, string>, plan: seq<Recovery>, c: Client, p: Path)
    requires var g := History(Group(Init(files), map[]), actions);
      && PresentsMaps(g.views, plan) && g.server.files.Keys <= kept.Keys
      && Holds(g.server, c, p, Exclusive) && !(c in g.views && p in g.views[c])
    ensures LockAt(RecoverAll(Init(kept), plan), p) == FREE_LOCK
  {
    var g := History(Group(Init(files), map[]), actions);
    EveryMapIsSound(files, actions);
    MapsAreHonest(g, plan);
    assert forall d, q :: Owns(g.server, d, q) ==> Backed(g.server, d, q);
    ClaimedIffListed(g.views, plan, c, p, Exclusive);
    UnclaimedLockIsLost(g.server, kept, plan, c, p);
  }

  // ----- what the actions achieve -----

  /** A client that may start does so with an empty map and a session, and one whose session lives may not. */
  lemma JoinAchieves(g: Group, c: Client)
    ensures c in g.server.sessions && !g.server.sessions[c].terminated ==> After(g, Joins(c)) == g
    ensures !(c in g.server.sessions && !g.server.sessions[c].terminated) ==>
      After(g, Joins(c)).views == g.views[c := map[]] && c in After(g, Joins(c)).server.sessions
  {
  }

  /** A call is the step of `ClientView` for the one who makes it. */
  lemma CallAchieves(g: Group, a: Action)
    requires a.Calls? && a.c in g.views
    ensures After(g, a).views.Keys == g.views.Keys
    ensures System(After(g, a).server, After(g, a).views[a.c]) ==
            Next(System(g.server, g.views[a.c]), a.c, Mine(a.call, a.blocked))
    ensures forall d :: d in g.views && d != a.c ==> After(g, a).views[d] == g.views[d]
  {
  }

  /** An end runs `close_session` or the timeout, and the client is out. */
  lemma EndAchieves(g: Group, c: Client, closing: bool)
    requires AllSound(g) && AllEntriesOwned(g.server, c) && !g.server.sessions[c].terminated
    ensures var after := After(g, Ends(c, closing));
      && after.views == g.views - {c}
      && c in after.server.sessions && after.server.sessions[c] == Sess(map[], true)
      && OwnsNothing(after.server, c)
  {
    EndSessionReleasesEverything(g.server, c);
  }

  /** One client that opens, acquires and reads is enough to lose a lock: the old table does not come back. */
  lemma OneReadLosesALock(c: Client, p: Path)
    ensures exists actions ::
      var g := History(Group(Init(map[]), map[]), actions);
      Holds(g.server, c, p, Exclusive) && c in g.views && p !in g.views[c] && !AllComplete(g)
  {
    var start := Group(Init(map[]), map[]);
    var g1 := After(start, Joins(c));
    var g2 := After(g1, Calls(c, CallOpen(p, true), false));
    var g3 := After(g2, Calls(c, CallAcquire(p, Exclusive), false));
    assert g3.views[c] == map[p := Exclusive] && Holds(g3.server, c, p, Exclusive);
    var g4 := After(g3, Calls(c, CallRead(p), false));
    var actions := [Joins(c), Calls(c, CallOpen(p, true), false), Calls(c, CallAcquire(p, Exclusive), false), Calls(c, CallRead(p), false)];
    assert Holds(g4.server, c, p, Exclusive) && p !in g4.views[c];
    assert Owns(g4.server, c, p);
    hide After;
    assert actions[1..][1..][1..][1..] == [];
    assert History(g4, []) == g4;
    assert History(g3, actions[1..][1..][1..]) == g4;
    assert History(g2, actions[1..][1..]) == g4;
    assert History(g1, actions[1..]) == g4;
    assert History(start, actions) == g4;
  }
}
