/** How a master takes over the locks that clients say they hold. */
module Failover {
  import opened LockSpec
  import opened LockInvariant
  import opened SessionEnd

  /** A claim that a lock table can grant as it stands. */
  ghost predicate Compatible(st: State, claim: Claim) {
    && claim.mode != Free
    && claim.path in st.files
    && (LockAt(st, claim.path).status == Free || (LockAt(st, claim.path).status == Shared && claim.mode == Shared))
  }

  /** Claims arrive as a map, in any order: the order is free, the paths are distinct. */
  ghost predicate DistinctPaths(claims: seq<Claim>) {
    forall i, j :: 0 <= i < j < |claims| ==> claims[i].path != claims[j].path
  }

  ghost predicate CompatibleFrom(st: State, claims: seq<Claim>, i: nat) {
    forall j :: i <= j < |claims| ==> Compatible(st, claims[j])
  }

  ghost predicate AllCompatible(st: State, claims: seq<Claim>) {
    CompatibleFrom(st, claims, 0)
  }

  /** The claim for `p` was granted and nothing after it was refused. */
  ghost predicate Survives(st: State, claims: seq<Claim>, p: Path, m: Mode) {
    exists i: nat :: i < |claims| && claims[i] == Claim(p, m) && CompatibleFrom(st, claims, i)
  }

  ghost predicate Claimed(claims: seq<Claim>, p: Path) {
    exists i :: 0 <= i < |claims| && claims[i].path == p
  }

  /** What is true after any number of claims of a client that had no session in `st`. */
  ghost predicate Progress(st: State, mid: State, c: Client, claims: seq<Claim>) {
    && Inv(mid) && AllEntriesOwned(mid, c)
    && mid.files == st.files
    && (forall p, m :: Holds(mid, c, p, m) <==> Survives(st, claims, p, m))
    && (mid.sessions[c].terminated <==> !AllCompatible(st, claims))
    && (forall p :: !Claimed(claims, p) ==> LockAt(mid, p) == LockAt(st, p))
    && (forall p :: p in mid.sessions[c].entries ==> Claimed(claims, p))
  }

  lemma {:induction false} ClaimsProgress(st: State, c: Client, claims: seq<Claim>)
    requires Inv(st) && c !in st.sessions && DistinctPaths(claims)
    ensures Progress(st, ClaimAll(CreateSession(st, c).st, c, claims), c, claims)
  {
    var start := CreateSession(st, c).st;
    if claims == [] {
      assert forall p :: Owns(st, c, p) ==> Backed(st, c, p);
    } else {
      var front, last := claims[..|claims| - 1], claims[|claims| - 1];
      ClaimsProgress(st, c, front);
      var mid := ClaimAll(start, c, front);
      assert claims == front + [last];
      assert forall i :: 0 <= i < |front| ==> front[i] == claims[i];
      if Compatible(st, last) {
        GrantedClaim(st, mid, c, front, last);
      } else {
        RefusedClaim(st, mid, c, front, last);
      }
    }
  }

  lemma CompatibleFromSnoc(st: State, front: seq<Claim>, last: Claim, i: nat)
    requires i <= |front|
    ensures CompatibleFrom(st, front + [last], i) <==> CompatibleFrom(st, front, i) && Compatible(st, last)
  {
    var claims := front + [last];
    assert claims[|front|] == last && forall j :: 0 <= j < |front| ==> claims[j] == front[j];
  }

  lemma SurvivesSnoc(st: State, front: seq<Claim>, last: Claim, p: Path, m: Mode)
    ensures Survives(st, front + [last], p, m) <==>
            Compatible(st, last) && (Survives(st, front, p, m) || last == Claim(p, m))
  {
    hide Compatible;
    var claims := front + [last];
    if Survives(st, claims, p, m) {
      var i: nat :| i < |claims| && claims[i] == Claim(p, m) && CompatibleFrom(st, claims, i);
      CompatibleFromSnoc(st, front, last, i);
    }
    if Compatible(st, last) {
      if Survives(st, front, p, m) {
        var i: nat :| i < |front| && front[i] == Claim(p, m) && CompatibleFrom(st, front, i);
        CompatibleFromSnoc(st, front, last, i);
        assert claims[i] == Claim(p, m);
      }
      if last == Claim(p, m) {
        CompatibleFromSnoc(st, front, last, |front|);
        assert claims[|front|] == Claim(p, m) && CompatibleFrom(st, front, |front|);
      }
    }
  }

  lemma ClaimedSnoc(front: seq<Claim>, last: Claim, p: Path)
    ensures Claimed(front + [last], p) <==> Claimed(front, p) || last.path == p
  {
    var claims := front + [last];
    assert claims[|front|] == last;
    if Claimed(front, p) {
      var i :| 0 <= i < |front| && front[i].path == p;
      assert claims[i].path == p;
    }
  }

  lemma GrantShape(mid: State, c: Client, claim: Claim)
    requires c in mid.sessions && Compatible(mid, claim)
    ensures var after := ClaimOne(mid, c, claim);
      && (forall q, m :: q != claim.path ==> (Holds(after, c, q, m) <==> Holds(mid, c, q, m)))
      && (forall m :: Holds(after, c, claim.path, m) <==> m == claim.mode)
      && (forall q :: q != claim.path ==> LockAt(after, q) == LockAt(mid, q))
      && after.sessions[c] == mid.sessions[c].(entries := mid.sessions[c].entries[claim.path := true])
      && after.files == mid.files
  {
  }

  lemma GrantedClaim(st: State, mid: State, c: Client, front: seq<Claim>, last: Claim)
    requires Progress(st, mid, c, front) && !Claimed(front, last.path) && Compatible(st, last)
    ensures Progress(st, ClaimOne(mid, c, last), c, front + [last])
  {
    var after := ClaimOne(mid, c, last);
    AcquireKeepsInv(mid, c, last.path, last.mode);
    GrantShape(mid, c, last);
    CompatibleFromSnoc(st, front, last, 0);
    forall p ensures Claimed(front + [last], p) <==> Claimed(front, p) || last.path == p {
      ClaimedSnoc(front, last, p);
    }
    forall p, m ensures Holds(after, c, p, m) <==> Survives(st, front + [last], p, m) {
      SurvivesSnoc(st, front, last, p, m);
      SurvivesClaimed(st, front, p, m);
    }
    assert AllEntriesOwned(after, c) by {
      assert Holds(after, c, last.path, last.mode);
      forall p | p in after.sessions[c].entries && p != last.path ensures Owns(after, c, p) {
        assert Owns(mid, c, p);
        assert Holds(mid, c, p, mid.table[p].status);
        assert Holds(after, c, p, mid.table[p].status);
      }
    }
  }

  lemma SurvivesClaimed(st: State, claims: seq<Claim>, p: Path, m: Mode)
    ensures Survives(st, claims, p, m) ==> Claimed(claims, p)
  {
  }

  lemma RefusedClaim(st: State, mid: State, c: Client, front: seq<Claim>, last: Claim)
    requires Progress(st, mid, c, front) && !Claimed(front, last.path) && !Compatible(st, last)
    ensures Progress(st, ClaimOne(mid, c, last), c, front + [last])
  {
    var after := ClaimOne(mid, c, last);
    EndSessionKeepsInv(mid, c);
    EndSessionGivesUpOwnedPrefix(mid, c);
    EndSessionReleasesEverything(mid, c);
    CompatibleFromSnoc(st, front, last, 0);
    forall p ensures Claimed(front + [last], p) <==> Claimed(front, p) || last.path == p {
      ClaimedSnoc(front, last, p);
    }
    forall p, m ensures Holds(after, c, p, m) <==> Survives(st, front + [last], p, m) {
      SurvivesSnoc(st, front, last, p, m);
    }
  }

  /**
    A client without a session that presents claims: afterwards it holds exactly the claims behind
    the last refused one, in the claimed modes, and its session is live exactly when none was refused.
  */
  lemma JeopardyOutcome(st: State, c: Client, claims: seq<Claim>)
    requires Inv(st) && c !in st.sessions && DistinctPaths(claims)
    ensures var after := Jeopardy(st, c, claims).st;
      && (forall p, m :: Holds(after, c, p, m) <==> Survives(st, claims, p, m))
      && (after.sessions[c].terminated <==> !AllCompatible(st, claims))
      && OnlyTouches(st, after, c)
  {
    ClaimsProgress(st, c, claims);
    JeopardyNeverDisturbsOthers(st, c, claims);
  }

  /** For every claim sequence, in every state: nobody else gains, loses or changes anything. */
  lemma JeopardyNeverDisturbsOthers(st: State, c: Client, claims: seq<Claim>)
    requires Inv(st)
    ensures OnlyTouches(st, Jeopardy(st, c, claims).st, c)
  {
    var r := CreateSession(st, c);
    if r.out == Ok { ClaimAllFrame(r.st, c, claims); }
  }

  /** Claims that are all compatible are all granted, whatever their order. */
  lemma CompatibleClaimsAreGranted(st: State, c: Client, claims: seq<Claim>)
    requires Inv(st) && c !in st.sessions && DistinctPaths(claims) && AllCompatible(st, claims)
    ensures var after := Jeopardy(st, c, claims).st;
      && (forall p, m :: Holds(after, c, p, m) <==> Claim(p, m) in claims)
      && !after.sessions[c].terminated
  {
    JeopardyOutcome(st, c, claims);
    forall p, m ensures Survives(st, claims, p, m) <==> Claim(p, m) in claims {
      if Claim(p, m) in claims {
        var i: nat :| i < |claims| && claims[i] == Claim(p, m);
        assert CompatibleFrom(st, claims, i);
      }
    }
  }

  // ----- fail-over -----

  datatype Recovery = Recovery(c: Client, claims: seq<Claim>)

  ghost function RecoverAll(st: State, plan: seq<Recovery>): State {
    if plan == [] then st
    else Jeopardy(RecoverAll(st, plan[..|plan| - 1]), plan[|plan| - 1].c, plan[|plan| - 1].claims).st
  }

  /** Every claim is something that the client held in `prior`, each path claimed once. */
  ghost predicate TrueClaims(prior: State, r: Recovery) {
    DistinctPaths(r.claims) && forall claim :: claim in r.claims ==> Holds(prior, r.c, claim.path, claim.mode)
  }

  ghost predicate HonestPlan(prior: State, plan: seq<Recovery>) {
    && (forall i :: 0 <= i < |plan| ==> TrueClaims(prior, plan[i]))
    && (forall i, j :: 0 <= i < j < |plan| ==> plan[i].c != plan[j].c)
  }

  ghost predicate InPlan(plan: seq<Recovery>, c: Client) {
    exists i :: 0 <= i < |plan| && plan[i].c == c
  }

  ghost predicate ClaimedBy(plan: seq<Recovery>, c: Client, p: Path, m: Mode) {
    exists i :: 0 <= i < |plan| && plan[i].c == c && Claim(p, m) in plan[i].claims
  }

  ghost predicate Recovered(st: State, plan: seq<Recovery>) {
    && Inv(st)
    && (forall d, p, m :: Holds(st, d, p, m) <==> ClaimedBy(plan, d, p, m))
    && (forall d :: d in st.sessions <==> InPlan(plan, d))
    && (forall d :: d in st.sessions ==> !st.sessions[d].terminated)
  }

  lemma {:induction false} RecoverySteps(prior: State, files: map<Path, string>, plan: seq<Recovery>)
    requires Inv(prior) && HonestPlan(prior, plan)
    requires forall c, p :: Owns(prior, c, p) ==> p in files
    ensures Recovered(RecoverAll(Init(files), plan), plan)
    ensures RecoverAll(Init(files), plan).files == files
  {
    hide Jeopardy; hide TrueClaims;
    if plan != [] {
      var front, r := plan[..|plan| - 1], plan[|plan| - 1];
      RecoverySteps(prior, files, front);
      var mid := RecoverAll(Init(files), front);
      assert forall i :: 0 <= i < |front| ==> front[i] == plan[i];
      TrueClaimsAreCompatible(prior, mid, front, r);
      RecoverOne(prior, mid, front, r);
      assert plan == front + [r];
    }
  }

  lemma TrueClaimsAreCompatible(prior: State, mid: State, front: seq<Recovery>, r: Recovery)
    requires Inv(prior) && HonestPlan(prior, front) && Recovered(mid, front) && !InPlan(front, r.c) && TrueClaims(prior, r)
    requires forall c, p :: Owns(prior, c, p) ==> p in mid.files
    ensures AllCompatible(mid, r.claims)
  {
    forall j | 0 <= j < |r.claims| ensures Compatible(mid, r.claims[j]) {
      var p, m := r.claims[j].path, r.claims[j].mode;
      assert r.claims[j] == Claim(p, m) && Claim(p, m) in r.claims;
      assert Holds(prior, r.c, p, m);
      var l := LockAt(mid, p);
      if l.status != Free {
        var d :| d in l.owners;
        assert Holds(mid, d, p, l.status);
        ClaimsWereHeld(prior, front, d, p, l.status);
        assert Holds(prior, d, p, l.status) && d != r.c;
        if m == Exclusive { SoleOwner(prior.table[p], r.c); }
      }
    }
  }

  lemma ClaimsWereHeld(prior: State, plan: seq<Recovery>, c: Client, p: Path, m: Mode)
    requires HonestPlan(prior, plan) && ClaimedBy(plan, c, p, m)
    ensures Holds(prior, c, p, m) && InPlan(plan, c)
  {
    var i :| 0 <= i < |plan| && plan[i].c == c && Claim(p, m) in plan[i].claims;
    assert TrueClaims(prior, plan[i]);
  }

  lemma RecoverOne(prior: State, mid: State, front: seq<Recovery>, r: Recovery)
    requires Recovered(mid, front) && !InPlan(front, r.c) && TrueClaims(prior, r)
    requires AllCompatible(mid, r.claims)
    ensures Recovered(Jeopardy(mid, r.c, r.claims).st, front + [r])
    ensures Jeopardy(mid, r.c, r.claims).st.files == mid.files
  {
    hide Inv; hide Survives;
    var after := Jeopardy(mid, r.c, r.claims).st;
    CompatibleClaimsAreGranted(mid, r.c, r.claims);
    JeopardyNeverDisturbsOthers(mid, r.c, r.claims);
    StepKeepsInv(mid, OpJeopardy(r.c, r.claims));
    JeopardySessions(mid, r.c, r.claims);
    forall d ensures InPlan(front + [r], d) <==> InPlan(front, d) || d == r.c {
      InPlanSnoc(front, r, d);
    }
    forall d, p, m ensures Holds(after, d, p, m) <==> ClaimedBy(front + [r], d, p, m) {
      ClaimedBySnoc(front, r, d, p, m);
      if d == r.c {
        assert Holds(after, d, p, m) <==> Claim(p, m) in r.claims;
      } else {
        assert Holds(after, d, p, m) <==> Holds(mid, d, p, m);
      }
    }
  }

  lemma ClaimedBySnoc(front: seq<Recovery>, r: Recovery, d: Client, p: Path, m: Mode)
    requires !InPlan(front, r.c)
    ensures ClaimedBy(front + [r], d, p, m) <==> if d == r.c then Claim(p, m) in r.claims else ClaimedBy(front, d, p, m)
  {
    var plan := front + [r];
    assert plan[|front|] == r;
    if ClaimedBy(front, d, p, m) {
      var i :| 0 <= i < |front| && front[i].c == d && Claim(p, m) in front[i].claims;
      assert plan[i] == front[i];
    }
  }

  lemma InPlanSnoc(front: seq<Recovery>, r: Recovery, d: Client)
    ensures InPlan(front + [r], d) <==> InPlan(front, d) || d == r.c
  {
    var plan := front + [r];
    assert plan[|front|] == r;
    if InPlan(front, d) {
      var i :| 0 <= i < |front| && front[i].c == d;
      assert plan[i].c == d;
    }
  }

  /** Recovery adds at most the one session. */
  lemma JeopardySessions(st: State, c: Client, claims: seq<Claim>)
    requires Inv(st)
    ensures Jeopardy(st, c, claims).st.sessions.Keys == st.sessions.Keys + {c}
  {
    var r := CreateSession(st, c);
    if r.out == Ok { ClaimAllSessions(r.st, c, claims); }
  }

  lemma {:induction false} ClaimAllSessions(st: State, c: Client, claims: seq<Claim>)
    requires Inv(st) && c in st.sessions
    ensures ClaimAll(st, c, claims).sessions.Keys == st.sessions.Keys
  {
    if claims != [] {
      var front := claims[..|claims| - 1];
      ClaimAllSessions(st, c, front);
      ClaimAllKeepsInv(st, c, front);
      EndSessionGivesUpOwnedPrefix(ClaimAll(st, c, front), c);
    }
  }

  /**
    Fail-over: a new master with empty tables hears from clients of the old one, in any order and each
    claim map in any order, and no client claims what it did not hold. Then exactly what they claim is
    held again, and every session is live.
  */
  lemma FailoverGrantsExactlyTheClaims(prior: State, files: map<Path, string>, plan: seq<Recovery>)
    requires Inv(prior) && HonestPlan(prior, plan)
    requires forall c, p :: Owns(prior, c, p) ==> p in files
    ensures var st := RecoverAll(Init(files), plan);
      && (forall c, p, m :: Holds(st, c, p, m) <==> ClaimedBy(plan, c, p, m))
      && (forall d :: InPlan(plan, d) <==> d in st.sessions)
      && (forall d :: d in st.sessions ==> !st.sessions[d].terminated)
      && Inv(st)
  {
    RecoverySteps(prior, files, plan);
  }

  /** The new lock table is the old one, path for path, exactly when everything that was held is claimed. */
  lemma FailoverRebuildsTheLockTable(prior: State, files: map<Path, string>, plan: seq<Recovery>)
    requires Inv(prior) && HonestPlan(prior, plan)
    requires forall c, p :: Owns(prior, c, p) ==> p in files
    ensures (forall p :: LockAt(RecoverAll(Init(files), plan), p) == LockAt(prior, p)) <==>
            (forall c, p, m :: Holds(prior, c, p, m) ==> ClaimedBy(plan, c, p, m))
  {
    RecoverySteps(prior, files, plan);
    var st := RecoverAll(Init(files), plan);
    if forall c, p, m :: Holds(prior, c, p, m) ==> ClaimedBy(plan, c, p, m) {
      forall p ensures LockAt(st, p) == LockAt(prior, p) {
        forall c, m ensures Holds(st, c, p, m) <==> Holds(prior, c, p, m) {
          if ClaimedBy(plan, c, p, m) { ClaimsWereHeld(prior, plan, c, p, m); }
        }
        SameHoldersSameLock(st, prior, p);
      }
    }
    if forall p :: LockAt(st, p) == LockAt(prior, p) {
      forall c, p, m | Holds(prior, c, p, m) ensures ClaimedBy(plan, c, p, m) {
        assert LockAt(st, p) == LockAt(prior, p);
        assert Holds(st, c, p, m);
      }
    }
  }

  /** A lock that was held exclusively and is not claimed by its holder is free after the fail-over. */
  lemma UnclaimedLockIsLost(prior: State, files: map<Path, string>, plan: seq<Recovery>, c: Client, p: Path)
    requires Inv(prior) && HonestPlan(prior, plan)
    requires forall c, p :: Owns(prior, c, p) ==> p in files
    requires Holds(prior, c, p, Exclusive) && !ClaimedBy(plan, c, p, Exclusive)
    ensures LockAt(RecoverAll(Init(files), plan), p) == FREE_LOCK
  {
    RecoverySteps(prior, files, plan);
    var l := LockAt(RecoverAll(Init(files), plan), p);
    SoleOwner(prior.table[p], c);
    if d :| d in l.owners {
      assert Holds(RecoverAll(Init(files), plan), d, p, l.status);
      ClaimsWereHeld(prior, plan, d, p, l.status);
    }
  }

  /**
    Recovery may come too late: if somebody else has meanwhile taken a path that the client claims
    exclusively, its session ends and the lock stays where it is.
  */
  lemma LateRecoveryIsRefused(st: State, c: Client, claims: seq<Claim>, p: Path, d: Client, m: Mode)
    requires Inv(st) && c !in st.sessions && DistinctPaths(claims)
    requires Claim(p, Exclusive) in claims && Holds(st, d, p, m)
    ensures var after := Jeopardy(st, c, claims).st;
      && after.sessions[c].terminated && !Owns(after, c, p) && Holds(after, d, p, m)
  {
    JeopardyOutcome(st, c, claims);
    var after := Jeopardy(st, c, claims).st;
    assert Backed(st, d, p);
    var i: nat :| i < |claims| && claims[i] == Claim(p, Exclusive);
    assert !Compatible(st, claims[i]);
    if Owns(after, c, p) {
      assert Holds(after, c, p, after.table[p].status);
    }
  }

  lemma SameHoldersSameLock(a: State, b: State, p: Path)
    requires Inv(a) && Inv(b)
    requires forall d, m :: Holds(a, d, p, m) <==> Holds(b, d, p, m)
    ensures LockAt(a, p) == LockAt(b, p)
  {
    var l, k := LockAt(a, p), LockAt(b, p);
    forall d ensures d in l.owners <==> d in k.owners {
      if d in l.owners { assert Holds(a, d, p, l.status); }
      if d in k.owners { assert Holds(b, d, p, k.status); }
    }
    if d :| d in l.owners { assert Holds(a, d, p, l.status); }
  }
}
