/** The bookkeeping of log files: a revision is closed, queued, compressed, and old ones are removed. */
module Rotation {
  import opened Options
  import opened Sets

  class Rotator {
    var minRevnum: nat
    var curRevnum: nat
    var numCompJobs: nat
    const maxLogFiles: nat
    var pending: seq<nat>             // the manager's list of revisions to compress
    var inProgress: Option<nat>       // what the compressor took off the list
    var plain: set<nat>               // revisions with a log file
    var packed: set<nat>              // revisions with a compressed file

    /** Queued revisions are in order, after the one in progress, before the open one, and still there. */
    ghost predicate Valid()
      reads this
    {
      && numCompJobs == |pending| + (if inProgress.Some? then 1 else 0)
      && (forall r :: r in plain || r in packed ==> minRevnum <= r <= curRevnum)
      && (forall r :: r in packed ==> r < curRevnum)
      && curRevnum in plain
      && (forall i, j :: 0 <= i < j < |pending| ==> pending[i] < pending[j])
      && (forall i :: 0 <= i < |pending| ==> pending[i] < curRevnum && pending[i] in plain)
      && (inProgress.Some? ==> inProgress.value < curRevnum && inProgress.value in plain
                               && forall i :: 0 <= i < |pending| ==> inProgress.value < pending[i])
    }

    /** What a directory scan at start-up leaves: the files found, and the open file of the latest revision. */
    constructor (minRevnum: nat, curRevnum: nat, maxLogFiles: nat, plain: set<nat>, packed: set<nat>)
      requires forall r :: r in plain || r in packed ==> minRevnum <= r <= curRevnum
      requires forall r :: r in packed ==> r < curRevnum
      requires minRevnum <= curRevnum
      ensures Valid() && numCompJobs == 0 && this.maxLogFiles == maxLogFiles
      ensures this.minRevnum == minRevnum && this.curRevnum == curRevnum
      ensures this.plain == plain + {curRevnum} && this.packed == packed && pending == [] && inProgress == None
    {
      this.minRevnum, this.curRevnum, this.maxLogFiles := minRevnum, curRevnum, maxLogFiles;
      this.plain, this.packed := plain + {curRevnum}, packed;
      numCompJobs, pending, inProgress := 0, [], None;
    }

    /** A full file is closed and queued, if the manager is still there to compress it. */
    method Rotate(managerAlive: bool)
      requires Valid()
      modifies this`curRevnum, this`plain, this`pending, this`numCompJobs
      ensures Valid() && curRevnum == old(curRevnum) + 1 && plain == old(plain) + {curRevnum}
      ensures pending == if managerAlive then old(pending) + [old(curRevnum)] else old(pending)
    {
      curRevnum := curRevnum + 1;
      plain := plain + {curRevnum};
      if managerAlive {
        numCompJobs := numCompJobs + 1;
        pending := pending + [curRevnum - 1];
      }
    }

    method TakeJob()
      requires Valid() && inProgress.None? && pending != []
      modifies this`pending, this`inProgress
      ensures Valid() && inProgress == Some(old(pending[0])) && pending == old(pending)[1..]
    {
      inProgress := Some(pending[0]);
      pending := pending[1..];
    }

    /**
      Compresses revision n and removes old ones. Afterwards nothing is left below `minRevnum`, at most
      `maxLogFiles` revisions up to n remain if there is a limit, and no revision that is still to be
      compressed, nor the open one, is touched. What the limit allows is kept: the latest `maxLogFiles`
      revisions up to n that were there, and all of them without a limit.
    */
    method DoCompression()
      requires Valid() && inProgress.Some?
      modifies this`minRevnum, this`numCompJobs, this`inProgress, this`plain, this`packed
      ensures Valid() && inProgress.None? && numCompJobs == old(numCompJobs) - 1 && minRevnum >= old(minRevnum)
      ensures var n := old(inProgress).value;
        && plain == (set r | r in old(plain) && r != n && minRevnum <= r)
        && packed == (set r | r in old(packed) + {n} && minRevnum <= r)
        && (maxLogFiles > 0 ==> n < minRevnum + maxLogFiles)
        && (maxLogFiles > 0 ==> |Upto(plain + packed, n)| <= maxLogFiles)
        && n in packed && n !in plain
        && minRevnum == (if 0 < maxLogFiles <= n && old(minRevnum) <= n - maxLogFiles then n - maxLogFiles + 1 else old(minRevnum))
        && (forall r :: r in old(plain) && r != n && (maxLogFiles == 0 || n < r + maxLogFiles) ==> r in plain)
        && (forall r :: r in old(packed) && (maxLogFiles == 0 || n < r + maxLogFiles) ==> r in packed)
      ensures forall i :: 0 <= i < |pending| ==> pending[i] in plain
    {
      var n := inProgress.value;
      packed := packed + {n};
      plain := plain - {n};
      if maxLogFiles > 0 && n >= maxLogFiles { RemoveUpto(n - maxLogFiles); }
      numCompJobs := numCompJobs - 1;
      inProgress := None;
      if minRevnum <= n + 1 { WithinInterval(Upto(plain + packed, n), minRevnum, n + 1); }
    }

    method RemoveUpto(last: nat)
      requires forall r :: r in plain || r in packed ==> minRevnum <= r
      modifies this`minRevnum, this`plain, this`packed
      ensures minRevnum == if old(minRevnum) <= last then last + 1 else old(minRevnum)
      ensures plain == (set r | r in old(plain) && minRevnum <= r)
      ensures packed == (set r | r in old(packed) && minRevnum <= r)
    {
      var ii := minRevnum;
      while ii <= last
        invariant minRevnum == ii && old(minRevnum) <= ii && (ii <= last + 1 || ii == old(minRevnum))
        invariant plain == (set r | r in old(plain) && ii <= r)
        invariant packed == (set r | r in old(packed) && ii <= r)
      {
        plain := plain - {ii};
        packed := packed - {ii};
        minRevnum := ii + 1;
        ii := ii + 1;
      }
    }
  }

  function Upto(revs: set<nat>, n: nat): set<nat> {
    set r | r in revs && r <= n
  }
}
