/**
  The emulated disk of the log store: indices that are still being written, by the time at which they
  become durable, and the last durable index.
*/
module DiskSpec {
  import opened Sets
  import opened LogSpec

  datatype Disk = Disk(pending: map<nat, nat>, durable: nat)

  /** Index `i` becomes durable at time `at`; indices above `i` are no longer being written. */
  function Written(d: Disk, i: nat, at: nat): Disk {
    var pending := d.pending[at := i];
    d.(pending := pending - (set t | t in pending && pending[t] > i))
  }

  function Due(d: Disk, now: nat): set<nat> {
    set t | t in d.pending && t <= now
  }

  ghost function Drained(d: Disk, now: nat): Disk {
    var due := Due(d, now);
    Disk(d.pending - due, if due == {} then d.durable else d.pending[Greatest(due)])
  }

  /** A flush only moves the durable index; what is pending stays pending. */
  function Flushed(d: Disk, l: Log): Disk {
    d.(durable := if NextSlot(l) > 0 then NextSlot(l) - 1 else 0)
  }

  /** A write schedules its index, drops exactly the pending indices above it, and keeps the others at their times. */
  lemma WrittenSchedules(d: Disk, i: nat, at: nat)
    ensures var e := Written(d, i, at);
      && e.durable == d.durable
      && at in e.pending && e.pending[at] == i
      && (forall t :: t in e.pending && t != at <==> t in d.pending && t != at && d.pending[t] <= i)
      && (forall t :: t in e.pending && t != at ==> e.pending[t] == d.pending[t])
  {
  }

  /** Draining removes exactly what is due, and the latest of it is durable then. */
  lemma DrainedIsDurable(d: Disk, now: nat)
    ensures var e := Drained(d, now);
      && (forall t :: t in e.pending <==> t in d.pending && now < t)
      && (forall t :: t in e.pending ==> e.pending[t] == d.pending[t])
      && (forall t :: t in d.pending && t <= now && (forall u :: u in d.pending && u <= now ==> u <= t) ==> e.durable == d.pending[t])
      && ((forall t :: t in d.pending ==> now < t) ==> e == d)
  {
    var due := Due(d, now);
    if due == {} {
      assert forall t :: t in d.pending ==> t !in due;
    } else {
      var g := Greatest(due);
      forall t | t in d.pending && t <= now && (forall u :: u in d.pending && u <= now ==> u <= t)
        ensures Drained(d, now).durable == d.pending[t]
      {
        assert t in due && g in due;
      }
    }
  }

  /** One turn of the draining loop: the earliest entry, if due, is recorded and removed. */
  lemma DrainOne(d: Disk, now: nat, first: nat)
    requires first in d.pending && forall t :: t in d.pending ==> first <= t
    ensures first <= now ==> Drained(Disk(d.pending - {first}, d.pending[first]), now) == Drained(d, now)
    ensures first <= now <==> Due(d, now) != {}
    ensures now < first ==> Drained(d, now) == d
  {
    if first <= now {
      var e := Disk(d.pending - {first}, d.pending[first]);
      assert first in Due(d, now);
      assert Due(e, now) == Due(d, now) - {first};
      assert e.pending - Due(e, now) == d.pending - Due(d, now);
      if Due(e, now) != {} {
        assert Greatest(Due(e, now)) in Due(d, now);
        assert Greatest(Due(d, now)) != first;
        assert Greatest(Due(e, now)) == Greatest(Due(d, now));
      } else {
        assert Due(d, now) == {first};
      }
    } else {
      assert Due(d, now) == {};
    }
  }

  lemma NothingToDrain(d: Disk, now: nat)
    requires d.pending == map[]
    ensures Drained(d, now) == d && Due(d, now) == {}
  {
  }

  /** Nothing pending lies beyond `horizon`. */
  ghost predicate DiskInv(d: Disk, next: nat, horizon: nat) {
    && 1 <= next
    && (forall t :: t in d.pending ==> t <= horizon && d.pending[t] < next)
    && (forall t, u :: t in d.pending && u in d.pending && t <= u ==> d.pending[t] <= d.pending[u])
    && (forall t: nat :: IsGreatest(t, d.pending.Keys) ==> d.pending[t] == next - 1)
    && (d.pending == map[] ==> d.durable == next - 1)
  }

  /** Writing at `i` makes `i + 1` the next slot; appending is writing at the next slot. */
  lemma WrittenKeepsInv(d: Disk, next: nat, horizon: nat, i: nat, at: nat)
    requires DiskInv(d, next, horizon) && horizon <= at
    ensures DiskInv(Written(d, i, at), i + 1, at)
  {
    WrittenPending(d, i, at);
    hide Written;
    var e := Written(d, i, at);
    forall t, u | t in e.pending && u in e.pending && t <= u ensures e.pending[t] <= e.pending[u] {
      assert u == at || t in d.pending;
    }
    forall t: nat | IsGreatest(t, e.pending.Keys) ensures t == at {
      assert at in e.pending.Keys;
    }
  }

  lemma WrittenPending(d: Disk, i: nat, at: nat)
    ensures var e := Written(d, i, at);
      && e.durable == d.durable && at in e.pending && e.pending[at] == i
      && forall t :: t in e.pending ==> t == at || (t in d.pending && e.pending[t] == d.pending[t] <= i)
  {
  }

  lemma AppendingIsWriting(d: Disk, next: nat, horizon: nat, at: nat)
    requires DiskInv(d, next, horizon)
    ensures Written(d, next, at) == d.(pending := d.pending[at := next])
  {
  }

  lemma DrainedKeepsInv(d: Disk, next: nat, horizon: nat, now: nat, later: nat)
    requires DiskInv(d, next, horizon) && horizon <= later
    ensures DiskInv(Drained(d, now), next, later)
  {
    var due := Due(d, now);
    var e := Drained(d, now);
    if due != {} && e.pending == map[] {
      forall t | t in d.pending ensures t in due {
        assert t in e.pending || t in due;
      }
      assert IsGreatest(Greatest(due), d.pending.Keys);
    }
    forall t: nat | IsGreatest(t, e.pending.Keys) ensures e.pending[t] == next - 1 {
      forall u | u in d.pending ensures u <= t {
        assert u in due || u in e.pending;
      }
      assert IsGreatest(t, d.pending.Keys);
    }
  }

  lemma FlushedKeepsInv(d: Disk, l: Log, horizon: nat)
    requires DiskInv(d, NextSlot(l), horizon)
    ensures DiskInv(Flushed(d, l), NextSlot(l), horizon)
  {
  }

  /** Compaction keeps the books exactly when it stays below the next slot. */
  lemma CompactionKeepsInvIff(d: Disk, l: Log, horizon: nat, last: nat)
    requires DiskInv(d, NextSlot(l), horizon)
    ensures DiskInv(d, NextSlot(Compacted(l, last)), horizon) <==> last < NextSlot(l)
    ensures last < NextSlot(l) ==> NextSlot(Compacted(l, last)) == NextSlot(l)
  {
    if last >= NextSlot(l) && d.pending != map[] {
      assert d.pending.Keys != {};
      assert IsGreatest(Greatest(d.pending.Keys), d.pending.Keys);
    }
  }

  // ----- every run -----

  datatype Store = Store(log: Log, disk: Disk, clock: nat)

  datatype Event =
    | Append(e: Entry, now: nat)
    | WriteAt(i: nat, e: Entry, now: nat)
    | Compact(last: nat)
    | Drain(now: nat)
    | Flush

  /** The store with a fixed positive delay, clocks that do not run backwards, and indices in range. */
  ghost predicate Possible(s: Store, event: Event) {
    match event
    case Append(_, now) => s.clock <= now
    case WriteAt(i, _, now) => s.clock <= now && s.log.start <= i <= NextSlot(s.log)
    case Compact(last) => last < NextSlot(s.log)
    case Drain(now) => s.clock <= now
    case Flush => true
  }

  ghost function Next(s: Store, event: Event, delay: nat): Store
    requires Possible(s, event)
  {
    match event
    case Append(e, now) => Store(Appended(s.log, e), Written(s.disk, NextSlot(s.log), now + delay), now)
    case WriteAt(i, e, now) => Store(WrittenAt(s.log, i, e), Written(s.disk, i, now + delay), now)
    case Compact(last) => s.(log := Compacted(s.log, last))
    case Drain(now) => Store(s.log, Drained(s.disk, now), now)
    case Flush => s.(disk := Flushed(s.disk, s.log))
  }

  ghost predicate IsRun(states: seq<Store>, events: seq<Event>, delay: nat) {
    && |states| == |events| + 1
    && states[0] == Store(Log(1, []), Disk(map[], 0), states[0].clock)
    && forall k :: 0 <= k < |events| ==> Possible(states[k], events[k]) && states[k + 1] == Next(states[k], events[k], delay)
  }

  lemma {:induction false} RunKeepsDiskInv(states: seq<Store>, events: seq<Event>, delay: nat, k: nat)
    requires IsRun(states, events, delay) && k <= |events|
    ensures DiskInv(states[k].disk, NextSlot(states[k].log), states[k].clock + delay)
    decreases k
  {
    hide DiskInv;
    if k == 0 {
      NothingWritten(states[0].clock + delay);
    } else {
      RunKeepsDiskInv(states, events, delay, k - 1);
      var s, event := states[k - 1], events[k - 1];
      match event
      case Append(e, now) => WrittenKeepsInv(s.disk, NextSlot(s.log), s.clock + delay, NextSlot(s.log), now + delay);
      case WriteAt(i, e, now) => WrittenKeepsInv(s.disk, NextSlot(s.log), s.clock + delay, i, now + delay);
      case Compact(last) => CompactionKeepsInvIff(s.disk, s.log, s.clock + delay, last);
      case Drain(now) => DrainedKeepsInv(s.disk, NextSlot(s.log), s.clock + delay, now, now + delay);
      case Flush => FlushedKeepsInv(s.disk, s.log, s.clock + delay);
    }
  }

  lemma NothingWritten(horizon: nat)
    ensures DiskInv(Disk(map[], 0), 1, horizon)
  {
  }

  /**
    On every run the pending indices are nondecreasing in time and below the next slot, and whenever
    nothing is pending, the durable index is the last one of the log.
  */
  lemma DurabilityOnEveryRun(states: seq<Store>, events: seq<Event>, delay: nat, k: nat)
    requires IsRun(states, events, delay) && k <= |events|
    ensures var d, next := states[k].disk, NextSlot(states[k].log);
      && (forall t, u :: t in d.pending && u in d.pending && t <= u ==> d.pending[t] <= d.pending[u] < next)
      && (d.pending == map[] ==> d.durable == next - 1)
  {
    RunKeepsDiskInv(states, events, delay, k);
  }
}
