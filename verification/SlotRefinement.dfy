/**
  The slots of `RingLogger`, where a write and a flush are single updates, are those of `SlotProtocol`
  when a thread carries its write or its flush through without interruption.
*/
module SlotRefinement {
  import opened Messages
  import opened SlotProtocol
  import RingLogger

  function Settled(slot: Slot): RingLogger.Slot {
    RingLogger.Slot(slot.status == Dirty, Content(slot))
  }

  /** Steps of one thread, nobody else in between. */
  function Steps(s: State, t: Thread, steps: seq<Step>): State
    decreases |steps|
  {
    if steps == [] then s else Steps(Next(s, t, steps[0]), t, steps[1..])
  }

  function Copies(n: nat): seq<Step> {
    seq(n, _ => CopyOne)
  }

  lemma {:induction false} StepsConcat(s: State, t: Thread, a: seq<Step>, b: seq<Step>)
    ensures Steps(s, t, a + b) == Steps(Steps(s, t, a), t, b)
    decreases |a|
  {
    hide Next;
    if a == [] {
      assert a + b == b;
    } else {
      var next, rest := Next(s, t, a[0]), a[1..];
      assert (a + b)[0] == a[0] && (a + b)[1..] == rest + b;
      StepsConcat(next, t, rest, b);
    }
  }

  lemma {:induction false} CopiesTheRest(s: State, t: Thread, i: nat, msg: Message, k: nat)
    requires i < |s.slots| && PcOf(s, t) == Copying(i, msg, k)
    requires |s.slots[i].ctx| == MSG_SIZE && s.slots[i].len == |Cut(msg)| && k <= |Cut(msg)| && s.slots[i].ctx[..k] == Cut(msg)[..k]
    ensures var after := Steps(s, t, Copies(|Cut(msg)| - k));
      && |after.slots| == |s.slots| && after.slots == s.slots[i := after.slots[i]]
      && after.slots[i] == s.slots[i].(ctx := after.slots[i].ctx)
      && |after.slots[i].ctx| == MSG_SIZE && after.slots[i].ctx[..|Cut(msg)|] == Cut(msg)
      && after == Moved(s.(slots := after.slots), t, Copying(i, msg, |Cut(msg)|))
    decreases |Cut(msg)| - k
  {
    if k < |Cut(msg)| {
      CopyOneMore(s.slots[i].ctx, msg, k);
      var n := |Cut(msg)| - k;
      assert Copies(n)[0] == CopyOne && Copies(n)[1..] == Copies(n - 1);
      CopiesTheRest(Next(s, t, CopyOne), t, i, msg, k + 1);
    } else {
      assert s.slots == s.slots[i := s.slots[i]];
      assert s.pcs == s.pcs[t := Copying(i, msg, k)];
    }
  }

  lemma {:induction false} NothingToCopy(s: State, t: Thread, n: nat)
    requires PcOf(s, t).Idle?
    ensures Steps(s, t, Copies(n)) == s
  {
    if n > 0 {
      assert Copies(n)[0] == CopyOne && Copies(n)[1..] == Copies(n - 1);
      NothingToCopy(s, t, n - 1);
    }
  }

  function WriteSteps(i: nat, msg: Message): seq<Step> {
    [ClaimForWrite(i, msg), SetLength] + Copies(|Cut(msg)|) + [Publish]
  }

  function FlushSteps(i: nat): seq<Step> {
    [ClaimForFlush(i), Emit, Release]
  }

  /** All slots but `i` are as they were. */
  predicate OnlySlot(s: State, after: State, i: nat) {
    |after.slots| == |s.slots| && forall j :: 0 <= j < |s.slots| && j != i ==> after.slots[j] == s.slots[j]
  }

  lemma WriteInTurn(s: State, t: Thread, i: nat, msg: Message)
    ensures var claimed := Next(Next(s, t, ClaimForWrite(i, msg)), t, SetLength);
      Steps(s, t, WriteSteps(i, msg)) == Next(Steps(claimed, t, Copies(|Cut(msg)|)), t, Publish)
  {
    hide Next;
    var claim, copies := [ClaimForWrite(i, msg), SetLength], Copies(|Cut(msg)|);
    assert claim[1..] == [SetLength] && claim[1..][1..] == [];
    StepsConcat(s, t, claim, copies);
    StepsConcat(s, t, claim + copies, [Publish]);
    assert [Publish][1..] == [];
  }

  lemma ClaimInTurn(s: State, t: Thread, i: nat, msg: Message)
    requires i < |s.slots| && PcOf(s, t).Idle? && s.slots[i].status == Clean
    ensures Next(Next(s, t, ClaimForWrite(i, msg)), t, SetLength) ==
            Moved(WithSlot(s, i, s.slots[i].(status := Writing, len := |Cut(msg)|)), t, Copying(i, msg, 0))
  {
  }

  lemma PublishInTurn(s: State, t: Thread, i: nat, msg: Message)
    requires i < |s.slots| && PcOf(s, t) == Copying(i, msg, |Cut(msg)|) && |s.slots[i].ctx| == MSG_SIZE
    requires s.slots[i].len == |Cut(msg)| && s.slots[i].ctx[..|Cut(msg)|] == Cut(msg)
    ensures Next(s, t, Publish) ==
            Moved(WithSlot(s, i, s.slots[i].(status := Dirty)), t, Idle).(written := s.written + multiset{Cut(msg)})
    ensures Settled(s.slots[i].(status := Dirty)) == RingLogger.Slot(true, Cut(msg))
  {
  }

  /** A write to a clean slot fills it with the message. */
  lemma UninterruptedWrite(s: State, t: Thread, i: nat, msg: Message)
    requires i < |s.slots| && PcOf(s, t).Idle? && s.slots[i].status == Clean && |s.slots[i].ctx| == MSG_SIZE
    ensures var after := Steps(s, t, WriteSteps(i, msg));
      && OnlySlot(s, after, i) && Settled(after.slots[i]) == RingLogger.Slot(true, Cut(msg))
      && after.file == s.file && after.written == s.written + multiset{Cut(msg)} && PcOf(after, t).Idle?
  {
    hide Next; hide Steps; hide Cut; hide Settled;
    WriteInTurn(s, t, i, msg);
    ClaimInTurn(s, t, i, msg);
    var claimed := Next(Next(s, t, ClaimForWrite(i, msg)), t, SetLength);
    CopiesTheRest(claimed, t, i, msg, 0);
    PublishInTurn(Steps(claimed, t, Copies(|Cut(msg)|)), t, i, msg);
  }

  /** A write to a slot that is still dirty is lost. */
  lemma WriteToDirtySlotIsLost(s: State, t: Thread, i: nat, msg: Message)
    requires i < |s.slots| && PcOf(s, t).Idle? && s.slots[i].status == Dirty
    ensures Steps(s, t, WriteSteps(i, msg)) == s
  {
    WriteInTurn(s, t, i, msg);
    NothingToCopy(s, t, |Cut(msg)|);
  }

  /** A flush of a dirty slot hands its message to the file and cleans it; any other slot it leaves alone. */
  lemma UninterruptedFlush(s: State, t: Thread, i: nat)
    requires i < |s.slots| && PcOf(s, t).Idle? && !InUse(s.slots[i])
    ensures var after := Steps(s, t, FlushSteps(i));
      if s.slots[i].status == Dirty then
        && OnlySlot(s, after, i) && Settled(after.slots[i]) == Settled(s.slots[i]).(dirty := false)
        && after.file == s.file + [Settled(s.slots[i]).msg] && after.written == s.written && PcOf(after, t).Idle?
      else after == s
  {
    FlushInTurn(s, t, i);
    hide Steps;
  }

  lemma FlushInTurn(s: State, t: Thread, i: nat)
    ensures Steps(s, t, FlushSteps(i)) == Next(Next(Next(s, t, ClaimForFlush(i)), t, Emit), t, Release)
  {
    hide Next;
    StepsConcat(s, t, [ClaimForFlush(i), Emit], [Release]);
    assert [ClaimForFlush(i), Emit] + [Release] == FlushSteps(i);
    assert [ClaimForFlush(i), Emit][1..] == [Emit] && [Emit][1..] == [] && [Release][1..] == [];
  }

  // ----- when nobody is at work -----

  function AllSettled(slots: seq<Slot>): seq<RingLogger.Slot> {
    if slots == [] then [] else AllSettled(slots[..|slots| - 1]) + [Settled(slots[|slots| - 1])]
  }

  lemma {:induction false} WaitingIsDirty(slots: seq<Slot>)
    requires forall i :: 0 <= i < |slots| ==> !InUse(slots[i])
    ensures Waiting(slots) == multiset(RingLogger.Dirty(AllSettled(slots)))
    decreases |slots|
  {
    if slots != [] {
      var front, last := slots[..|slots| - 1], slots[|slots| - 1];
      WaitingIsDirty(front);
      RingLogger.DirtyConcat(AllSettled(front), [Settled(last)]);
      assert RingLogger.Dirty([Settled(last)]) == if last.status == Dirty then [Content(last)] else [];
    }
  }

  /**
    After any interleaving, when every thread is idle again, the file and the dirty slots of the ring
    together hold exactly the messages of the successful writes.
  */
  lemma QuiescentRingHoldsTheRest(n: nat, events: seq<Event>)
    requires Quiescent(SlotProtocol.Run(Start(n), events))
    ensures var s := SlotProtocol.Run(Start(n), events);
      multiset(s.file) + multiset(RingLogger.Dirty(AllSettled(s.slots))) == s.written
  {
    RunKeepsInv(n, events);
    var s := SlotProtocol.Run(Start(n), events);
    forall i | 0 <= i < |s.slots| ensures !InUse(s.slots[i]) {
      QuiescentSlots(s, i);
    }
    WaitingIsDirty(s.slots);
  }
}
