/**
  The slots of the logger's ring under any interleaving of threads that write messages into slots and
  threads that flush them: every step is one atomic access of the source, a failed exchange changes
  nothing. Nothing is assumed about which thread tries which slot when.
*/
module SlotProtocol {
  import opened Messages

  type Thread = nat

  datatype Status = Clean | Writing | Dirty | Flushing

  /** `emitted` is set from the moment a flush has handed the record to the file. */
  datatype Slot = Slot(status: Status, ctx: seq<char>, len: nat, emitted: bool)

  datatype Pc =
    | Idle
    | Claimed(i: nat, msg: Message)            // the exchange CLEAN -> WRITING succeeded
    | Copying(i: nat, msg: Message, k: nat)    // the length is set, `k` characters are copied
    | Draining(i: nat)                         // the exchange DIRTY -> FLUSHING succeeded
    | Drained(i: nat)                          // the record is in the file

  /** `written` collects what the successful writes were asked to store. */
  datatype State = State(slots: seq<Slot>, pcs: map<Thread, Pc>, file: seq<Message>, written: multiset<Message>)

  datatype Step = ClaimForWrite(i: nat, msg: Message) | SetLength | CopyOne | Publish | ClaimForFlush(i: nat) | Emit | Release

  function PcOf(s: State, t: Thread): Pc { if t in s.pcs then s.pcs[t] else Idle }

  function Moved(s: State, t: Thread, pc: Pc): State { s.(pcs := s.pcs[t := pc]) }

  function WithSlot(s: State, i: nat, slot: Slot): State
    requires i < |s.slots|
  {
    s.(slots := s.slots[i := slot])
  }

  /** One step of thread `t`; a step that its program counter does not allow changes nothing. */
  function Next(s: State, t: Thread, step: Step): State {
    match (PcOf(s, t), step)
    case (Idle, ClaimForWrite(i, msg)) =>
      if i < |s.slots| && s.slots[i].status == Clean then
        Moved(WithSlot(s, i, s.slots[i].(status := Writing)), t, Claimed(i, msg))
      else s
    case (Claimed(i, msg), SetLength) =>
      if i < |s.slots| then Moved(WithSlot(s, i, s.slots[i].(len := |Cut(msg)|)), t, Copying(i, msg, 0)) else s
    case (Copying(i, msg, k), CopyOne) =>
      if i < |s.slots| && k < s.slots[i].len && k < |s.slots[i].ctx| && k < |msg| then
        Moved(WithSlot(s, i, s.slots[i].(ctx := s.slots[i].ctx[k := msg[k]])), t, Copying(i, msg, k + 1))
      else s
    case (Copying(i, msg, k), Publish) =>
      if i < |s.slots| && k == s.slots[i].len then
        Moved(WithSlot(s, i, s.slots[i].(status := Dirty)), t, Idle).(written := s.written + multiset{Cut(msg)})
      else s
    case (Idle, ClaimForFlush(i)) =>
      if i < |s.slots| && s.slots[i].status == Dirty then
        Moved(WithSlot(s, i, s.slots[i].(status := Flushing, emitted := false)), t, Draining(i))
      else s
    case (Draining(i), Emit) =>
      if i < |s.slots| then
        Moved(WithSlot(s, i, s.slots[i].(emitted := true)), t, Drained(i)).(file := s.file + [Content(s.slots[i])])
      else s
    case (Drained(i), Release) =>
      if i < |s.slots| then Moved(WithSlot(s, i, s.slots[i].(status := Clean)), t, Idle) else s
    case _ => s
  }

  function Content(slot: Slot): Message {
    if slot.len <= |slot.ctx| then slot.ctx[..slot.len] else slot.ctx
  }

  // ----- what every step keeps -----

  predicate Busy(pc: Pc) { !pc.Idle? }

  /** What a busy thread knows about its slot. */
  ghost predicate Agrees(pc: Pc, slots: seq<Slot>) {
    Busy(pc) ==>
      && pc.i < |slots|
      && var slot := slots[pc.i];
      match pc
      case Claimed(_, _) => slot.status == Writing
      case Copying(_, msg, k) =>
        slot.status == Writing && |slot.ctx| == MSG_SIZE && slot.len == |Cut(msg)| && k <= slot.len && slot.ctx[..k] == Cut(msg)[..k]
      case Draining(_) => slot.status == Flushing && !slot.emitted
      case Drained(_) => slot.status == Flushing && slot.emitted
  }

  /** The record of this slot is complete and not in the file yet. */
  predicate Counts(slot: Slot) {
    slot.status == Dirty || (slot.status == Flushing && !slot.emitted)
  }

  function Share(slot: Slot): multiset<Message> {
    if Counts(slot) then multiset{Content(slot)} else multiset{}
  }

  function Waiting(slots: seq<Slot>): multiset<Message> {
    if slots == [] then multiset{} else Waiting(slots[..|slots| - 1]) + Share(slots[|slots| - 1])
  }

  lemma AddToBoth<T>(a: multiset<T>, x: multiset<T>, b: multiset<T>, y: multiset<T>, z: multiset<T>)
    requires a + x == b + y
    ensures (a + z) + x == (b + z) + y
  {
    assert (a + z) + x == (a + x) + z;
    assert (b + z) + y == (b + y) + z;
  }

  /** Cancelling two equations between sums against a third. */
  lemma Cancel<T(!new)>(f: multiset<T>, w: multiset<T>, r: multiset<T>, f': multiset<T>, w': multiset<T>, r': multiset<T>,
                  x: multiset<T>, x': multiset<T>)
    requires f + w == r && w' + x == w + x' && f' + x' + r == f + x + r'
    ensures f' + w' == r'
  {
    forall m: T ensures (f' + w')[m] == r'[m] {
      assert (f + w)[m] == r[m] && (w' + x)[m] == (w + x')[m] && (f' + x' + r)[m] == (f + x + r')[m];
    }
  }

  lemma {:induction false} WaitingUpdate(slots: seq<Slot>, i: nat, slot: Slot)
    requires i < |slots|
    ensures Waiting(slots[i := slot]) + Share(slots[i]) == Waiting(slots) + Share(slot)
    decreases |slots|
  {
    hide Share;
    var n := |slots| - 1;
    var updated := slots[i := slot];
    if i == n {
      assert updated[..n] == slots[..n];
    } else {
      WaitingUpdate(slots[..n], i, slot);
      assert updated[..n] == slots[..n][i := slot] && updated[n] == slots[n];
      AddToBoth(Waiting(updated[..n]), Share(slots[i]), Waiting(slots[..n]), Share(slot), Share(slots[n]));
    }
  }

  ghost predicate Exclusive(s: State) {
    && (forall i :: 0 <= i < |s.slots| ==> |s.slots[i].ctx| == MSG_SIZE && s.slots[i].len <= MSG_SIZE)
    && (forall t :: t in s.pcs ==> Agrees(s.pcs[t], s.slots))
    && (forall t, u :: t in s.pcs && u in s.pcs && t != u && Busy(s.pcs[t]) && Busy(s.pcs[u]) ==> s.pcs[t].i != s.pcs[u].i)
    && (forall i :: 0 <= i < |s.slots| && InUse(s.slots[i]) ==> Occupied(s, i))
  }

  /** Successful writes are exactly the records in the file and the complete ones still in slots. */
  ghost predicate Accounted(s: State) {
    multiset(s.file) + Waiting(s.slots) == s.written
  }

  ghost predicate Inv(s: State) {
    Exclusive(s) && Accounted(s)
  }

  predicate InUse(slot: Slot) {
    slot.status == Writing || slot.status == Flushing
  }

  /** Some thread is at work on slot `i`. */
  ghost predicate Occupied(s: State, i: nat) {
    exists t :: t in s.pcs && Busy(s.pcs[t]) && s.pcs[t].i == i
  }

  function Start(n: nat): State {
    State(seq(n, _ => Slot(Clean, seq(MSG_SIZE, _ => '\0'), 0, false)), map[], [], multiset{})
  }

  lemma {:induction false} NothingWaits(slots: seq<Slot>)
    requires forall i :: 0 <= i < |slots| ==> !Counts(slots[i])
    ensures Waiting(slots) == multiset{}
    decreases |slots|
  {
    if slots != [] { NothingWaits(slots[..|slots| - 1]); }
  }

  lemma StartInv(n: nat)
    ensures Inv(Start(n))
  {
    NothingWaits(Start(n).slots);
  }

  /** The slot that a step of `t` works on, if it changes anything. */
  function Target(s: State, t: Thread, step: Step): nat {
    match step
    case ClaimForWrite(i, _) => i
    case ClaimForFlush(i) => i
    case _ => if Busy(PcOf(s, t)) then PcOf(s, t).i else 0
  }

  /** Only slot `i` and the program counter of `t` differ, and `t` was and is the one at work on `i`. */
  ghost predicate LocalChange(s: State, s': State, t: Thread, i: nat) {
    && i < |s.slots| && i < |s'.slots| && s'.slots == s.slots[i := s'.slots[i]]
    && t in s'.pcs && s'.pcs == s.pcs[t := s'.pcs[t]]
    && Agrees(s'.pcs[t], s'.slots)
    && (Busy(s'.pcs[t]) ==> s'.pcs[t].i == i)
    && (InUse(s'.slots[i]) ==> Busy(s'.pcs[t]))
    && |s'.slots[i].ctx| == MSG_SIZE && s'.slots[i].len <= MSG_SIZE
    && (if Busy(PcOf(s, t)) then PcOf(s, t).i == i else !InUse(s.slots[i]))
  }

  lemma CopyOneMore(ctx: seq<char>, msg: Message, k: nat)
    requires |ctx| == MSG_SIZE && k < |Cut(msg)| && ctx[..k] == Cut(msg)[..k]
    ensures k < |msg| && ctx[k := msg[k]][..k + 1] == Cut(msg)[..k + 1]
  {
    assert ctx[k := msg[k]][..k] == ctx[..k];
    assert msg[k] == Cut(msg)[k];
  }

  lemma StepIsLocal(s: State, t: Thread, step: Step)
    requires Exclusive(s)
    ensures Next(s, t, step) == s || LocalChange(s, Next(s, t, step), t, Target(s, t, step))
  {
    var pc := PcOf(s, t);
    if t in s.pcs { assert Agrees(s.pcs[t], s.slots); }
    if pc.Copying? && step.CopyOne? && pc.k < s.slots[pc.i].len {
      CopyOneMore(s.slots[pc.i].ctx, pc.msg, pc.k);
    }
  }

  lemma LocalChangeKeepsExclusive(s: State, s': State, t: Thread, i: nat)
    requires Exclusive(s) && LocalChange(s, s', t, i)
    ensures Exclusive(s')
  {
    forall u | u in s.pcs && u != t && Busy(s.pcs[u]) ensures s.pcs[u].i != i {
      assert Agrees(s.pcs[u], s.slots);
    }
    forall u | u in s'.pcs ensures Agrees(s'.pcs[u], s'.slots) {
      if u != t { assert Agrees(s.pcs[u], s.slots); }
    }
    forall j | 0 <= j < |s'.slots| && InUse(s'.slots[j]) ensures Occupied(s', j) {
      if j == i {
        assert Busy(s'.pcs[t]) && s'.pcs[t].i == j;
      } else {
        assert InUse(s.slots[j]) && Occupied(s, j);
        var u :| u in s.pcs && Busy(s.pcs[u]) && s.pcs[u].i == j;
        assert u != t;
        assert Busy(s'.pcs[u]) && s'.pcs[u].i == j;
      }
    }
  }

  ghost predicate MovesNothing(s: State, s': State, i: nat)
    requires i < |s.slots| && i < |s'.slots|
  {
    s'.file == s.file && s'.written == s.written && Share(s'.slots[i]) == Share(s.slots[i])
  }

  ghost predicate Completes(s: State, s': State, i: nat)
    requires i < |s.slots| && i < |s'.slots|
  {
    var m := multiset{Content(s'.slots[i])};
    s'.file == s.file && s'.written == s.written + m && Share(s.slots[i]) == multiset{} && Share(s'.slots[i]) == m
  }

  ghost predicate HandsOver(s: State, s': State, i: nat)
    requires i < |s.slots| && i < |s'.slots|
  {
    var m := Content(s'.slots[i]);
    s'.file == s.file + [m] && s'.written == s.written && Share(s.slots[i]) == multiset{m} && Share(s'.slots[i]) == multiset{}
  }

  /** A step moves no record, or completes one, or hands a complete one to the file. */
  lemma AccountedStep(s: State, t: Thread, step: Step)
    requires Exclusive(s) && Next(s, t, step) != s && Target(s, t, step) < |s.slots| <= |Next(s, t, step).slots|
    ensures var s', i := Next(s, t, step), Target(s, t, step);
      MovesNothing(s, s', i) || Completes(s, s', i) || HandsOver(s, s', i)
  {
    assert Agrees(PcOf(s, t), s.slots);
    hide Exclusive;
    match step
    case Publish => PublishCompletes(s, t);
    case Emit => EmitHandsOver(s, t);
    case _ => OthersMoveNothing(s, t, step);
  }

  lemma PublishCompletes(s: State, t: Thread)
    requires Agrees(PcOf(s, t), s.slots) && Next(s, t, Publish) != s
    ensures var s', i := Next(s, t, Publish), Target(s, t, Publish); i < |s.slots| && i < |s'.slots| && Completes(s, s', i)
  {
    var pc := PcOf(s, t);
    assert Content(s.slots[pc.i].(status := Dirty)) == Cut(pc.msg);
  }

  lemma EmitHandsOver(s: State, t: Thread)
    requires Agrees(PcOf(s, t), s.slots) && Next(s, t, Emit) != s
    ensures var s', i := Next(s, t, Emit), Target(s, t, Emit); i < |s.slots| && i < |s'.slots| && HandsOver(s, s', i)
  {
    var pc := PcOf(s, t);
    assert Content(s.slots[pc.i].(emitted := true)) == Content(s.slots[pc.i]);
  }

  lemma OthersMoveNothing(s: State, t: Thread, step: Step)
    requires Agrees(PcOf(s, t), s.slots) && Next(s, t, step) != s && !step.Publish? && !step.Emit?
    requires Target(s, t, step) < |s.slots| <= |Next(s, t, step).slots|
    ensures MovesNothing(s, Next(s, t, step), Target(s, t, step))
  {
  }

  lemma StepKeepsAccounted(s: State, t: Thread, step: Step)
    requires Inv(s)
    ensures Accounted(Next(s, t, step))
  {
    hide Next; hide Share; hide Exclusive;
    var s', i := Next(s, t, step), Target(s, t, step);
    StepIsLocal(s, t, step);
    if s' != s {
      WaitingUpdate(s.slots, i, s'.slots[i]);
      AccountedStep(s, t, step);
      var m := Content(s'.slots[i]);
      assert multiset(s.file + [m]) == multiset(s.file) + multiset{m};
      Cancel(multiset(s.file), Waiting(s.slots), s.written, multiset(s'.file), Waiting(s'.slots), s'.written,
             Share(s.slots[i]), Share(s'.slots[i]));
    }
  }

  lemma StepKeepsInv(s: State, t: Thread, step: Step)
    requires Inv(s)
    ensures Inv(Next(s, t, step))
  {
    hide Next; hide Accounted; hide Exclusive;
    StepKeepsAccounted(s, t, step);
    StepIsLocal(s, t, step);
    if Next(s, t, step) != s { LocalChangeKeepsExclusive(s, Next(s, t, step), t, Target(s, t, step)); }
  }

  // ----- every interleaving -----

  datatype Event = Event(t: Thread, step: Step)

  function Run(s: State, events: seq<Event>): State {
    if events == [] then s
    else
      var before := Run(s, events[..|events| - 1]);
      Next(before, events[|events| - 1].t, events[|events| - 1].step)
  }

  lemma {:induction false} RunKeepsInv(n: nat, events: seq<Event>)
    ensures Inv(Run(Start(n), events))
  {
    if events == [] {
      StartInv(n);
    } else {
      var front, last := events[..|events| - 1], events[|events| - 1];
      RunKeepsInv(n, front);
      StepKeepsInv(Run(Start(n), front), last.t, last.step);
    }
  }

  /** On every interleaving: one thread at most works on a slot, and no complete record is lost or made up. */
  lemma SlotsAreExclusiveAndAccounted(n: nat, events: seq<Event>, t: Thread, u: Thread)
    ensures var s := Run(Start(n), events);
      && (t != u && Busy(PcOf(s, t)) && Busy(PcOf(s, u)) ==> PcOf(s, t).i != PcOf(s, u).i)
      && multiset(s.file) + Waiting(s.slots) == s.written
  {
    RunKeepsInv(n, events);
  }

  /** Every record in the file is one complete message that some write was given. */
  lemma FlushedRecordsAreComplete(n: nat, events: seq<Event>, k: nat)
    requires k < |Run(Start(n), events).file|
    ensures Run(Start(n), events).file[k] in Run(Start(n), events).written
  {
    RunKeepsInv(n, events);
    var s := Run(Start(n), events);
    assert s.file[k] in multiset(s.file);
  }

  /** A dirty record stays as it is until a flush claims it, and from then until it is in the file. */
  lemma DirtyIsNeverOverwritten(n: nat, events: seq<Event>, t: Thread, step: Step, i: nat)
    requires i < |Run(Start(n), events).slots| && Counts(Run(Start(n), events).slots[i])
    ensures var s := Run(Start(n), events); var s' := Next(s, t, step);
      && i < |s'.slots|
      && Content(s'.slots[i]) == Content(s.slots[i])
      && (Counts(s'.slots[i]) || s'.file == s.file + [Content(s.slots[i])])
  {
    RunKeepsInv(n, events);
    CountedSlotIsKept(Run(Start(n), events), t, step, i);
  }

  lemma CountedSlotIsKept(s: State, t: Thread, step: Step, i: nat)
    requires Exclusive(s) && i < |s.slots| && Counts(s.slots[i])
    ensures var s' := Next(s, t, step);
      && i < |s'.slots|
      && Content(s'.slots[i]) == Content(s.slots[i])
      && (Counts(s'.slots[i]) || s'.file == s.file + [Content(s.slots[i])])
  {
    if t in s.pcs { assert Agrees(s.pcs[t], s.slots); }
    hide Exclusive;
  }

  ghost predicate Quiescent(s: State) {
    forall t :: t in s.pcs ==> s.pcs[t].Idle?
  }

  /** When every thread is idle, no slot is in use. */
  lemma QuiescentSlots(s: State, i: nat)
    requires Inv(s) && i < |s.slots| && Quiescent(s)
    ensures !InUse(s.slots[i])
  {
    assert InUse(s.slots[i]) ==> Occupied(s, i);
  }
}
