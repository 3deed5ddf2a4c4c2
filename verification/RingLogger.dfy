/** The logger's ring of slots, with `put` and `flushAll` taken atomically: a queue in front of a file. */
module RingLogger {
  import opened Messages

  /** Between atomic operations a slot is clean or dirty; `msg` is the first `len` bytes of its buffer. */
  datatype Slot = Slot(dirty: bool, msg: Message)

  /** The dirty records of some slots, in their order. */
  function Dirty(slots: seq<Slot>): seq<Message> {
    if slots == [] then []
    else if slots[0].dirty then [slots[0].msg] + Dirty(slots[1..])
    else Dirty(slots[1..])
  }

  lemma {:induction false} DirtyConcat(a: seq<Slot>, b: seq<Slot>)
    ensures Dirty(a + b) == Dirty(a) + Dirty(b)
    decreases |a|
  {
    if a == [] {
      assert a + b == b;
    } else {
      DirtyConcat(a[1..], b);
      assert (a + b)[1..] == a[1..] + b;
    }
  }

  lemma DirtySnoc(slots: seq<Slot>, from: nat, i: nat)
    requires from <= i < |slots|
    ensures Dirty(slots[from..i + 1]) == Dirty(slots[from..i]) + if slots[i].dirty then [slots[i].msg] else []
  {
    DirtyConcat(slots[from..i], [slots[i]]);
    assert slots[from..i + 1] == slots[from..i] + [slots[i]];
  }

  lemma {:induction false} AllClean(slots: seq<Slot>)
    requires forall k :: 0 <= k < |slots| ==> !slots[k].dirty
    ensures Dirty(slots) == []
    decreases |slots|
  {
    if slots != [] { AllClean(slots[1..]); }
  }

  /** The ring as it is read circularly from `start`. */
  function Rotated(slots: seq<Slot>, start: nat): seq<Slot>
    requires start <= |slots|
  {
    slots[start..] + slots[..start]
  }

  /** Read from the cursor on, the clean slots come first. */
  ghost predicate CleanFirst(ring: seq<Slot>) {
    forall j, k :: 0 <= j < k < |ring| && ring[j].dirty ==> ring[k].dirty
  }

  /** Moving the cursor over slot `c` and filling it puts its message at the end of the ring. */
  lemma AdvancedRing(slots: seq<Slot>, c: nat, slot: Slot)
    requires c < |slots|
    ensures (c + 1) % |slots| <= |slots|
    ensures Rotated(slots[c := slot], (c + 1) % |slots|) == Rotated(slots, c)[1..] + [slot]
  {
    NextPosition(c, |slots|);
    RotateByOne(slots, c, slot);
  }

  lemma NextPosition(c: nat, n: nat)
    requires c < n
    ensures (c + 1) % n == if c + 1 == n then 0 else c + 1
  {
  }

  lemma RotateByOne(slots: seq<Slot>, c: nat, slot: Slot)
    requires c < |slots|
    ensures Rotated(slots[c := slot], if c + 1 == |slots| then 0 else c + 1) == Rotated(slots, c)[1..] + [slot]
  {
    var next := slots[c := slot];
    assert next[c + 1..] == slots[c + 1..] && next[..c + 1] == slots[..c] + [slot];
    assert Rotated(slots, c)[1..] == slots[c + 1..] + slots[..c];
    if c + 1 == |slots| { assert next[..c + 1] == next && slots[c + 1..] == []; }
  }

  /** Filling the clean slot at the cursor and moving on puts the message at the end of the queue. */
  lemma FilledRing(slots: seq<Slot>, c: nat, msg: Message, file: seq<Message>, put: seq<Message>)
    requires c < |slots| && !slots[c].dirty
    requires CleanFirst(Rotated(slots, c)) && file + Dirty(Rotated(slots, c)) == put
    ensures var next, at := slots[c := Slot(true, msg)], (c + 1) % |slots|;
      at < |slots| && CleanFirst(Rotated(next, at)) && file + Dirty(Rotated(next, at)) == put + [msg]
  {
    var ring := Rotated(slots, c);
    AdvancedRing(slots, c, Slot(true, msg));
    hide Rotated;
    DirtyConcat(ring[1..], [Slot(true, msg)]);
    assert Dirty(ring) == Dirty(ring[1..]);
  }

  class Logger {
    const logs: array<Slot>
    var cursor: nat
    var file: seq<Message>
    ghost var put: seq<Message>       // every message put so far, cut to the size of a slot

    ghost predicate Valid()
      reads this, logs
    {
      && cursor < logs.Length
      && CleanFirst(Rotated(logs[..], cursor))
      && file + Dirty(Rotated(logs[..], cursor)) == put
    }

    constructor (maxLogElems: nat)
      requires 0 < maxLogElems
      ensures Valid() && logs.Length == maxLogElems && put == [] && fresh(logs)
    {
      logs := new Slot[maxLogElems](_ => Slot(false, ""));
      cursor, file, put := 0, [], [];
      new;
      AllClean(Rotated(logs[..], 0));
    }

    /** Flushes the dirty slots from `startPos` to the end, then those before it. */
    method Flush(startPos: nat)
      requires startPos <= logs.Length
      modifies this`file, logs
      ensures file == old(file) + Dirty(Rotated(old(logs[..]), startPos))
      ensures forall k :: 0 <= k < logs.Length ==> !logs[k].dirty
    {
      ghost var slots := logs[..];
      assert logs[startPos..logs.Length] == slots[startPos..];
      FlushRange(startPos, logs.Length);
      assert logs[0..startPos] == slots[..startPos];
      FlushRange(0, startPos);
      DirtyConcat(slots[startPos..], slots[..startPos]);
    }

    method FlushRange(from: nat, to: nat)
      requires from <= to <= logs.Length
      modifies this`file, logs
      ensures file == old(file) + Dirty(old(logs[from..to]))
      ensures forall k :: 0 <= k < logs.Length ==>
                if from <= k < to then !logs[k].dirty else logs[k] == old(logs[k])
    {
      ghost var slots := logs[..];
      assert slots[from..from] == [];
      for ii := from to to
        invariant file == old(file) + Dirty(slots[from..ii])
        invariant forall k :: 0 <= k < logs.Length ==>
                    if from <= k < ii then !logs[k].dirty else logs[k] == slots[k]
      {
        DirtySnoc(slots, from, ii);
        if logs[ii].dirty {
          file, logs[ii] := file + [logs[ii].msg], logs[ii].(dirty := false);
        }
      }
      assert slots[from..to] == old(logs[from..to]);
    }

    /** Claims the slot at the cursor, flushes the whole ring if it is still dirty, and fills it. */
    method Put(msg: Message)
      requires Valid()
      modifies this, logs
      ensures Valid() && put == old(put) + [Cut(msg)]
      ensures cursor == (old(cursor) + 1) % logs.Length && logs[old(cursor)] == Slot(true, Cut(msg))
      ensures file == if old(logs[cursor].dirty) then old(put) else old(file)
    {
      var exp := cursor;
      cursor := (exp + 1) % logs.Length;
      FlushIfDirty(exp);
      ghost var before := logs[..];
      logs[exp] := Slot(true, Cut(msg));
      put := put + [Cut(msg)];
      assert logs[..] == before[exp := Slot(true, Cut(msg))];
      FilledRing(before, exp, Cut(msg), file, old(put));
    }

    method FlushIfDirty(exp: nat)
      requires exp < logs.Length && CleanFirst(Rotated(logs[..], exp)) && file + Dirty(Rotated(logs[..], exp)) == put
      modifies this`file, logs
      ensures CleanFirst(Rotated(logs[..], exp)) && file + Dirty(Rotated(logs[..], exp)) == put && !logs[exp].dirty
      ensures file == if old(logs[exp].dirty) then put else old(file)
    {
      if logs[exp].dirty {
        Flush(exp);
        AllClean(Rotated(logs[..], exp));
      }
    }

    /** Everything put so far reaches the file, in order. */
    method FlushAll()
      requires Valid()
      modifies this`file, logs
      ensures Valid() && file == put
      ensures forall k :: 0 <= k < logs.Length ==> !logs[k].dirty
    {
      Flush(cursor);
      AllClean(Rotated(logs[..], cursor));
    }
  }
}
