/** The in-memory Raft log as a start index and a sequence, and the sparse map that stands for it. */
module LogSpec {
  import opened Sets

  newtype Byte = x: int | 0 <= x < 256

  datatype Entry = Entry(term: nat, data: seq<Byte>, kind: int, timestamp: nat)

  datatype Log = Log(start: nat, entries: seq<Entry>)

  function NextSlot(l: Log): nat { l.start + |l.entries| }

  predicate InRange(l: Log, i: nat) { l.start <= i < NextSlot(l) }

  function EntryAt(l: Log, i: nat, dummy: Entry): Entry {
    if InRange(l, i) then l.entries[i - l.start] else dummy
  }

  function Appended(l: Log, e: Entry): Log { l.(entries := l.entries + [e]) }

  /** Everything from `i` on is replaced by `e`. */
  function WrittenAt(l: Log, i: nat, e: Entry): Log
    requires l.start <= i <= NextSlot(l)
  {
    l.(entries := l.entries[..i - l.start] + [e])
  }

  /** Everything up to and including `last` is gone, and the log starts behind it. */
  function Compacted(l: Log, last: nat): Log {
    if last < l.start then l
    else if last + 1 < NextSlot(l) then Log(last + 1, l.entries[last + 1 - l.start..])
    else Log(last + 1, [])
  }

  // ----- the map -----

  /** The keys are 0, for the dummy, and exactly the interval of the log. */
  ghost predicate Represents(logs: map<nat, Entry>, start: nat, l: Log, dummy: Entry) {
    && 1 <= start == l.start
    && (forall i: nat :: i in logs <==> i == 0 || InRange(l, i))
    && logs[0] == dummy
    && (forall i: nat :: InRange(l, i) ==> logs[i] == l.entries[i - l.start])
  }

  /** The property behind `next_slot`: 0 is a key, and the others are the interval that their number suggests. */
  ghost predicate Contiguous(logs: map<nat, Entry>, start: nat) {
    0 in logs && forall i: nat :: i in logs <==> i == 0 || start <= i < start + |logs| - 1
  }

  lemma KeysSize(keys: set<nat>, lo: nat, hi: nat)
    requires 1 <= lo <= hi && forall i: nat :: i in keys <==> i == 0 || lo <= i < hi
    ensures |keys| == hi - lo + 1
  {
    IntervalSize(keys - {0}, lo, hi);
  }

  lemma SizeGivesNextSlot(logs: map<nat, Entry>, start: nat, l: Log, dummy: Entry)
    requires Represents(logs, start, l, dummy)
    ensures start + |logs| - 1 == NextSlot(l)
    ensures Contiguous(logs, start)
  {
    KeysSize(logs.Keys, start, NextSlot(l));
    assert |logs| == |logs.Keys|;
  }

  lemma StartsAgree(logs: map<nat, Entry>, start: nat, l: Log, dummy: Entry)
    requires Represents(logs, start, l, dummy)
    ensures start == l.start
  {
  }

  lemma AppendedMap(before: map<nat, Entry>, l: Log, dummy: Entry, e: Entry)
    requires Represents(before, l.start, l, dummy)
    ensures Represents(before[NextSlot(l) := e], l.start, Appended(l, e), dummy)
  {
  }

  /** Erasing the indices from the start to `last`, if any, compacts the log. */
  lemma CompactedMap(before: map<nat, Entry>, after: map<nat, Entry>, l: Log, dummy: Entry, last: nat)
    requires Represents(before, l.start, l, dummy)
    requires forall k :: k in after <==> k in before && !(l.start <= k <= last)
    requires forall k :: k in after ==> after[k] == before[k]
    ensures Represents(after, if l.start <= last then last + 1 else l.start, Compacted(l, last), dummy)
  {
  }

  // ----- writing out of range -----

  ghost predicate IsWrittenAt(before: map<nat, Entry>, after: map<nat, Entry>, i: nat, e: Entry) {
    && (forall k: nat :: k in after <==> k == i || (k in before && k < i))
    && (forall k: nat :: k in after && k != i ==> after[k] == before[k])
    && after[i] == e
  }

  /** In range, `write_at` is the truncation of the sequence. */
  lemma WriteInRange(before: map<nat, Entry>, after: map<nat, Entry>, l: Log, dummy: Entry, i: nat, e: Entry)
    requires Represents(before, l.start, l, dummy) && IsWrittenAt(before, after, i, e)
    requires l.start <= i <= NextSlot(l)
    ensures Represents(after, l.start, WrittenAt(l, i, e), dummy)
  {
  }

  /** A write at 0 leaves a new dummy and nothing else. */
  lemma WriteOverDummy(before: map<nat, Entry>, after: map<nat, Entry>, l: Log, dummy: Entry, e: Entry)
    requires Represents(before, l.start, l, dummy) && IsWrittenAt(before, after, 0, e)
    ensures Represents(after, l.start, Log(l.start, []), e)
  {
  }

  /** Contiguity survives a write exactly at the indices from the start to the next slot, or at the dummy. */
  lemma WriteKeepsContiguityIff(before: map<nat, Entry>, after: map<nat, Entry>, l: Log, dummy: Entry, i: nat, e: Entry)
    requires Represents(before, l.start, l, dummy) && IsWrittenAt(before, after, i, e)
    ensures Contiguous(after, l.start) <==> i == 0 || l.start <= i <= NextSlot(l)
    ensures i == 0 ==> after[0] == e
  {
    if l.start <= i <= NextSlot(l) {
      WriteInRange(before, after, l, dummy, i, e);
      SizeGivesNextSlot(after, l.start, WrittenAt(l, i, e), dummy);
    } else if i == 0 {
      assert after.Keys == {0};
      assert |after| == |after.Keys| == 1;
    } else if i < l.start {
      assert after.Keys == {0, i};
      assert i in after;
    } else {
      KeysSize(after.Keys - {i}, l.start, NextSlot(l));
      assert |after| == |after.Keys| == |after.Keys - {i}| + 1;
      assert NextSlot(l) !in after && i in after;
    }
  }

  // ----- laying a batch of entries over the log -----

  ghost predicate IsOverlaid(before: map<nat, Entry>, after: map<nat, Entry>, i: nat, es: seq<Entry>) {
    && (forall k: nat :: k in after <==> k in before || i <= k < i + |es|)
    && (forall k: nat :: k in after ==> after[k] == if i <= k < i + |es| then es[k - i] else before[k])
  }

  lemma OverlaidNothing(logs: map<nat, Entry>, i: nat)
    ensures IsOverlaid(logs, logs, i, [])
  {
  }

  lemma OverlaidOneMore(before: map<nat, Entry>, after: map<nat, Entry>, i: nat, es: seq<Entry>, e: Entry)
    requires IsOverlaid(before, after, i, es)
    ensures IsOverlaid(before, after[i + |es| := e], i, es + [e])
  {
  }

  /** The first key behind the dummy, or 1: what `apply_pack` takes for the start. */
  ghost predicate IsStartOf(start: nat, logs: map<nat, Entry>) {
    if exists k: nat :: k in logs && k > 0 then
      start > 0 && start in logs && forall k: nat :: k in logs && k > 0 ==> start <= k
    else start == 1
  }

  /** The two intervals touch, or one of them is empty. */
  predicate Adjoins(l: Log, i: nat, n: nat) {
    n == 0 || l.entries == [] || (i <= NextSlot(l) && l.start <= i + n)
  }

  function Overlaid(l: Log, i: nat, es: seq<Entry>): Log
    requires Adjoins(l, i, |es|)
  {
    if es == [] then (if l.entries == [] then Log(1, []) else l)
    else if l.entries == [] then Log(i, es)
    else
      var front := if l.start < i then l.entries[..i - l.start] else [];
      var back := if i + |es| < NextSlot(l) then l.entries[i + |es| - l.start..] else [];
      Log(if l.start < i then l.start else i, front + es + back)
  }

  lemma OverlaidEntry(l: Log, i: nat, es: seq<Entry>, k: nat)
    requires Adjoins(l, i, |es|)
    ensures InRange(Overlaid(l, i, es), k) <==> InRange(l, k) || i <= k < i + |es|
    ensures InRange(Overlaid(l, i, es), k) ==>
      Overlaid(l, i, es).entries[k - Overlaid(l, i, es).start] == if i <= k < i + |es| then es[k - i] else l.entries[k - l.start]
  {
  }

  /** Applying to an empty store gives the entries back; next to or over an old log, they are merged. */
  lemma OverlayAdjoining(before: map<nat, Entry>, after: map<nat, Entry>, start: nat, l: Log, dummy: Entry, i: nat, es: seq<Entry>)
    requires Represents(before, l.start, l, dummy) && IsOverlaid(before, after, i, es) && 1 <= i
    requires IsStartOf(start, after) && Adjoins(l, i, |es|)
    ensures Represents(after, start, Overlaid(l, i, es), dummy)
  {
    var m := Overlaid(l, i, es);
    forall k: nat ensures InRange(m, k) <==> InRange(l, k) || i <= k < i + |es| {
      OverlaidEntry(l, i, es, k);
    }
    forall k: nat | InRange(m, k) ensures after[k] == m.entries[k - m.start] {
      OverlaidEntry(l, i, es, k);
    }
    if m.entries != [] {
      assert InRange(m, m.start);
      assert m.start in after && forall k: nat :: k in after && k > 0 ==> m.start <= k;
    }
  }

  /** Contiguity survives exactly when the batch adjoins or overlaps the old log, or one of them is empty. */
  lemma OverlayKeepsContiguityIff(before: map<nat, Entry>, after: map<nat, Entry>, start: nat, l: Log, dummy: Entry, i: nat, es: seq<Entry>)
    requires Represents(before, l.start, l, dummy) && IsOverlaid(before, after, i, es) && 1 <= i
    requires IsStartOf(start, after)
    ensures Contiguous(after, start) <==> Adjoins(l, i, |es|)
  {
    if Adjoins(l, i, |es|) {
      OverlayAdjoining(before, after, start, l, dummy, i, es);
      SizeGivesNextSlot(after, start, Overlaid(l, i, es), dummy);
    } else if i > NextSlot(l) {
      assert l.start in after && i in after && NextSlot(l) !in after;
      assert start <= l.start < NextSlot(l) < i;
    } else {
      assert i in after && l.start in after && i + |es| !in after;
      assert start <= i < i + |es| < l.start;
    }
  }

  // ----- batches that begin at index 0 -----

  /** The first entry of a batch at 0 takes the place of the dummy; the others follow from index 1 on. */
  function BehindDummy(i: nat): nat { if i == 0 then 1 else i }

  function WithoutDummy(i: nat, es: seq<Entry>): seq<Entry> {
    if i == 0 && es != [] then es[1..] else es
  }

  function NewDummy(i: nat, es: seq<Entry>, dummy: Entry): Entry {
    if i == 0 && es != [] then es[0] else dummy
  }

  lemma OverlayWithDummy(before: map<nat, Entry>, after: map<nat, Entry>, l: Log, dummy: Entry, i: nat, es: seq<Entry>)
    returns (replaced: map<nat, Entry>)
    requires Represents(before, l.start, l, dummy) && IsOverlaid(before, after, i, es)
    ensures Represents(replaced, l.start, l, NewDummy(i, es, dummy))
    ensures IsOverlaid(replaced, after, BehindDummy(i), WithoutDummy(i, es))
  {
    replaced := if i == 0 && es != [] then before[0 := es[0]] else before;
  }
}
