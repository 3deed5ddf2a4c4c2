/** What is read at an index before and after each update of the log. */
module LogReads {
  import opened LogSpec

  /** An entry of the log is read at its own index, the dummy everywhere else. */
  lemma ReadsTheSequence(l: Log, dummy: Entry)
    ensures forall k: nat :: k < |l.entries| ==> EntryAt(l, l.start + k, dummy) == l.entries[k]
    ensures forall k: nat :: k < l.start || l.start + |l.entries| <= k ==> EntryAt(l, k, dummy) == dummy
  {
  }

  /** The appended entry is read at what was the next slot, every other index reads as before. */
  lemma AppendReads(l: Log, e: Entry, dummy: Entry)
    ensures NextSlot(Appended(l, e)) == NextSlot(l) + 1
    ensures forall k: nat :: EntryAt(Appended(l, e), k, dummy) == if k == NextSlot(l) then e else EntryAt(l, k, dummy)
  {
  }

  /** A write is read at its index, what lies before reads as before, and what lay behind is gone. */
  lemma WriteReads(l: Log, i: nat, e: Entry, dummy: Entry)
    requires l.start <= i <= NextSlot(l)
    ensures NextSlot(WrittenAt(l, i, e)) == i + 1
    ensures forall k: nat :: EntryAt(WrittenAt(l, i, e), k, dummy) ==
              if k == i then e else if k < i then EntryAt(l, k, dummy) else dummy
  {
  }

  /** Compaction forgets what it names and keeps the rest, each entry at its index. */
  lemma CompactReads(l: Log, last: nat, dummy: Entry)
    ensures forall k: nat :: EntryAt(Compacted(l, last), k, dummy) == if k <= last then dummy else EntryAt(l, k, dummy)
    ensures Compacted(l, last).start == if last < l.start then l.start else last + 1
  {
  }

  /** A batch is read at its indices, and the old log elsewhere. */
  lemma OverlayReads(l: Log, i: nat, es: seq<Entry>, dummy: Entry)
    requires Adjoins(l, i, |es|)
    ensures forall k: nat :: EntryAt(Overlaid(l, i, es), k, dummy) ==
              if i <= k < i + |es| then es[k - i] else EntryAt(l, k, dummy)
  {
    forall k: nat ensures EntryAt(Overlaid(l, i, es), k, dummy) ==
                          if i <= k < i + |es| then es[k - i] else EntryAt(l, k, dummy) {
      OverlaidEntry(l, i, es, k);
    }
  }

  /** The entry in front of the next slot is the last one, and the dummy if there is none. */
  lemma LastReads(l: Log, dummy: Entry)
    requires 1 <= l.start
    ensures EntryAt(l, NextSlot(l) - 1, dummy) == if l.entries == [] then dummy else l.entries[|l.entries| - 1]
  {
  }
}
