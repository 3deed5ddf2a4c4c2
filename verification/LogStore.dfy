/** The in-memory log store: a sparse map of entries, with the emulation of a slow disk. */
module LogStore {
  import opened Options
  import opened Sets
  import opened LogSpec
  import opened LogPack
  import opened LogBatch
  import opened DiskSpec
  import opened LogReads

  /** The whole of a buffer holds `b` from `pos` on; the rest is untouched. */
  method PutBytes(buf: array<Byte>, pos: nat, b: seq<Byte>) returns (end: nat)
    requires pos + |b| <= buf.Length
    modifies buf
    ensures end == pos + |b|
    ensures buf[..pos] == old(buf[..pos]) && buf[pos..end] == b && buf[end..] == old(buf[end..])
  {
    end := pos + |b|;
    for i := 0 to |b|
      invariant buf[..pos] == old(buf[..pos]) && buf[pos..pos + i] == b[..i] && buf[end..] == old(buf[end..])
    {
      buf[pos + i] := b[i];
    }
  }

  class InmemLogStore {
    var logs: map<nat, Entry>
    var startIdx: nat
    var diskDelay: nat                        // microseconds; 0 turns the emulation off
    var beingWritten: map<nat, nat>
    var lastDurable: nat
    ghost var dummy: Entry                    // what the map holds at index 0
    ghost var view: Log
    ghost var horizon: nat                    // the latest time at which a write was to become durable

    ghost predicate Valid()
      reads this
    {
      Represents(logs, startIdx, view, dummy)
    }

    ghost function TheDisk(): Disk
      reads this
    {
      Disk(beingWritten, lastDurable)
    }

    /** The store at some moment, as the runs of `DiskSpec` have it. */
    ghost function At(clock: nat): Store
      reads this
    {
      Store(view, TheDisk(), clock)
    }

    /** The books of the emulated disk agree with the log. */
    ghost predicate Synced()
      reads this
    {
      DiskInv(TheDisk(), NextSlot(view), horizon)
    }

    /** The dummy entry at index 0 has term 0; what its buffer holds is left open. */
    constructor (dummy: Entry)
      requires dummy.term == 0
      ensures Valid() && view == Log(1, []) && TheDisk() == Disk(map[], 0) && diskDelay == 0
      ensures this.dummy == dummy && Synced() && horizon == 0
    {
      this.dummy := dummy;
      logs, startIdx, diskDelay, beingWritten, lastDurable := map[0 := dummy], 1, 0, map[], 0;
      view, horizon := Log(1, []), 0;
    }

    // ----- reading -----

    method NextSlotOf() returns (next: nat)
      requires Valid()
      ensures next == NextSlot(view)
    {
      SizeGivesNextSlot(logs, startIdx, view, dummy);
      next := startIdx + |logs| - 1;
    }

    method LastEntry() returns (e: Entry)
      requires Valid()
      ensures e == if view.entries == [] then dummy else view.entries[|view.entries| - 1]
      ensures e == EntryAt(view, NextSlot(view) - 1, dummy)
    {
      var next := NextSlotOf();
      if next - 1 in logs { e := logs[next - 1]; } else { e := logs[0]; }
    }

    method EntryAtIndex(index: nat) returns (e: Entry)
      requires Valid()
      ensures e == EntryAt(view, index, dummy)
      ensures InRange(view, index) ==> e == view.entries[index - view.start]
      ensures !InRange(view, index) ==> e == dummy
    {
      if index in logs { e := logs[index]; } else { e := logs[0]; }
    }

    method TermAt(index: nat) returns (term: nat)
      requires Valid()
      ensures term == EntryAt(view, index, dummy).term
      ensures InRange(view, index) ==> term == view.entries[index - view.start].term
      ensures !InRange(view, index) ==> term == dummy.term
    {
      if index in logs { term := logs[index].term; } else { term := logs[0].term; }
    }

    /** The entries of a range; the store asserts that every index of it is present. */
    ghost predicate Present(start: nat, end: nat)
      reads this
    {
      start < end ==> view.start <= start && end <= NextSlot(view)
    }

    ghost function Range(start: nat, end: nat): (es: seq<Entry>)
      requires Present(start, end)
      reads this
      ensures |es| == if start < end then end - start else 0
      ensures forall k :: start <= k < end ==> es[k - start] == EntryAt(view, k, dummy)
    {
      if start < end then view.entries[start - view.start..end - view.start] else []
    }

    method LogEntries(start: nat, end: nat) returns (ret: seq<Entry>)
      requires Valid() && start <= end && Present(start, end)
      ensures ret == Range(start, end) && |ret| == end - start
      ensures forall k :: start <= k < end ==> ret[k - start] == EntryAt(view, k, dummy)
    {
      ret := [];
      for i := start to end
        invariant start == end ==> ret == []
        invariant start < end ==> ret == view.entries[start - view.start..i - view.start]
      {
        ret := ret + [logs[i]];
      }
    }

    method LogEntriesExt(start: nat, end: nat, hint: int) returns (ret: seq<Entry>)
      requires Valid() && Present(start, end)
      ensures IsBatch(ret, Range(start, end), hint)
      ensures |ret| <= |Range(start, end)|
      ensures forall j :: 0 <= j < |ret| ==> ret[j] == EntryAt(view, start + j, dummy)
    {
      hide IsBatch; hide DataSize;
      ret := [];
      ghost var all := Range(start, end);
      NothingReadYet(all, hint);
      if hint < 0 { return; }
      var accum := 0;
      var i := start;
      while i < end
        invariant start <= i && i - start == |ret| <= |all| && ret == all[..|ret|]
        invariant accum == DataSize(ret)
        invariant BelowHint(all, |ret|, hint)
        decreases end - i
      {
        var src := logs[i];
        assert src == all[i - start];
        OneMoreRead(all, |ret|, hint);
        ret := ret + [src];
        accum := accum + |src.data|;
        if hint != 0 && accum >= hint { return; }
        i := i + 1;
      }
      AllRead(all, hint);
    }

    // ----- writing -----

    method Append(e: Entry, now: nat) returns (idx: nat)
      requires Valid()
      modifies this`logs, this`beingWritten, this`view, this`horizon
      ensures Valid() && view == Appended(old(view), e) && idx == NextSlot(old(view)) && dummy == old(dummy)
      ensures forall k: nat :: EntryAt(view, k, dummy) == if k == idx then e else EntryAt(old(view), k, dummy)
      ensures TheDisk() == if diskDelay == 0 then old(TheDisk())
                           else old(TheDisk()).(pending := old(beingWritten)[now + diskDelay := idx])
      ensures horizon == if diskDelay == 0 then old(horizon) else now + diskDelay
      ensures old(Synced()) && 0 < diskDelay && old(horizon) <= now + diskDelay ==> Synced()
      ensures old(Synced()) && 0 < diskDelay ==> At(now) == Next(old(At(now)), Event.Append(e, now), diskDelay)
    {
      hide DiskInv; hide Written; hide Appended; hide EntryAt;
      SizeGivesNextSlot(logs, startIdx, view, dummy);
      StartsAgree(logs, startIdx, view, dummy);
      AppendedMap(logs, view, dummy, e);
      hide Represents;
      idx := startIdx + |logs| - 1;
      logs := logs[idx := e];
      ScheduleAppend(idx, now);
      AppendReads(view, e, dummy);
      view := Appended(view, e);
    }

    method ScheduleAppend(idx: nat, now: nat)
      requires idx == NextSlot(view)
      modifies this`beingWritten, this`horizon
      ensures TheDisk() == if diskDelay == 0 then old(TheDisk())
                           else old(TheDisk()).(pending := old(beingWritten)[now + diskDelay := idx])
      ensures horizon == if diskDelay == 0 then old(horizon) else now + diskDelay
      ensures old(Synced()) && 0 < diskDelay ==> TheDisk() == Written(old(TheDisk()), idx, now + diskDelay)
      ensures old(Synced()) && 0 < diskDelay && old(horizon) <= now + diskDelay ==> DiskInv(TheDisk(), idx + 1, horizon)
    {
      hide DiskInv;
      if diskDelay != 0 {
        if Synced() { AppendingIsWriting(TheDisk(), idx, horizon, now + diskDelay); }
        if Synced() && horizon <= now + diskDelay {
          WrittenKeepsInv(TheDisk(), idx, horizon, idx, now + diskDelay);
        }
        beingWritten := beingWritten[now + diskDelay := idx];
        horizon := now + diskDelay;
      }
    }

    method EraseFrom(index: nat)
      modifies this`logs
      ensures logs == old(logs) - (set k | k in old(logs) && index <= k)
    {
      var doomed := set k | k in logs && index <= k;
      ghost var all := doomed;
      assert logs == old(logs) - (all - doomed);
      while doomed != {}
        invariant doomed <= all
        invariant logs == old(logs) - (all - doomed)
        decreases |doomed|
      {
        var k :| k in doomed;
        assert all - (doomed - {k}) == (all - doomed) + {k};
        logs := logs - {k};
        doomed := doomed - {k};
        assert logs == old(logs) - (all - doomed);
      }
      assert all - {} == all;
    }

    method Overwrite(index: nat, e: Entry)
      modifies this`logs
      ensures IsWrittenAt(old(logs), logs, index, e)
    {
      EraseFrom(index);
      logs := logs[index := e];
    }

    /** In range the log is truncated and extended, at 0 emptied; elsewhere only the map is described. */
    method WriteAt(index: nat, e: Entry, now: nat)
      requires Valid()
      modifies this`logs, this`beingWritten, this`view, this`dummy, this`horizon
      ensures IsWrittenAt(old(logs), logs, index, e)
      ensures Contiguous(logs, startIdx) <==> index == 0 || old(view).start <= index <= NextSlot(old(view))
      ensures old(view).start <= index <= NextSlot(old(view)) ==>
        && Valid() && view == WrittenAt(old(view), index, e) && dummy == old(dummy)
        && forall k: nat :: EntryAt(view, k, dummy) ==
             if k == index then e else if k < index then EntryAt(old(view), k, dummy) else dummy
      ensures index == 0 ==> Valid() && view == Log(old(view).start, []) && dummy == e
      ensures TheDisk() == if diskDelay == 0 then old(TheDisk()) else Written(old(TheDisk()), index, now + diskDelay)
      ensures horizon == if diskDelay == 0 then old(horizon) else now + diskDelay
      ensures old(view).start <= index <= NextSlot(old(view)) ==>
        old(Synced()) && 0 < diskDelay && old(horizon) <= now + diskDelay ==> Synced()
      ensures old(view).start <= index <= NextSlot(old(view)) && 0 < diskDelay ==>
        At(now) == Next(old(At(now)), Event.WriteAt(index, e, now), diskDelay)
    {
      hide IsWrittenAt; hide Contiguous; hide Represents; hide WrittenAt; hide DiskInv;
      StartsAgree(logs, startIdx, view, dummy);
      Overwrite(index, e);
      WriteKeepsContiguityIff(old(logs), logs, view, dummy, index, e);
      ScheduleWrite(index, now);
      if view.start <= index <= NextSlot(view) {
        WriteInRange(old(logs), logs, view, dummy, index, e);
        WriteReads(view, index, e, dummy);
        view := WrittenAt(view, index, e);
      } else if index == 0 {
        WriteOverDummy(old(logs), logs, view, dummy, e);
        view, dummy := Log(view.start, []), e;
      }
    }

    method ScheduleWrite(index: nat, now: nat)
      modifies this`beingWritten, this`horizon
      ensures TheDisk() == if diskDelay == 0 then old(TheDisk()) else Written(old(TheDisk()), index, now + diskDelay)
      ensures horizon == if diskDelay == 0 then old(horizon) else now + diskDelay
      ensures old(Synced()) && 0 < diskDelay && old(horizon) <= now + diskDelay ==> DiskInv(TheDisk(), index + 1, horizon)
    {
      hide DiskInv;
      if diskDelay != 0 {
        if Synced() && horizon <= now + diskDelay {
          WrittenKeepsInv(TheDisk(), NextSlot(view), horizon, index, now + diskDelay);
        }
        beingWritten := beingWritten[now + diskDelay := index];
        beingWritten := beingWritten - (set t | t in beingWritten && beingWritten[t] > index);
        horizon := now + diskDelay;
      }
    }

    method Compact(last: nat)
      requires Valid()
      modifies this`logs, this`startIdx, this`view
      ensures Valid() && view == Compacted(old(view), last) && dummy == old(dummy)
      ensures forall k: nat :: EntryAt(view, k, dummy) == if k <= last then dummy else EntryAt(old(view), k, dummy)
      ensures old(Synced()) ==> (Synced() <==> last < NextSlot(old(view)))
      ensures last < NextSlot(old(view)) ==> At(0) == Next(old(At(0)), Event.Compact(last), diskDelay)
    {
      hide Represents; hide Compacted; hide DiskInv;
      if Synced() { CompactionKeepsInvIff(TheDisk(), view, horizon, last); }
      StartsAgree(logs, startIdx, view, dummy);
      var i := startIdx;
      while i <= last
        invariant view == old(view) && startIdx == old(startIdx)
        invariant startIdx <= i && (startIdx <= last ==> i <= last + 1) && (last < startIdx ==> i == startIdx)
        invariant forall k :: k in logs <==> k in old(logs) && !(startIdx <= k < i)
        invariant forall k :: k in logs ==> logs[k] == old(logs)[k]
      {
        if i in logs { logs := logs - {i}; }
        i := i + 1;
      }
      CompactedMap(old(logs), logs, view, dummy, last);
      CompactReads(view, last, dummy);
      if startIdx <= last { startIdx := last + 1; }
      view := Compacted(view, last);
    }

    // ----- packing -----

    /** The serialised entries, with their total size. */
    method Serialized(index: nat, cnt: nat, enc: Entry -> seq<Byte>) returns (bufs: seq<seq<Byte>>, sizeTotal: nat)
      requires Valid() && view.start <= index && index + cnt <= NextSlot(view)
      ensures var es := view.entries[index - view.start..][..cnt];
        && |bufs| == cnt && (forall j :: 0 <= j < cnt ==> bufs[j] == enc(es[j]))
        && sizeTotal == TotalSize(es, enc)
    {
      ghost var es := view.entries[index - view.start..][..cnt];
      bufs, sizeTotal := [], 0;
      assert es[0..] == es;
      for i := 0 to cnt
        invariant |bufs| == i && forall j :: 0 <= j < i ==> bufs[j] == enc(es[j])
        invariant sizeTotal + TotalSize(es[i..], enc) == TotalSize(es, enc)
      {
        assert logs[index + i] == es[i] && es[i..][0] == es[i] && es[i..][1..] == es[i + 1..];
        var b := enc(logs[index + i]);
        sizeTotal := sizeTotal + |b|;
        bufs := bufs + [b];
      }
      assert es[cnt..] == [];
    }

    method Pack(index: nat, cnt: nat, enc: Entry -> seq<Byte>) returns (buf: array<Byte>)
      requires Valid() && view.start <= index && index + cnt <= NextSlot(view)
      requires Fits(view.entries[index - view.start..][..cnt], enc)
      ensures buf[..] == Packed(view.entries[index - view.start..][..cnt], enc)
    {
      var bufs, sizeTotal := Serialized(index, cnt, enc);
      ghost var es := view.entries[index - view.start..][..cnt];
      PackedSize(es, enc);
      buf := new Byte[4 + cnt * 4 + sizeTotal];
      FillBuffer(buf, bufs, es, enc);
    }

    static method PutRecord(buf: array<Byte>, pos: nat, record: seq<Byte>) returns (end: nat)
      requires |record| < TWO_31 && pos + 4 + |record| <= buf.Length
      modifies buf
      ensures end == pos + 4 + |record| && buf[..end] == old(buf[..pos]) + EncodeInt(|record|) + record
    {
      hide EncodeInt;
      var len := PutBytes(buf, pos, EncodeInt(|record|));
      end := PutBytes(buf, len, record);
    }

    static method FillBuffer(buf: array<Byte>, bufs: seq<seq<Byte>>, ghost es: seq<Entry>, ghost enc: Entry -> seq<Byte>)
      requires Fits(es, enc) && buf.Length == |Packed(es, enc)|
      requires |bufs| == |es| && forall j :: 0 <= j < |es| ==> bufs[j] == enc(es[j])
      modifies buf
      ensures buf[..] == Packed(es, enc)
    {
      hide EncodeInt;
      var pos := PutBytes(buf, 0, EncodeInt(|bufs|));
      assert buf[..4] == EncodeInt(|es|) && es[0..] == es;
      for i := 0 to |bufs|
        invariant 4 <= pos <= buf.Length && Fits(es[i..], enc)
        invariant buf[..pos] + Records(es[i..], enc) == Packed(es, enc)
      {
        assert es[i..][0] == es[i] && es[i..][1..] == es[i + 1..];
        ghost var done, rest := buf[..pos], Records(es[i + 1..], enc);
        pos := PutRecord(buf, pos, bufs[i]);
        assert buf[..pos] + rest == done + (EncodeInt(|bufs[i]|) + bufs[i] + rest);
      }
      assert es[|bufs|..] == [];
    }

    /** For a buffer that holds whole records; the store relies on the sender for that. */
    method ApplyPack(index: nat, buf: array<Byte>, dec: seq<Byte> -> Entry)
      requires Valid() && Unpacked(buf[..], dec).Some?
      modifies this`logs, this`startIdx, this`view, this`dummy
      ensures var es := Unpacked(buf[..], dec).value;
        var i, rest := BehindDummy(index), WithoutDummy(index, es);
        && IsOverlaid(old(logs), logs, index, es) && IsStartOf(startIdx, logs)
        && (Contiguous(logs, startIdx) <==> Adjoins(old(view), i, |rest|))
        && (Adjoins(old(view), i, |rest|) ==>
            && Valid() && view == Overlaid(old(view), i, rest) && dummy == NewDummy(index, es, old(dummy))
            && forall k: nat :: EntryAt(view, k, dummy) == if i <= k < i + |rest| then rest[k - i] else EntryAt(old(view), k, dummy))
    {
      hide Unpacked; hide IsOverlaid; hide IsStartOf; hide Contiguous; hide Represents; hide Overlaid; hide Adjoins;
      StartsAgree(logs, startIdx, view, dummy);
      ghost var es := PutRecords(index, buf, dec);
      FindStart();
      ghost var i, rest := BehindDummy(index), WithoutDummy(index, es);
      ghost var replaced := OverlayWithDummy(old(logs), logs, view, dummy, index, es);
      dummy := NewDummy(index, es, dummy);
      OverlayKeepsContiguityIff(replaced, logs, startIdx, view, dummy, i, rest);
      if Adjoins(view, i, |rest|) {
        OverlayAdjoining(replaced, logs, startIdx, view, dummy, i, rest);
        OverlayReads(view, i, rest, dummy);
        view := Overlaid(view, i, rest);
      }
    }

    method PutRecords(index: nat, buf: array<Byte>, dec: seq<Byte> -> Entry) returns (ghost es: seq<Entry>)
      requires Unpacked(buf[..], dec).Some?
      modifies this`logs
      ensures es == Unpacked(buf[..], dec).value && IsOverlaid(old(logs), logs, index, es)
    {
      hide DecodeInt; hide IsOverlaid; hide ReadRecords;
      es := Unpacked(buf[..], dec).value;
      var numLogs := DecodeInt(buf[..4]);
      assert buf[..][..4] == buf[..4] && buf[..][4..] == buf[4..];
      ReadRecordsLength(buf[4..], numLogs, dec);
      OverlaidNothing(logs, index);
      assert es[..0] == [] && es[0..] == es;
      ghost var b := buf[..];
      var pos := 4;
      for i := 0 to numLogs
        invariant 4 <= pos <= buf.Length && |es| == numLogs && buf[..] == b
        invariant ReadRecords(b[pos..], numLogs - i, dec) == Some(es[i..])
        invariant IsOverlaid(old(logs), logs, index, es[..i])
      {
        ReadOne(b[pos..], numLogs - i, dec);
        ghost var length := DecodeInt(b[pos..][..4]);
        RecordSlices(b, pos, length);
        assert buf[pos..pos + 4] == b[pos..pos + 4];
        var size := DecodeInt(buf[pos..pos + 4]);
        pos := pos + 4;
        assert buf[pos..pos + size] == b[pos..pos + size];
        var e := dec(buf[pos..pos + size]);
        pos := pos + size;
        FirstAndRest(es, i);
        OverlaidOneMore(old(logs), logs, index, es[..i], e);
        logs := logs[index + i := e];
      }
      assert es[..numLogs] == es;
    }

    /** The length and the body of a record, in the rest of the buffer and in the buffer. */
    static lemma RecordSlices(b: seq<Byte>, pos: nat, size: nat)
      requires pos + 4 + size <= |b|
      ensures b[pos..][..4] == b[pos..pos + 4] && b[pos..][4..4 + size] == b[pos + 4..pos + 4 + size]
      ensures b[pos..][4 + size..] == b[pos + 4 + size..]
    {
    }

    static lemma FirstAndRest(es: seq<Entry>, i: nat)
      requires i < |es|
      ensures es[i..][0] == es[i] && es[i..][1..] == es[i + 1..] && es[..i + 1] == es[..i] + [es[i]]
    {
    }

    method FindStart()
      modifies this`startIdx
      ensures IsStartOf(startIdx, logs)
    {
      hide IsStartOf; hide IsLeast;
      var positive := logs.Keys - {0};
      if positive != {} {
        LeastExists(positive);
        var k :| k in positive && IsLeast(k, positive);
        FirstBehindDummy(logs, k);
        startIdx := k;
      } else {
        NothingBehindDummy(logs);
        startIdx := 1;
      }
    }

    lemma FirstBehindDummy(m: map<nat, Entry>, k: nat)
      requires IsLeast(k, m.Keys - {0})
      ensures IsStartOf(k, m)
    {
      assert k in m && k > 0;
      assert forall j :: j in m && j > 0 ==> j in m.Keys - {0};
    }

    lemma NothingBehindDummy(m: map<nat, Entry>)
      requires m.Keys - {0} == {}
      ensures IsStartOf(1, m)
    {
      assert forall k :: k in m ==> k == 0 || k in m.Keys - {0};
    }

    // ----- the emulated disk -----

    /** With nothing left to write, the durable index is the last one of the log. */
    method LastDurableIndex() returns (index: nat)
      requires Valid()
      ensures index == if diskDelay == 0 then NextSlot(view) - 1 else lastDurable
      ensures Synced() && beingWritten == map[] ==> index == NextSlot(view) - 1
      ensures Synced() ==> forall t :: t in beingWritten ==> beingWritten[t] < NextSlot(view)
    {
      var next := NextSlotOf();
      index := if diskDelay == 0 then next - 1 else lastDurable;
    }

    method Flush()
      requires Valid()
      modifies this`lastDurable
      ensures TheDisk() == Flushed(old(TheDisk()), view) && lastDurable == NextSlot(view) - 1
      ensures old(Synced()) || beingWritten == map[] ==> Synced()
      ensures At(0) == Next(old(At(0)), Event.Flush, diskDelay)
    {
      var next := NextSlotOf();
      lastDurable := next - 1;
    }

    /** Switching the emulation on leaves the durable index where it is, which may be behind the log. */
    method SetDiskDelay(delay: nat)
      modifies this`diskDelay
      ensures diskDelay == delay && (Synced() <==> old(Synced()))
    {
      diskDelay := delay;
    }

    /** One wake-up of the disk thread: everything due by `now` is durable, the latest of it is recorded. */
    method DrainDisk(now: nat) returns (notify: bool)
      modifies this`beingWritten, this`lastDurable
      ensures TheDisk() == Drained(old(TheDisk()), now) && At(now) == Next(old(At(now)), Drain(now), diskDelay)
      ensures notify <==> Due(old(TheDisk()), now) != {}
      ensures old(Synced()) ==> Synced()
    {
      hide Drained; hide DiskInv;
      if Synced() { DrainedKeepsInv(TheDisk(), NextSlot(view), horizon, now, horizon); }
      notify := false;
      ghost var d := TheDisk();
      while beingWritten != map[]
        invariant Drained(TheDisk(), now) == Drained(d, now)
        invariant notify || Due(TheDisk(), now) != {} <==> Due(d, now) != {}
        decreases |beingWritten.Keys|
      {
        LeastExists(beingWritten.Keys);
        var first :| first in beingWritten && IsLeast(first, beingWritten.Keys);
        DrainOne(TheDisk(), now, first);
        if now < first { return; }
        assert beingWritten.Keys == (beingWritten - {first}).Keys + {first};
        lastDurable := beingWritten[first];
        beingWritten := beingWritten - {first};
        notify := true;
      }
      NothingToDrain(TheDisk(), now);
    }
  }

  /**
    What one store packs, another applies: the log of the receiver is overlaid with the sender's
    entries if the two touch, and nothing that is a log otherwise. A receiver without entries ends with
    the same entries at the same indices, unless there are none to transfer.
  */
  method Transfer(sender: InmemLogStore, receiver: InmemLogStore, index: nat, cnt: nat,
                  enc: Entry -> seq<Byte>, dec: seq<Byte> -> Entry)
    requires sender.Valid() && receiver.Valid() && Inverse(enc, dec)
    requires sender.view.start <= index && index + cnt <= NextSlot(sender.view)
    requires Fits(sender.view.entries[index - sender.view.start..][..cnt], enc)
    modifies receiver`logs, receiver`startIdx, receiver`view, receiver`dummy
    ensures var es := old(sender.view.entries[index - sender.view.start..][..cnt]);
      && (Contiguous(receiver.logs, receiver.startIdx) <==> Adjoins(old(receiver.view), index, cnt))
      && (Adjoins(old(receiver.view), index, cnt) ==> receiver.Valid() && receiver.view == Overlaid(old(receiver.view), index, es))
      && (old(receiver.view.entries) == [] ==>
          receiver.Valid() && receiver.view.entries == es && (receiver.view == Log(index, es) <==> cnt > 0 || index == 1))
  {
    assert 1 <= index;
    hide Packed; hide Overlaid; hide Adjoins; hide Contiguous; hide Represents; hide Fits;
    ghost var es := sender.view.entries[index - sender.view.start..][..cnt];
    var buf := sender.Pack(index, cnt, enc);
    Receive(receiver, index, buf, es, enc, dec);
  }

  method Receive(receiver: InmemLogStore, index: nat, buf: array<Byte>, ghost es: seq<Entry>, ghost enc: Entry -> seq<Byte>,
                 dec: seq<Byte> -> Entry)
    requires receiver.Valid() && 1 <= index && Inverse(enc, dec) && Fits(es, enc) && buf[..] == Packed(es, enc)
    modifies receiver`logs, receiver`startIdx, receiver`view, receiver`dummy
    ensures Contiguous(receiver.logs, receiver.startIdx) <==> Adjoins(old(receiver.view), index, |es|)
    ensures Adjoins(old(receiver.view), index, |es|) ==>
      receiver.Valid() && receiver.view == Overlaid(old(receiver.view), index, es)
    ensures old(receiver.view.entries) == [] ==>
      receiver.Valid() && receiver.view.entries == es && (receiver.view == Log(index, es) <==> |es| > 0 || index == 1)
  {
    hide EntryAt; hide InRange; hide Packed; hide Unpacked; hide Overlaid; hide Adjoins; hide Inverse; hide IsStartOf;
    hide IsOverlaid; hide Contiguous; hide Represents; hide Fits;
    ghost var before := receiver.view;
    PackRoundTrip(es, [], enc, dec);
    assert Packed(es, enc) + [] == Packed(es, enc);
    receiver.ApplyPack(index, buf, dec);
    if before.entries == [] { TransferToEmptyStore(es, index, before, enc, dec); }
  }
}
