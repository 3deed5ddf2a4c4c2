/**
  The byte format of `pack` and `apply_pack`: a count, then every serialised entry behind its length,
  numbers as 32-bit integers. How an entry is serialised is a parameter; a codec is any pair of
  functions of which the second undoes the first.
*/
module LogPack {
  import opened Options
  import opened LogSpec

  const TWO_31 := 0x8000_0000

  ghost predicate Inverse(enc: Entry -> seq<Byte>, dec: seq<Byte> -> Entry) {
    forall e :: dec(enc(e)) == e
  }

  predicate Fits(es: seq<Entry>, enc: Entry -> seq<Byte>) {
    |es| < TWO_31 && forall i :: 0 <= i < |es| ==> |enc(es[i])| < TWO_31
  }

  function EncodeInt(x: int): (b: seq<Byte>)
    requires 0 <= x < TWO_31
    ensures |b| == 4
  {
    [(x % 256) as Byte, (x / 0x100 % 256) as Byte, (x / 0x1_0000 % 256) as Byte, (x / 0x100_0000) as Byte]
  }

  function DecodeInt(b: seq<Byte>): nat
    requires |b| == 4
  {
    b[0] as int + 0x100 * b[1] as int + 0x1_0000 * b[2] as int + 0x100_0000 * b[3] as int
  }

  lemma IntRoundTrip(x: int)
    requires 0 <= x < TWO_31
    ensures DecodeInt(EncodeInt(x)) == x
  {
    var y := x / 0x100;
    var z := y / 0x100;
    assert x / 0x1_0000 == z && x / 0x100_0000 == z / 0x100;
  }

  function Records(es: seq<Entry>, enc: Entry -> seq<Byte>): seq<Byte>
    requires Fits(es, enc)
  {
    if es == [] then [] else EncodeInt(|enc(es[0])|) + enc(es[0]) + Records(es[1..], enc)
  }

  function Packed(es: seq<Entry>, enc: Entry -> seq<Byte>): seq<Byte>
    requires Fits(es, enc)
  {
    EncodeInt(|es|) + Records(es, enc)
  }

  function TotalSize(es: seq<Entry>, enc: Entry -> seq<Byte>): nat {
    if es == [] then 0 else |enc(es[0])| + TotalSize(es[1..], enc)
  }

  /** The buffer that `pack` allocates is filled exactly. */
  lemma {:induction false} PackedSize(es: seq<Entry>, enc: Entry -> seq<Byte>)
    requires Fits(es, enc)
    ensures |Packed(es, enc)| == 4 + |es| * 4 + TotalSize(es, enc)
    decreases |es|
  {
    if es != [] { PackedSize(es[1..], enc); }
  }

  /** Reads `n` records; a record that the bytes cannot hold, or a negative length, is refused. */
  function ReadRecords(b: seq<Byte>, n: nat, dec: seq<Byte> -> Entry): Option<seq<Entry>>
    decreases n
  {
    if n == 0 then Some([])
    else if |b| < 4 then None
    else
      var size := DecodeInt(b[..4]);
      if size >= TWO_31 || 4 + size > |b| then None
      else
        var rest := ReadRecords(b[4 + size..], n - 1, dec);
        if rest.None? then None else Some([dec(b[4..4 + size])] + rest.value)
  }

  function Unpacked(b: seq<Byte>, dec: seq<Byte> -> Entry): Option<seq<Entry>> {
    if |b| < 4 || DecodeInt(b[..4]) >= TWO_31 then None else ReadRecords(b[4..], DecodeInt(b[..4]), dec)
  }

  lemma ReadPrefixed(body: seq<Byte>, rest: seq<Byte>, n: nat, dec: seq<Byte> -> Entry)
    requires |body| < TWO_31 && n > 0 && ReadRecords(rest, n - 1, dec).Some?
    ensures ReadRecords(EncodeInt(|body|) + body + rest, n, dec) == Some([dec(body)] + ReadRecords(rest, n - 1, dec).value)
  {
    IntRoundTrip(|body|);
    hide EncodeInt; hide DecodeInt;
    var b := EncodeInt(|body|) + body + rest;
    assert b[..4] == EncodeInt(|body|) && b[4..4 + |body|] == body && b[4 + |body|..] == rest;
  }

  lemma FirstRecord(es: seq<Entry>, tail: seq<Byte>, enc: Entry -> seq<Byte>)
    requires Fits(es, enc) && es != []
    ensures Records(es, enc) + tail == EncodeInt(|enc(es[0])|) + enc(es[0]) + (Records(es[1..], enc) + tail)
  {
    hide EncodeInt;
    Reassociate(EncodeInt(|enc(es[0])|) + enc(es[0]), Records(es[1..], enc), tail);
  }

  lemma Reassociate(a: seq<Byte>, b: seq<Byte>, c: seq<Byte>)
    ensures (a + b) + c == a + (b + c)
  {
  }

  lemma {:induction false} ReadRecordsOf(es: seq<Entry>, tail: seq<Byte>, enc: Entry -> seq<Byte>, dec: seq<Byte> -> Entry)
    requires Fits(es, enc) && Inverse(enc, dec)
    ensures ReadRecords(Records(es, enc) + tail, |es|, dec) == Some(es)
    decreases |es|
  {
    if es != [] {
      hide ReadRecords; hide EncodeInt; hide DecodeInt; hide Records;
      var body, rest := enc(es[0]), Records(es[1..], enc) + tail;
      ReadRecordsOf(es[1..], tail, enc, dec);
      ReadPrefixed(body, rest, |es|, dec);
      FirstRecord(es, tail, enc);
      assert dec(body) == es[0];
      assert es == [es[0]] + es[1..];
    }
  }

  /** Unpacking what was packed gives the same entries, whatever follows in the buffer. */
  lemma PackRoundTrip(es: seq<Entry>, tail: seq<Byte>, enc: Entry -> seq<Byte>, dec: seq<Byte> -> Entry)
    requires Fits(es, enc) && Inverse(enc, dec)
    ensures Unpacked(Packed(es, enc) + tail, dec) == Some(es)
  {
    hide EncodeInt; hide DecodeInt;
    var b := Packed(es, enc) + tail;
    IntRoundTrip(|es|);
    assert b[..4] == EncodeInt(|es|) && b[4..] == Records(es, enc) + tail;
    ReadRecordsOf(es, tail, enc, dec);
  }

  /**
    What one store packs, an empty store unpacks: the same entries. It then holds them at `i`, with the
    next slot behind them, unless there are none; then it starts at 1, whatever `i` says.
  */
  lemma TransferToEmptyStore(es: seq<Entry>, i: nat, empty: Log, enc: Entry -> seq<Byte>, dec: seq<Byte> -> Entry)
    requires Fits(es, enc) && Inverse(enc, dec) && empty.entries == []
    ensures Unpacked(Packed(es, enc), dec) == Some(es)
    ensures Adjoins(empty, i, |es|)
    ensures Overlaid(empty, i, es) == Log(i, es) <==> es != [] || i == 1
    ensures Overlaid(empty, i, es).entries == es
  {
    PackRoundTrip(es, [], enc, dec);
    assert Packed(es, enc) + [] == Packed(es, enc);
  }

  lemma {:induction false} ReadRecordsLength(b: seq<Byte>, n: nat, dec: seq<Byte> -> Entry)
    requires ReadRecords(b, n, dec).Some?
    ensures |ReadRecords(b, n, dec).value| == n
    decreases n
  {
    if n > 0 { ReadRecordsLength(b[4 + DecodeInt(b[..4])..], n - 1, dec); }
  }

  /** The first of several records: its length prefix, its bytes, and what follows. */
  lemma ReadOne(b: seq<Byte>, n: nat, dec: seq<Byte> -> Entry)
    requires n > 0 && ReadRecords(b, n, dec).Some?
    ensures 4 <= |b| && 4 + DecodeInt(b[..4]) <= |b| && |ReadRecords(b, n, dec).value| > 0
    ensures var size, es := DecodeInt(b[..4]), ReadRecords(b, n, dec).value;
      && es[0] == dec(b[4..4 + size])
      && ReadRecords(b[4 + size..], n - 1, dec) == Some(es[1..])
  {
  }
}
