/** Reading a log in batches that stop as soon as a size hint is reached. */
module LogBatch {
  import opened LogSpec

  function DataSize(es: seq<Entry>): nat {
    if es == [] then 0 else DataSize(es[..|es| - 1]) + |es[|es| - 1].data|
  }

  /** The size of a batch is the number of bytes in its entries' buffers: nothing for none, and it adds up. */
  lemma {:induction false} DataSizeAddsUp(a: seq<Entry>, b: seq<Entry>)
    ensures DataSize(a + b) == DataSize(a) + DataSize(b)
    ensures |a| == 1 ==> DataSize(a) == |a[0].data|
    decreases |b|
  {
    if b == [] {
      assert a + b == a;
    } else {
      var front := b[..|b| - 1];
      DataSizeAddsUp(a, front);
      assert (a + b)[..|a + b| - 1] == a + front;
    }
    if |a| == 1 { assert a[..0] == []; }
  }

  /** `batch` is what `log_entries_ext` may return for the requested entries `es` and the hint. */
  ghost predicate IsBatch(batch: seq<Entry>, es: seq<Entry>, hint: int) {
    && batch <= es
    && (hint < 0 ==> batch == [])
    && (hint == 0 ==> batch == es)
    && (hint > 0 ==> (batch == es || DataSize(batch) >= hint)
                     && forall n :: 0 <= n < |batch| ==> DataSize(batch[..n]) < hint)
  }

  /** What the reading loop keeps: no proper prefix, nor what was read so far, reaches a positive hint. */
  ghost predicate BelowHint(es: seq<Entry>, n: nat, hint: int) {
    n <= |es| && (hint > 0 ==> forall k :: 0 <= k <= n ==> DataSize(es[..k]) < hint)
  }

  lemma NothingReadYet(es: seq<Entry>, hint: int)
    ensures DataSize([]) == 0 && es[..0] == [] && BelowHint(es, 0, hint)
    ensures hint < 0 ==> IsBatch([], es, hint)
  {
    assert es[..0] == [];
  }

  lemma OneMoreRead(es: seq<Entry>, n: nat, hint: int)
    requires BelowHint(es, n, hint) && n < |es| && 0 <= hint
    ensures es[..n] + [es[n]] == es[..n + 1]
    ensures DataSize(es[..n + 1]) == DataSize(es[..n]) + |es[n].data|
    ensures if hint != 0 && DataSize(es[..n + 1]) >= hint then IsBatch(es[..n + 1], es, hint) else BelowHint(es, n + 1, hint)
  {
    assert es[..n + 1][..n] == es[..n];
    if hint != 0 {
      var batch := es[..n + 1];
      forall k | 0 <= k <= n ensures DataSize(batch[..k]) < hint {
        assert batch[..k] == es[..k];
      }
      assert batch <= es;
    }
  }

  lemma AllRead(es: seq<Entry>, hint: int)
    requires BelowHint(es, |es|, hint) && 0 <= hint
    ensures es[..|es|] == es && IsBatch(es, es, hint)
  {
  }

  /** The hint determines the batch: it is the shortest prefix that reaches it. */
  lemma BatchIsUnique(a: seq<Entry>, b: seq<Entry>, es: seq<Entry>, hint: int)
    requires IsBatch(a, es, hint) && IsBatch(b, es, hint)
    ensures a == b
  {
    assert |a| <= |b| ==> b[..|a|] == a;
    assert |b| <= |a| ==> a[..|b|] == b;
  }

  /**
    Which batch that is: all of the entries without a hint, none for a negative one, and otherwise the
    shortest prefix that reaches the hint, or all of the entries if none does.
  */
  lemma BatchIsTheShortestPrefix(batch: seq<Entry>, es: seq<Entry>, hint: int)
    ensures IsBatch(batch, es, hint) <==>
      if hint < 0 then batch == []
      else if hint == 0 || DataSize(es) < hint then batch == es
      else batch <= es && DataSize(batch) >= hint && forall n :: 0 <= n <= |es| && DataSize(es[..n]) >= hint ==> |batch| <= n
  {
    if hint > 0 {
      assert es[..|es|] == es;
      if batch <= es {
        assert batch == es[..|batch|];
        assert forall n :: 0 <= n <= |batch| ==> batch[..n] == es[..n];
        forall m, n | 0 <= m <= n <= |es| ensures DataSize(es[..m]) <= DataSize(es[..n]) {
          PrefixesGrow(es, m, n);
        }
      }
    }
  }

  lemma PrefixesGrow(es: seq<Entry>, m: nat, n: nat)
    requires m <= n <= |es|
    ensures DataSize(es[..m]) <= DataSize(es[..n])
  {
    DataSizeAddsUp(es[..m], es[m..n]);
    assert es[..m] + es[m..n] == es[..n];
  }

  /** Something comes back whenever something was asked for and the hint is not negative. */
  lemma BatchIsNonempty(batch: seq<Entry>, es: seq<Entry>, hint: int)
    requires IsBatch(batch, es, hint)
    ensures batch != [] <==> es != [] && 0 <= hint
  {
    assert DataSize([]) == 0;
  }

  lemma {:induction false} BatchExists(es: seq<Entry>, hint: int)
    ensures exists batch :: IsBatch(batch, es, hint)
    decreases |es|
  {
    if hint <= 0 {
      assert IsBatch(if hint < 0 then [] else es, es, hint);
    } else if es == [] {
      assert IsBatch([], es, hint);
    } else {
      var front := es[..|es| - 1];
      BatchExists(front, hint);
      var batch :| IsBatch(batch, front, hint);
      if DataSize(batch) >= hint {
        assert IsBatch(batch, es, hint);
      } else {
        assert forall n :: 0 <= n < |front| ==> front[..n] == es[..n];
        assert IsBatch(es, es, hint);
      }
    }
  }

  ghost function Batch(es: seq<Entry>, hint: int): (batch: seq<Entry>)
    ensures IsBatch(batch, es, hint)
  {
    BatchExists(es, hint);
    var batch :| IsBatch(batch, es, hint);
    batch
  }

  /** Fetch, and fetch again from where the last batch ended. */
  ghost function Refetched(es: seq<Entry>, hint: nat): seq<Entry>
    decreases |es|
  {
    if es == [] then []
    else
      BatchIsNonempty(Batch(es, hint), es, hint);
      Batch(es, hint) + Refetched(es[|Batch(es, hint)|..], hint)
  }

  /** Refetching ends and loses nothing: the batches together are the entries asked for. */
  lemma {:induction false} RefetchingLosesNothing(es: seq<Entry>, hint: nat)
    ensures Refetched(es, hint) == es
    decreases |es|
  {
    if es != [] {
      var batch := Batch(es, hint);
      BatchIsNonempty(batch, es, hint);
      RefetchingLosesNothing(es[|batch|..], hint);
    }
  }
}
