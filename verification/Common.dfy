/** An optional value, where the source has a null pointer or nothing yet. */
module Options {
  datatype Option<T> = None | Some(value: T)
}

/** The first and the last key of an ordered map with numeric keys, and sizes of sets of numbers. */
module Sets {

  predicate IsLeast(k: nat, keys: set<nat>) {
    k in keys && forall j :: j in keys ==> k <= j
  }

  lemma {:induction false} LeastExists(keys: set<nat>)
    requires keys != {}
    ensures exists k :: k in keys && IsLeast(k, keys)
    decreases |keys|
  {
    var x :| x in keys;
    if keys == {x} {
      assert IsLeast(x, keys);
    } else {
      LeastExists(keys - {x});
      var k :| k in keys - {x} && IsLeast(k, keys - {x});
      assert forall j :: j in keys ==> j == x || j in keys - {x};
      if x < k { assert IsLeast(x, keys); } else { assert IsLeast(k, keys); }
    }
  }

  predicate IsGreatest(k: nat, keys: set<nat>) {
    k in keys && forall j :: j in keys ==> j <= k
  }

  lemma {:induction false} GreatestExists(keys: set<nat>)
    requires keys != {}
    ensures exists k :: k in keys && IsGreatest(k, keys)
    decreases |keys|
  {
    var x :| x in keys;
    if keys == {x} {
      assert IsGreatest(x, keys);
    } else {
      GreatestExists(keys - {x});
      var k :| k in keys - {x} && IsGreatest(k, keys - {x});
      assert forall j :: j in keys ==> j == x || j in keys - {x};
      if k < x { assert IsGreatest(x, keys); } else { assert IsGreatest(k, keys); }
    }
  }

  ghost function Greatest(keys: set<nat>): (k: nat)
    requires keys != {}
    ensures IsGreatest(k, keys)
  {
    GreatestExists(keys);
    var k :| k in keys && IsGreatest(k, keys);
    k
  }

  lemma {:induction false} SubsetSize(s: set<nat>, t: set<nat>)
    requires s <= t
    ensures |s| <= |t| && (|s| == |t| ==> s == t)
    decreases s
  {
    if x :| x in s { SubsetSize(s - {x}, t - {x}); }
  }

  lemma {:induction false} IntervalSize(s: set<nat>, lo: nat, hi: nat)
    requires lo <= hi && forall i: nat :: i in s <==> lo <= i < hi
    ensures |s| == hi - lo
    decreases hi - lo
  {
    if lo == hi {
      assert s == {};
    } else {
      IntervalSize(s - {lo}, lo + 1, hi);
    }
  }

  /** A set within an interval is no larger than the interval. */
  lemma {:induction false} WithinInterval(s: set<nat>, lo: nat, hi: nat)
    requires lo <= hi && forall i :: i in s ==> lo <= i < hi
    ensures |s| <= hi - lo
    decreases hi - lo
  {
    if lo == hi {
      assert s == {};
    } else {
      WithinInterval(s - {lo}, lo + 1, hi);
    }
  }
}

/** A message as a slot of the logger's ring takes it. */
module Messages {
  type Message = string

  const MSG_SIZE := 4096

  function Cut(msg: Message): (m: Message)
    ensures m <= msg && |m| == if |msg| <= 4096 then |msg| else 4096
  {
    if |msg| > MSG_SIZE then msg[..MSG_SIZE] else msg
  }
}
