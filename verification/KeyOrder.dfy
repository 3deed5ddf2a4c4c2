/** The iteration order of a `std::map` keyed by strings: lexicographic, character by character. */
module KeyOrder {

  /** `a` comes strictly before `b`. */
  predicate Less(a: string, b: string) {
    b != [] && (a == [] || a[0] < b[0] || (a[0] == b[0] && Less(a[1..], b[1..])))
  }

  /** The first difference decides, and a proper prefix comes first. */
  predicate Decides(a: string, b: string, k: nat) {
    && k <= |a| && k < |b| && a[..k] == b[..k]
    && (k == |a| || a[k] < b[k])
  }

  lemma {:induction false} LessIsLexicographic(a: string, b: string)
    ensures Less(a, b) <==> exists k: nat :: Decides(a, b, k)
  {
    if a == [] || b == [] {
      if b != [] { assert Decides(a, b, 0); }
    } else {
      LessIsLexicographic(a[1..], b[1..]);
      if Less(a, b) {
        if a[0] < b[0] {
          assert Decides(a, b, 0);
        } else {
          var k: nat :| Decides(a[1..], b[1..], k);
          assert a[..k + 1] == [a[0]] + a[1..][..k] && b[..k + 1] == [b[0]] + b[1..][..k];
          assert Decides(a, b, k + 1);
        }
      }
      if k: nat :| Decides(a, b, k) {
        if k > 0 {
          assert a[0] == a[..k][0] == b[..k][0] == b[0];
          assert a[1..][..k - 1] == a[..k][1..] && b[1..][..k - 1] == b[..k][1..];
          assert Decides(a[1..], b[1..], k - 1);
        }
      }
    }
  }

  lemma {:induction false} LessIsTotal(a: string, b: string)
    ensures a == b || Less(a, b) || Less(b, a)
  {
    if a != [] && b != [] {
      LessIsTotal(a[1..], b[1..]);
      assert a == [a[0]] + a[1..] && b == [b[0]] + b[1..];
    }
  }

  lemma {:induction false} LessIsTransitive(a: string, b: string, c: string)
    requires Less(a, b) && Less(b, c)
    ensures Less(a, c)
  {
    if a != [] && a[0] == b[0] && b[0] == c[0] {
      LessIsTransitive(a[1..], b[1..], c[1..]);
    }
  }

  lemma {:induction false} LessIsIrreflexive(a: string)
    ensures !Less(a, a)
  {
    if a != [] { LessIsIrreflexive(a[1..]); }
  }

  /** `k` is where an iteration over `keys` begins. */
  ghost predicate IsFirst(k: string, keys: set<string>) {
    k in keys && forall q :: q in keys && q != k ==> Less(k, q)
  }

  lemma {:induction false} FirstExists(keys: set<string>)
    requires keys != {}
    ensures exists k :: IsFirst(k, keys)
  {
    var x :| x in keys;
    var rest := keys - {x};
    if rest == {} {
      assert keys == {x} + rest;
      assert IsFirst(x, keys);
    } else {
      FirstExists(rest);
      var k :| IsFirst(k, rest);
      LessIsTotal(x, k);
      if Less(x, k) {
        forall q | q in keys && q != x ensures Less(x, q) {
          if q != k { LessIsTransitive(x, k, q); }
        }
        assert IsFirst(x, keys);
      } else {
        assert IsFirst(k, keys);
      }
    }
  }

  lemma FirstIsUnique(j: string, k: string, keys: set<string>)
    requires IsFirst(j, keys) && IsFirst(k, keys)
    ensures j == k
  {
    if j != k {
      LessIsTransitive(j, k, j);
      LessIsIrreflexive(j);
    }
  }

  ghost function First(keys: set<string>): (k: string)
    requires keys != {}
    ensures IsFirst(k, keys)
  {
    FirstExists(keys);
    var k :| IsFirst(k, keys);
    k
  }
}
