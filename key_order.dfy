/**
 * The order in which `std::map<std::string, ClientRef>` visits its entries:
 * ascending lexicographic order of the keys (`std::string`'s `operator<`).
 * Keys produced by `hexStr` hold only ASCII digits and letters, so comparing
 * characters as `char` or as `unsigned char` gives the same result.
 */
module KeyOrder {

  /** `a < b` for `std::string`: a proper prefix, or smaller at the first difference. */
  predicate Less(a: string, b: string)
    ensures Less(a, b) ==> |b| > 0
    ensures |a| < |b| && a == b[..|a|] ==> Less(a, b)
    decreases |a|
  {
    |b| > 0 && (|a| == 0 || a[0] < b[0] || (a[0] == b[0] && Less(a[1..], b[1..])))
  }

  /** No key is below itself. */
  lemma {:induction false} LessIrreflexive(a: string)
    ensures !Less(a, a)
    decreases |a|
  {
    if |a| > 0 {
      LessIrreflexive(a[1..]);
    }
  }

  /** The order is transitive. */
  lemma {:induction false} LessTransitive(a: string, b: string, c: string)
    requires Less(a, b) && Less(b, c)
    ensures Less(a, c)
    decreases |a|
  {
    if |a| > 0 && a[0] == b[0] && b[0] == c[0] {
      LessTransitive(a[1..], b[1..], c[1..]);
    }
  }

  /** Any two distinct keys are ordered one way or the other. */
  lemma {:induction false} LessTotal(a: string, b: string)
    requires a != b
    ensures Less(a, b) || Less(b, a)
    decreases |a|
  {
    if |a| > 0 && |b| > 0 && a[0] == b[0] {
      assert a[1..] != b[1..];
      LessTotal(a[1..], b[1..]);
    }
  }

  /** Every finite non-empty set of keys has a least element (the entry `begin()` points at). */
  lemma {:induction false} LeastExists(s: set<string>)
    requires s != {}
    ensures exists m :: m in s && forall k :: k in s && k != m ==> Less(m, k)
    decreases |s|
  {
    var x :| x in s;
    var rest := s - {x};
    if rest == {} {
      assert s == {x};
    } else {
      LeastExists(rest);
      var m :| m in rest && forall k :: k in rest && k != m ==> Less(m, k);
      LessTotal(m, x);
      if Less(m, x) {
        assert m in s && forall k :: k in s && k != m ==> Less(m, k);
      } else {
        forall k | k in s && k != x
          ensures Less(x, k)
        {
          if k != m {
            LessTransitive(x, m, k);
          }
        }
      }
    }
  }

  /** The least key of a non-empty set: where `begin()` of a map with those keys points. */
  method LeastKey(s: set<string>) returns (m: string)
    requires s != {}
    ensures m in s && forall k :: k in s && k != m ==> Less(m, k)
  {
    LeastExists(s);
    m :| m in s && forall k :: k in s && k != m ==> Less(m, k);
  }

  /** Strictly ascending: the shape of a `std::map` traversal from `begin()` to `end()`. */
  predicate Ascending(ks: seq<string>)
  {
    forall i, j :: 0 <= i < j < |ks| ==> Less(ks[i], ks[j])
  }

  /**
   * Ascending, stated one step at a time: each key above the one before it.
   * This is the fact an in-order traversal establishes as it goes.
   */
  predicate Chain(ks: seq<string>)
    decreases |ks|
  {
    |ks| < 2 || (Chain(ks[..|ks| - 1]) && Less(ks[|ks| - 2], ks[|ks| - 1]))
  }

  /** By transitivity, a chain of ascending neighbours is ascending throughout. */
  lemma {:induction false} ChainAscending(ks: seq<string>)
    requires Chain(ks)
    ensures Ascending(ks)
    decreases |ks|
  {
    if |ks| >= 2 {
      var n := |ks| - 1;
      var front := ks[..n];
      ChainAscending(front);
      forall i, j | 0 <= i < j < |ks|
        ensures Less(ks[i], ks[j])
      {
        if j < n {
          assert ks[i] == front[i] && ks[j] == front[j];
        } else if i < n - 1 {
          assert ks[i] == front[i] && ks[n - 1] == front[n - 1];
          LessTransitive(ks[i], ks[n - 1], ks[n]);
        }
      }
    }
  }

  /** The last key enumerated so far is below every key still to come. */
  predicate LastBelow(ks: seq<string>, rest: set<string>)
  {
    |ks| == 0 || forall k :: k in rest ==> Less(ks[|ks| - 1], k)
  }

  /**
   * One step of an in-order traversal: moving the least remaining key to
   * the end of the enumeration keeps it ascending and below what remains.
   */
  lemma TakeLeast(ks: seq<string>, rest: set<string>, key: string)
    requires Chain(ks) && LastBelow(ks, rest)
    requires key in rest && forall k :: k in rest && k != key ==> Less(key, k)
    ensures Chain(ks + [key]) && LastBelow(ks + [key], rest - {key})
  {
    assert (ks + [key])[..|ks|] == ks;
  }

  /** Two strictly ascending enumerations of the same keys are the same sequence. */
  lemma {:induction false} AscendingUnique(xs: seq<string>, ys: seq<string>)
    requires Ascending(xs) && Ascending(ys)
    requires forall k :: k in xs <==> k in ys
    ensures xs == ys
    decreases |xs|
  {
    if xs != [] {
      assert xs[0] in ys;
    }
    if ys != [] {
      assert ys[0] in xs;
    }
    if xs != [] {
      if xs[0] != ys[0] {
        assert ys[0] in xs && xs[0] in ys;
        var i :| 0 <= i < |xs| && xs[i] == ys[0];
        var j :| 0 <= j < |ys| && ys[j] == xs[0];
        assert Less(xs[0], ys[0]) by { assert i > 0; }
        assert Less(ys[0], xs[0]) by { assert j > 0; }
        LessTransitive(xs[0], ys[0], xs[0]);
        LessIrreflexive(xs[0]);
      }
      forall k | k in xs[1..]
        ensures k in ys[1..]
      {
        var i :| 1 <= i < |xs| && xs[i] == k;
        assert k in xs;
        var j :| 0 <= j < |ys| && ys[j] == k;
        assert Less(xs[0], k);
        if j == 0 {
          LessIrreflexive(k);
        }
        assert ys[1..][j - 1] == k;
      }
      forall k | k in ys[1..]
        ensures k in xs[1..]
      {
        var j :| 1 <= j < |ys| && ys[j] == k;
        assert k in ys;
        var i :| 0 <= i < |xs| && xs[i] == k;
        assert Less(ys[0], k);
        if i == 0 {
          LessIrreflexive(k);
        }
        assert xs[1..][i - 1] == k;
      }
      AscendingUnique(xs[1..], ys[1..]);
      assert xs == [xs[0]] + xs[1..] && ys == [ys[0]] + ys[1..];
    }
  }
}
