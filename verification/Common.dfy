/** Small facts about options and finite sets that several parts share. */
module Common {
  datatype Option<+T> = None | Some(value: T)

  /** The elements of a sequence. */
  function Elements(s: seq<int>): (r: set<int>)
    ensures forall x :: x in r <==> x in s
    ensures |r| <= |s|
    ensures (forall i, j :: 0 <= i < j < |s| ==> s[i] != s[j]) ==> |r| == |s|
  {
    if s == [] then {} else Elements(s[..|s| - 1]) + {s[|s| - 1]}
  }

  lemma SubsetSize<T>(a: set<T>, b: set<T>)
    requires a <= b
    ensures |a| <= |b|
    ensures |a| == |b| ==> a == b
  {
    assert b == a + (b - a);
  }

  lemma UnionSize<T>(a: set<T>, b: set<T>)
    ensures |a + b| <= |a| + |b|
  {
    assert a + b == a + (b - a);
    SubsetSize(b - a, b);
  }

  /** Distinct values, all in P except at the places in `held`: there are no more of them
      than P and `held` can account for. */
  lemma {:induction false} Pigeonhole(f: seq<int>, held: set<int>, P: set<int>)
    requires forall i :: 0 <= i < |f| && i !in held ==> f[i] in P
    requires forall i, j :: 0 <= i < j < |f| && i !in held && j !in held ==> f[i] != f[j]
    ensures |f| <= |held| + |P|
  {
    if f != [] {
      var n := |f| - 1;
      if n in held {
        Pigeonhole(f[..n], held - {n}, P);
      } else {
        Pigeonhole(f[..n], held, P - {f[n]});
      }
    }
  }

  /** A sequence that takes every value of P is at least as long as P is large. */
  lemma {:induction false} Covering(f: seq<int>, P: set<int>)
    requires forall x :: x in P ==> x in f
    ensures |P| <= |f|
  {
    if f == [] {
      forall x ensures x !in P {
        assert x in P ==> x in f;
      }
      assert P == {};
    } else {
      var n := |f| - 1;
      Covering(f[..n], P - {f[n]});
    }
  }

  /** If it is just as long, it takes no other value. */
  lemma ExactCovering(f: seq<int>, P: set<int>)
    requires (forall x :: x in P ==> x in f) && |P| == |f|
    ensures forall i :: 0 <= i < |f| ==> f[i] in P
  {
    forall i | 0 <= i < |f| ensures f[i] in P {
      if f[i] !in P {
        var g := f[..i] + f[i + 1..];
        forall x | x in P ensures x in g {
          var j :| 0 <= j < |f| && f[j] == x;
          assert x == if j < i then g[j] else g[j - 1];
        }
        Covering(g, P);
      }
    }
  }
}
