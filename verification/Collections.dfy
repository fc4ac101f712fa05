/** Optional values, and small facts about finite sets and sequences. */
module Collections {

  datatype Option<+T> = None | Some(value: T)

  /** The set {0, ..., n-1}. */
  function UpTo(n: nat): (r: set<nat>)
    ensures forall x: nat :: x in r <==> x < n
    ensures |r| == n
  {
    if n == 0 then {} else UpTo(n - 1) + {n - 1}
  }

  ghost predicate Distinct<T>(s: seq<T>) {
    forall i, j :: 0 <= i < j < |s| ==> s[i] != s[j]
  }

  function Elements<T(!new)>(s: seq<T>): (r: set<T>)
    ensures forall x :: x in r <==> x in s
  {
    set x | x in s
  }

  lemma {:induction false} DistinctCard<T(!new)>(s: seq<T>)
    requires Distinct(s)
    ensures |Elements(s)| == |s|
  {
    if s != [] {
      var n := |s| - 1;
      var t := s[..n];
      DistinctCard(t);
      assert s == t + [s[n]];
      assert s[n] !in t;
      assert Elements(s) == Elements(t) + {s[n]};
    }
  }

  lemma {:induction false} SubsetCard<T>(a: set<T>, b: set<T>)
    requires a <= b
    ensures |a| <= |b|
  {
    if a != {} {
      var x :| x in a;
      SubsetCard(a - {x}, b - {x});
    }
  }

  /** Distinct numbers below `bound` that miss one of them are fewer than `bound`. */
  lemma DistinctBelow(s: seq<nat>, bound: nat, missing: nat)
    requires Distinct(s) && missing < bound && missing !in s
    requires forall x :: x in s ==> x < bound
    ensures |s| < bound
  {
    DistinctCard(s);
    SubsetCard(Elements(s), UpTo(bound) - {missing});
  }

  lemma DropLast<T>(s: seq<T>)
    requires Distinct(s) && s != []
    ensures Distinct(s[..|s| - 1])
    ensures s[|s| - 1] !in s[..|s| - 1]
    ensures forall x :: x in s[..|s| - 1] <==> x in s && x != s[|s| - 1]
  {
    forall x | x in s && x != s[|s| - 1] ensures x in s[..|s| - 1] {
      var i :| 0 <= i < |s| && s[i] == x;
      assert s[..|s| - 1][i] == x;
    }
  }
}
