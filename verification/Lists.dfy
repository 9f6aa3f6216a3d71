/** Lists without repetition. */
module Lists {

  predicate NoDup<T(==)>(l: seq<T>) {
    forall i, j :: 0 <= i < j < |l| ==> l[i] != l[j]
  }

  function Without(l: seq<nat>, b: nat): seq<nat> {
    if l == [] then [] else if l[0] == b then l[1..] else [l[0]] + Without(l[1..], b)
  }

  lemma {:induction false} WithoutFacts(l: seq<nat>, b: nat)
    requires NoDup(l) && b in l
    ensures NoDup(Without(l, b)) && |Without(l, b)| == |l| - 1
    ensures forall c :: c in Without(l, b) <==> c in l && c != b
  {
    if l[0] != b {
      WithoutFacts(l[1..], b);
      assert l[0] !in l[1..];
    }
  }

  lemma {:induction false} WithoutAt(l: seq<nat>, k: nat)
    requires NoDup(l) && k < |l|
    ensures Without(l, l[k]) == l[..k] + l[k + 1..]
    decreases k
  {
    if k > 0 {
      assert l[1..][k - 1] == l[k] && l[0] != l[k];
      WithoutAt(l[1..], k - 1);
      assert l[1..][..k - 1] == l[1..k] && l[1..][k - 1 + 1..] == l[k + 1..];
      assert l[..k] == [l[0]] + l[1..k];
    }
  }

  lemma {:induction false} SetOfList<T>(l: seq<T>)
    requires NoDup(l)
    ensures |set x | x in l| == |l|
  {
    if l != [] {
      SetOfList(l[1..]);
      assert (set x | x in l) == {l[0]} + set x | x in l[1..];
      assert l[0] !in l[1..];
    }
  }

  predicate Below(c: nat, n: nat) {
    c < n
  }

  /** The numbers below `n`. */
  ghost function UpTo(n: nat): set<nat> {
    set c: nat | c < n && Below(c, n)
  }

  lemma {:induction false} UpToCount(n: nat)
    ensures |UpTo(n)| == n
  {
    if n > 0 {
      UpToCount(n - 1);
      assert UpTo(n) == {n - 1} + UpTo(n - 1);
    }
  }

  /** A list without repetition of numbers below `n` that misses one of them is shorter than `n`. */
  lemma ShorterList(l: seq<nat>, n: nat, c: nat)
    requires NoDup(l) && c < n && c !in l && forall x :: x in l ==> x < n
    ensures |l| < n
  {
    SetOfList(l);
    UpToCount(n);
    var s := set x | x in l;
    SubsetCount(s + {c}, UpTo(n));
  }

  lemma {:induction false} SubsetCount<T>(a: set<T>, b: set<T>)
    requires a <= b
    ensures |a| <= |b|
  {
    if a != {} {
      var x :| x in a;
      SubsetCount(a - {x}, b - {x});
    }
  }
}
