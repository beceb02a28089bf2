/** The Fisher-Yates shuffle: draw sequences and permutations correspond one to one. */
module Shuffle {

  function Swap<T>(a: seq<T>, i: nat, j: nat): seq<T>
    requires i < |a| && j < |a|
  {
    a[i := a[j]][j := a[i]]
  }

  // draws[i] is the index drawn for position i; position 0 has nothing to draw.
  ghost predicate Draws(draws: seq<nat>, n: nat) {
    |draws| == n && forall i :: 0 <= i < n ==> draws[i] <= i
  }

  // Positions i, i-1, ..., 1 are still to be settled.
  function Shuffled<T>(a: seq<T>, draws: seq<nat>, i: nat): seq<T>
    requires i < |a| == |draws| && forall k :: 0 <= k <= i ==> draws[k] <= k
    decreases i
  {
    if i == 0 then a else Shuffled(Swap(a, i, draws[i]), draws, i - 1)
  }

  /** cryptoShuffleInPlace, the draws given. */
  method ShuffleInPlace<T>(a: array<T>, draws: seq<nat>)
    requires Draws(draws, a.Length)
    modifies a
    ensures a.Length > 0 ==> a[..] == Shuffled(old(a[..]), draws, a.Length - 1)
  {
    if a.Length == 0 { return; }
    var i := a.Length - 1;
    while i > 0
      invariant 0 <= i < a.Length
      invariant Shuffled(a[..], draws, i) == Shuffled(old(a[..]), draws, a.Length - 1)
    {
      var j := draws[i];
      ghost var before := a[..];
      a[i], a[j] := a[j], a[i];
      assert a[..] == Swap(before, i, j);
      i := i - 1;
    }
  }

  lemma SwapMultiset<T>(a: seq<T>, i: nat, j: nat)
    requires i < |a| && j < |a|
    ensures multiset(Swap(a, i, j)) == multiset(a)
  {
  }

  lemma SwapAt<T>(a: seq<T>, i: nat, j: nat)
    requires i < |a| && j < |a|
    ensures |Swap(a, i, j)| == |a| && Swap(a, i, j)[i] == a[j]
    ensures forall k :: 0 <= k < |a| && k != i && k != j ==> Swap(a, i, j)[k] == a[k]
  {
  }

  lemma {:induction false} SettledStay<T>(a: seq<T>, draws: seq<nat>, i: nat)
    requires i < |a| == |draws| && forall k :: 0 <= k <= i ==> draws[k] <= k
    ensures |Shuffled(a, draws, i)| == |a| && forall k :: i < k < |a| ==> Shuffled(a, draws, i)[k] == a[k]
    decreases i
  {
    if i > 0 {
      SwapAt(a, i, draws[i]);
      SettledStay(Swap(a, i, draws[i]), draws, i - 1);
    }
  }

  // Every shuffle is a permutation, and leaves the settled positions alone.
  lemma {:induction false} ShuffledPermutes<T>(a: seq<T>, draws: seq<nat>, i: nat)
    requires i < |a| == |draws| && forall k :: 0 <= k <= i ==> draws[k] <= k
    ensures var b := Shuffled(a, draws, i);
            |b| == |a| && multiset(b) == multiset(a) && forall k :: i < k < |a| ==> b[k] == a[k]
    decreases i
  {
    SettledStay(a, draws, i);
    if i > 0 {
      SwapMultiset(a, i, draws[i]);
      ShuffledPermutes(Swap(a, i, draws[i]), draws, i - 1);
    }
  }

  ghost predicate Distinct<T>(a: seq<T>) {
    forall i, j :: 0 <= i < j < |a| ==> a[i] != a[j]
  }

  lemma SwapDistinct<T>(a: seq<T>, i: nat, j: nat)
    requires i < |a| && j < |a| && Distinct(a)
    ensures Distinct(Swap(a, i, j))
  {
  }

  lemma {:induction false} OneSettled<T>(a: seq<T>, draws: seq<nat>, i: nat, k: nat)
    requires i < k < |a| == |draws| && forall m :: 0 <= m <= i ==> draws[m] <= m
    ensures |Shuffled(a, draws, i)| == |a| && Shuffled(a, draws, i)[k] == a[k]
  {
    SettledStay(a, draws, i);
  }

  // Position i is settled by the draw for it.
  lemma {:induction false} SettledAt<T>(a: seq<T>, d: seq<nat>, i: nat)
    requires 0 < i < |a| == |d| && forall k :: 0 <= k <= i ==> d[k] <= k
    ensures |Shuffled(a, d, i)| == |a| && Shuffled(a, d, i)[i] == a[d[i]]
  {
    SwapAt(a, i, d[i]);
    OneSettled(Swap(a, i, d[i]), d, i - 1, i);
  }

  /** Different draws give different orders. */
  lemma {:induction false} ShuffledInjective<T>(a: seq<T>, d: seq<nat>, e: seq<nat>, i: nat)
    requires i < |a| == |d| == |e| && Distinct(a)
    requires forall k :: 0 <= k <= i ==> d[k] <= k && e[k] <= k
    requires Shuffled(a, d, i) == Shuffled(a, e, i)
    ensures forall k :: 0 <= k <= i ==> d[k] == e[k]
    decreases i
  {
    if i > 0 {
      SettledAt(a, d, i);
      SettledAt(a, e, i);
      assert d[i] == e[i];
      SwapDistinct(a, i, d[i]);
      ShuffledInjective(Swap(a, i, d[i]), d, e, i - 1);
    }
  }

  // Index of an element.
  lemma Found<T>(a: seq<T>, x: T) returns (j: nat)
    requires multiset(a)[x] > 0
    ensures j < |a| && a[j] == x
  {
    assert x in multiset(a);
    j :| 0 <= j < |a| && a[j] == x;
  }

  lemma WithoutLast<T>(a: seq<T>)
    requires a != []
    ensures multiset(a[..|a| - 1]) == multiset(a) - multiset{a[|a| - 1]}
  {
    assert a == a[..|a| - 1] + [a[|a| - 1]];
  }

  lemma LastOff<T>(a: seq<T>, b: seq<T>)
    requires a != [] && b != [] && multiset(a) == multiset(b) && a[|a| - 1] == b[|b| - 1]
    ensures multiset(a[..|a| - 1]) == multiset(b[..|b| - 1])
  {
    WithoutLast(a);
    WithoutLast(b);
  }

  // Settling positions up to i of a so that they read as in b.
  lemma {:induction false} ShuffledOnto<T>(a: seq<T>, b: seq<T>, i: nat) returns (draws: seq<nat>)
    requires i < |a| == |b| && multiset(a[..i + 1]) == multiset(b[..i + 1])
    requires a[i + 1..] == b[i + 1..]
    ensures |draws| == |a| && (forall k :: 0 <= k <= i ==> draws[k] <= k)
    ensures Shuffled(a, draws, i) == b
    decreases i
  {
    if i == 0 {
      draws := seq(|a|, k => 0);
      Lone(a[..1], b[..1]);
      assert a == a[..1] + a[1..] && b == b[..1] + b[1..];
    } else {
      var last := b[i];
      assert b[..i + 1][i] == last;
      assert multiset(b[..i + 1])[last] > 0;
      var j := Found(a[..i + 1], last);
      var a' := Swap(a, i, j);
      SettleLast(a, b, i, j);
      var earlier := ShuffledOnto(a', b, i - 1);
      draws := earlier[i := j];
      Unread(a', earlier, draws, i - 1);
    }
  }

  lemma Lone<T>(a: seq<T>, b: seq<T>)
    requires |a| == |b| == 1 && multiset(a) == multiset(b)
    ensures a == b
  {
    assert a == [a[0]] && b == [b[0]];
    assert a[0] in multiset(b);
  }

  lemma SettleLast<T>(a: seq<T>, b: seq<T>, i: nat, j: nat)
    requires 0 < i < |a| == |b| && j <= i && a[j] == b[i]
    requires multiset(a[..i + 1]) == multiset(b[..i + 1]) && a[i + 1..] == b[i + 1..]
    ensures multiset(Swap(a, i, j)[..i]) == multiset(b[..i])
    ensures Swap(a, i, j)[i..] == b[i..]
  {
    var a' := Swap(a, i, j);
    assert a'[..i + 1] == Swap(a[..i + 1], i, j);
    SwapMultiset(a[..i + 1], i, j);
    LastOff(a'[..i + 1], b[..i + 1]);
    assert a'[..i + 1][..i] == a'[..i] && b[..i + 1][..i] == b[..i];
    forall k | i <= k < |a| ensures a'[k] == b[k] {
      if k > i { assert a[i + 1..][k - i - 1] == b[i + 1..][k - i - 1]; }
    }
  }

  // The draw of a settled position is not read again.
  lemma {:induction false} Unread<T>(a: seq<T>, d: seq<nat>, e: seq<nat>, i: nat)
    requires i < |a| == |d| == |e| && forall k :: 0 <= k <= i ==> d[k] <= k && d[k] == e[k]
    ensures Shuffled(a, d, i) == Shuffled(a, e, i)
    decreases i
  {
    if i > 0 { Unread(Swap(a, i, d[i]), d, e, i - 1); }
  }

  /** Every permutation is reached, by exactly one sequence of draws when the elements are distinct. */
  lemma DrawsMatchPermutations<T>(a: seq<T>, b: seq<T>) returns (draws: seq<nat>)
    requires a != [] && |a| == |b| && multiset(a) == multiset(b)
    ensures Draws(draws, |a|) && Shuffled(a, draws, |a| - 1) == b
    ensures Distinct(a) ==> forall e :: Draws(e, |a|) && Shuffled(a, e, |a| - 1) == b ==> e == draws
  {
    var n := |a| - 1;
    assert a[..n + 1] == a && b[..n + 1] == b;
    draws := ShuffledOnto(a, b, n);
    if Distinct(a) {
      forall e | Draws(e, |a|) && Shuffled(a, e, n) == b ensures e == draws { ShuffledInjective(a, e, draws, n); }
    }
  }
}
