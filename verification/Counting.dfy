/** Sizes of finite sets: products, injective images, bounded fibres, lists over an alphabet. */
module Counting {

  function Pow(b: nat, e: nat): nat {
    if e == 0 then 1 else b * Pow(b, e - 1)
  }

  // The naturals below n.
  ghost function Range(n: nat): (r: set<nat>)
    ensures forall x: nat :: x in r <==> x < n
    ensures |r| == n
  {
    if n == 0 then {} else Range(n - 1) + {n - 1}
  }

  ghost function Pairs<A, B>(a: set<A>, b: set<B>): set<(A, B)> {
    set x, y | x in a && y in b :: (x, y)
  }

  lemma {:induction false} RowSize<A, B>(x: A, b: set<B>)
    ensures |Pairs({x}, b)| == |b|
    decreases |b|
  {
    if b == {} {
      assert Pairs({x}, b) == {};
    } else {
      var y :| y in b;
      RowSize(x, b - {y});
      assert Pairs({x}, b) == Pairs({x}, b - {y}) + {(x, y)};
    }
  }

  lemma PairsSplit<A, B>(a: set<A>, b: set<B>, x: A)
    requires x in a
    ensures |Pairs(a, b)| == |Pairs(a - {x}, b)| + |b|
  {
    RowSize(x, b);
    assert Pairs(a, b) == Pairs(a - {x}, b) + Pairs({x}, b);
    assert Pairs(a - {x}, b) !! Pairs({x}, b);
  }

  lemma MulStep(a: nat, b: nat)
    ensures (a + 1) * b == a * b + b
  {
  }

  lemma {:induction false} PairsSize<A, B>(a: set<A>, b: set<B>)
    ensures |Pairs(a, b)| == |a| * |b|
    decreases |a|
  {
    if a == {} {
      assert Pairs(a, b) == {};
    } else {
      var x :| x in a;
      PairsSize(a - {x}, b);
      PairsSplit(a, b, x);
      MulStep(|a - {x}|, |b|);
    }
  }

  ghost predicate InjectiveInto<A(!new), B>(a: set<A>, b: set<B>, f: A -> B) {
    (forall x :: x in a ==> f(x) in b) && (forall x, y :: x in a && y in a && f(x) == f(y) ==> x == y)
  }

  lemma {:induction false} InjectionSize<A(!new), B>(a: set<A>, b: set<B>, f: A -> B)
    requires InjectiveInto(a, b, f)
    ensures |a| <= |b|
    decreases |a|
  {
    if a != {} {
      var x :| x in a;
      assert InjectiveInto(a - {x}, b - {f(x)}, f);
      InjectionSize(a - {x}, b - {f(x)}, f);
    }
  }

  // f and g are mutually inverse between a and b.
  lemma BijectionSize<A(!new), B(!new)>(a: set<A>, b: set<B>, f: A -> B, g: B -> A)
    requires InjectiveInto(a, b, f) && InjectiveInto(b, a, g)
    ensures |a| == |b|
  {
    InjectionSize(a, b, f);
    InjectionSize(b, a, g);
  }

  // Lists of length k over an alphabet of m letters.
  ghost function Lists(m: nat, k: nat): set<seq<nat>> {
    if k == 0 then {[]} else set q | q in Pairs(Range(m), Lists(m, k - 1)) :: [q.0] + q.1
  }

  ghost predicate ListOf(l: seq<nat>, m: nat, k: nat) {
    |l| == k && forall i :: 0 <= i < k ==> l[i] < m
  }

  lemma {:induction false} ListsAre(m: nat, k: nat, l: seq<nat>)
    ensures l in Lists(m, k) <==> ListOf(l, m, k)
    decreases k
  {
    if k > 0 {
      if ListOf(l, m, k) {
        ListsAre(m, k - 1, l[1..]);
        assert (l[0], l[1..]) in Pairs(Range(m), Lists(m, k - 1));
        assert l == [l[0]] + l[1..];
      }
      if l in Lists(m, k) {
        var q :| q in Pairs(Range(m), Lists(m, k - 1)) && l == [q.0] + q.1;
        ListsAre(m, k - 1, q.1);
      }
    }
  }

  function Cons(q: (nat, seq<nat>)): seq<nat> { [q.0] + q.1 }

  function Uncons(l: seq<nat>): (nat, seq<nat>) { if l == [] then (0, []) else (l[0], l[1..]) }

  lemma UnconsCons(q: (nat, seq<nat>))
    ensures Uncons(Cons(q)) == q
  {
    assert Cons(q)[1..] == q.1;
  }

  lemma ConsBijective(m: nat, k: nat)
    requires k > 0
    ensures InjectiveInto(Pairs(Range(m), Lists(m, k - 1)), Lists(m, k), Cons)
    ensures InjectiveInto(Lists(m, k), Pairs(Range(m), Lists(m, k - 1)), Uncons)
  {
    var pairs := Pairs(Range(m), Lists(m, k - 1));
    forall q, r | q in pairs && r in pairs && Cons(q) == Cons(r) ensures q == r {
      UnconsCons(q);
      UnconsCons(r);
    }
    forall l | l in Lists(m, k) ensures Uncons(l) in pairs && Cons(Uncons(l)) == l {
      var q :| q in pairs && l == [q.0] + q.1;
      UnconsCons(q);
    }
  }

  lemma {:induction false} ListsSize(m: nat, k: nat)
    ensures |Lists(m, k)| == Pow(m, k)
    decreases k
  {
    if k > 0 {
      ListsSize(m, k - 1);
      PairsSize(Range(m), Lists(m, k - 1));
      ConsBijective(m, k);
      BijectionSize(Pairs(Range(m), Lists(m, k - 1)), Lists(m, k), Cons, Uncons);
    }
  }
}
