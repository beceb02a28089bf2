/** The dynamic program of the strength estimator over any way of pricing segments: the cheapest cover of
    the positions 0..n by segments, the arrays that compute it, and the cover their back-pointers spell. */
module CheapestCover {

  datatype Segment<C> = NoMatch | Segment(bits: real, code: C)

  // A cover that does not exist costs Inf.
  datatype Cost = Inf | Bits(v: real)

  type Edges<!C> = (nat, nat) -> Segment<C>

  ghost predicate AtMost(a: Cost, b: Cost) {
    b.Inf? || (a.Bits? && a.v <= b.v)
  }

  // relax: an improvement replaces, a tie does not.
  function Cheaper(a: Cost, b: Cost): (r: Cost)
    ensures r == a || r == b
    ensures AtMost(r, a) && AtMost(r, b)
  {
    if b.Inf? then a else if a.Inf? || b.v < a.v then b else a
  }

  function Extend<C>(before: Cost, seg: Segment<C>): Cost {
    if before.Inf? || seg.NoMatch? then Inf else Bits(before.v + seg.bits)
  }

  /** The cheapest cover of 0..j whose last segment starts before i. */
  function Reach<C>(edge: Edges<C>, j: nat, i: nat): Cost
    requires i <= j
    decreases i
  {
    if j == 0 then Bits(0.0)
    else if i == 0 then Inf
    else Cheaper(Reach(edge, j, i - 1), Extend(Reach(edge, i - 1, i - 1), edge(i - 1, j)))
  }

  // ----- covers ---------------------------------------------------------------------------

  // Cut points from 0 to j, every segment between neighbours priced.
  ghost predicate Covers<C>(edge: Edges<C>, cuts: seq<nat>, j: nat) {
    && cuts != [] && cuts[0] == 0 && cuts[|cuts| - 1] == j
    && forall k :: 0 < k < |cuts| ==> cuts[k - 1] < cuts[k] && edge(cuts[k - 1], cuts[k]).Segment?
  }

  ghost function Price<C>(edge: Edges<C>, cuts: seq<nat>): real
    requires forall k :: 0 < k < |cuts| ==> edge(cuts[k - 1], cuts[k]).Segment?
    decreases |cuts|
  {
    if |cuts| <= 1 then 0.0
    else Price(edge, cuts[..|cuts| - 1]) + edge(cuts[|cuts| - 2], cuts[|cuts| - 1]).bits
  }

  lemma CoversPrefix<C>(edge: Edges<C>, cuts: seq<nat>, j: nat)
    requires Covers(edge, cuts, j) && |cuts| > 1
    ensures Covers(edge, cuts[..|cuts| - 1], cuts[|cuts| - 2]) && cuts[|cuts| - 2] < j
    ensures edge(cuts[|cuts| - 2], j).Segment?
    ensures Price(edge, cuts) == Price(edge, cuts[..|cuts| - 1]) + edge(cuts[|cuts| - 2], j).bits
  {
    var pre := cuts[..|cuts| - 1];
    forall k | 0 < k < |pre| ensures pre[k - 1] < pre[k] && edge(pre[k - 1], pre[k]).Segment? {
      assert pre[k - 1] == cuts[k - 1] && pre[k] == cuts[k];
    }
  }

  lemma {:induction false} ReachImproves<C>(edge: Edges<C>, j: nat, i: nat, k: nat)
    requires i <= k <= j
    ensures AtMost(Reach(edge, j, k), Reach(edge, j, i))
    decreases k
  {
    if i < k { ReachImproves(edge, j, i, k - 1); }
  }

  /** No cover is cheaper. */
  lemma {:induction false} NoneCheaper<C>(edge: Edges<C>, cuts: seq<nat>, j: nat)
    requires Covers(edge, cuts, j)
    ensures AtMost(Reach(edge, j, j), Bits(Price(edge, cuts)))
    decreases |cuts|
  {
    if |cuts| > 1 {
      var i := cuts[|cuts| - 2];
      CoversPrefix(edge, cuts, j);
      NoneCheaper(edge, cuts[..|cuts| - 1], i);
      assert Reach(edge, j, i + 1) == Cheaper(Reach(edge, j, i), Extend(Reach(edge, i, i), edge(i, j)));
      ReachImproves(edge, j, i + 1, j);
    }
  }

  lemma Appended<C>(edge: Edges<C>, cuts: seq<nat>, i: nat, j: nat)
    requires Covers(edge, cuts, i) && i < j && edge(i, j).Segment?
    ensures Covers(edge, cuts + [j], j) && Price(edge, cuts + [j]) == Price(edge, cuts) + edge(i, j).bits
  {
    var all := cuts + [j];
    forall k | 0 < k < |all| ensures all[k - 1] < all[k] && edge(all[k - 1], all[k]).Segment? {
      if k < |cuts| { assert all[k - 1] == cuts[k - 1] && all[k] == cuts[k]; }
    }
    assert all[..|all| - 1] == cuts;
  }

  /** Some cover costs exactly that. */
  lemma {:induction false} Attained<C>(edge: Edges<C>, j: nat, i: nat) returns (cuts: seq<nat>)
    requires i <= j && Reach(edge, j, i).Bits?
    ensures Covers(edge, cuts, j) && Price(edge, cuts) == Reach(edge, j, i).v
    decreases i
  {
    if j == 0 {
      cuts := [0];
    } else if Reach(edge, j, i) == Reach(edge, j, i - 1) {
      cuts := Attained(edge, j, i - 1);
    } else {
      cuts := Attained(edge, i - 1, i - 1);
      Appended(edge, cuts, i - 1, j);
      cuts := cuts + [j];
    }
  }

  ghost predicate StepPriced<C>(edge: Edges<C>, i: nat) {
    edge(i, i + 1).Segment?
  }

  // Where every single step is priced, everything can be covered.
  lemma {:induction false} Reachable<C>(edge: Edges<C>, j: nat)
    requires forall i: nat :: i < j ==> StepPriced(edge, i)
    ensures Reach(edge, j, j).Bits?
    decreases j
  {
    if j > 0 {
      Reachable(edge, j - 1);
      assert StepPriced(edge, j - 1);
      assert Reach(edge, j, j) == Cheaper(Reach(edge, j, j - 1), Extend(Reach(edge, j - 1, j - 1), edge(j - 1, j)));
    }
  }

  // Every segment priced by edge is priced by edge' at no more.
  ghost predicate Discount<C(!new)>(edge: Edges<C>, edge': Edges<C>) {
    forall i: nat, j: nat :: edge(i, j).Segment? ==> edge'(i, j).Segment? && edge'(i, j).bits <= edge(i, j).bits
  }

  /** Cheaper segments never make the cheapest cover dearer. */
  lemma {:induction false} ReachMonotone<C(!new)>(edge: Edges<C>, edge': Edges<C>, j: nat, i: nat)
    requires i <= j && Discount(edge, edge')
    ensures AtMost(Reach(edge', j, i), Reach(edge, j, i))
    decreases i
  {
    if j > 0 && i > 0 {
      ReachMonotone(edge, edge', j, i - 1);
      ReachMonotone(edge, edge', i - 1, i - 1);
    }
  }

  // ----- the tables -------------------------------------------------------------------------

  // Entry j after the sources before i have been relaxed.
  ghost function Entry<C>(edge: Edges<C>, j: nat, i: nat): Cost {
    Reach(edge, j, if i < j then i else j)
  }

  // Entries below m have seen source i too, the others only the sources before it.
  ghost predicate Filled<C>(edge: Edges<C>, best: seq<Cost>, i: nat, m: nat) {
    forall j :: 0 <= j < |best| ==> best[j] == Entry(edge, j, if j < m then i + 1 else i)
  }

  // A cover of j whose last segment starts at i costs more.
  ghost predicate Dearer<C>(edge: Edges<C>, cost: Cost, i: nat, j: nat) {
    var c := Extend(Reach(edge, i, i), edge(i, j));
    c.Inf? || (cost.Bits? && cost.v < c.v)
  }

  lemma NoneBelow<C>(edge: Edges<C>, j: nat, i: nat, k: nat)
    requires k < i <= j
    ensures AtMost(Reach(edge, j, i), Extend(Reach(edge, k, k), edge(k, j)))
  {
    ReachImproves(edge, j, k + 1, i);
  }

  // A reached position points back at the segment that reached it, the one with the earliest start of those as cheap.
  ghost predicate PointsBack<C>(edge: Edges<C>, best: seq<Cost>, from: seq<nat>, via: seq<C>, j: nat)
    requires j < |best| == |from| == |via|
  {
    best[j].Bits? && j > 0 ==>
      && from[j] < j && edge(from[j], j).Segment? && edge(from[j], j).code == via[j]
      && best[j] == Extend(Reach(edge, from[j], from[j]), edge(from[j], j))
      && forall i: nat :: i < from[j] ==> Dearer(edge, best[j], i, j)
  }

  ghost predicate Pointers<C>(edge: Edges<C>, best: seq<Cost>, from: seq<nat>, via: seq<C>) {
    |best| == |from| == |via| && forall j :: 0 <= j < |best| ==> PointsBack(edge, best, from, via, j)
  }

  // The three tables after relaxing position j from source i.
  predicate Improves<C>(best: seq<Cost>, i: nat, j: nat, seg: Segment<C>)
    requires i < |best| && j < |best|
  {
    var c := Extend(best[i], seg);
    c.Bits? && (best[j].Inf? || c.v < best[j].v)
  }

  lemma RelaxFills<C>(edge: Edges<C>, best: seq<Cost>, i: nat, j: nat)
    requires i < j < |best| && Filled(edge, best, i, j)
    ensures Improves(best, i, j, edge(i, j)) ==> Filled(edge, best[j := Extend(best[i], edge(i, j))], i, j + 1)
    ensures !Improves(best, i, j, edge(i, j)) ==> Filled(edge, best, i, j + 1)
  {
    assert best[i] == Entry(edge, i, i + 1) == Reach(edge, i, i);
    assert Entry(edge, j, i + 1) == Cheaper(Entry(edge, j, i), Extend(best[i], edge(i, j)));
  }

  lemma RelaxPoints<C>(edge: Edges<C>, best: seq<Cost>, from: seq<nat>, via: seq<C>, i: nat, j: nat)
    requires i < j < |best| && Filled(edge, best, i, j) && Pointers(edge, best, from, via)
    requires Improves(best, i, j, edge(i, j))
    ensures Pointers(edge, best[j := Extend(best[i], edge(i, j))], from[j := i], via[j := edge(i, j).code])
  {
    var best', from', via' := best[j := Extend(best[i], edge(i, j))], from[j := i], via[j := edge(i, j).code];
    assert best[i] == Entry(edge, i, i + 1) == Reach(edge, i, i);
    forall k: nat | k < i ensures Dearer(edge, best'[j], k, j) { NoneBelow(edge, j, i, k); }
    forall k | 0 <= k < |best'| ensures PointsBack(edge, best', from', via', k) {
      assert PointsBack(edge, best, from, via, k);
    }
  }

  lemma NextSource<C>(edge: Edges<C>, best: seq<Cost>, i: nat)
    requires Filled(edge, best, i, |best|)
    ensures Filled(edge, best, i + 1, 0)
  {
  }

  // A source reaches nothing at or before itself.
  lemma StartSource<C>(edge: Edges<C>, best: seq<Cost>, i: nat)
    requires Filled(edge, best, i, 0)
    ensures Filled(edge, best, i, i + 1)
  {
  }

  predicate Apart<C>(best: array<Cost>, from: array<nat>, via: array<C>) {
    best as object != from && best as object != via && from as object != via
  }

  method Relax<C>(edge: Edges<C>, best: array<Cost>, from: array<nat>, via: array<C>, i: nat, j: nat)
    requires best.Length == from.Length == via.Length && i < j < best.Length && Apart(best, from, via)
    requires Filled(edge, best[..], i, j) && Pointers(edge, best[..], from[..], via[..])
    modifies best, from, via
    ensures Filled(edge, best[..], i, j + 1) && Pointers(edge, best[..], from[..], via[..])
  {
    RelaxFills(edge, best[..], i, j);
    if Improves(best[..], i, j, edge(i, j)) {
      RelaxPoints(edge, best[..], from[..], via[..], i, j);
      best[j], from[j], via[j] := Extend(best[i], edge(i, j)), i, edge(i, j).code;
    }
  }

  /** estimate's nested loops: best, from and via for every position. */
  method Fill<C(0)>(edge: Edges<C>, n: nat, none: C) returns (best: array<Cost>, from: array<nat>, via: array<C>)
    ensures best.Length == from.Length == via.Length == n + 1
    ensures Filled(edge, best[..], n, 0) && Pointers(edge, best[..], from[..], via[..])
  {
    best := new Cost[n + 1](j => if j == 0 then Bits(0.0) else Inf);
    from := new nat[n + 1](_ => 0);
    via := new C[n + 1](_ => none);
    for i := 0 to n
      invariant fresh(best) && fresh(from) && fresh(via) && Apart(best, from, via)
      invariant Filled(edge, best[..], i, 0) && Pointers(edge, best[..], from[..], via[..])
    {
      StartSource(edge, best[..], i);
      for j := i + 1 to n + 1
        invariant fresh(best) && fresh(from) && fresh(via) && Apart(best, from, via)
        invariant Filled(edge, best[..], i, j) && Pointers(edge, best[..], from[..], via[..])
      {
        Relax(edge, best, from, via, i, j);
      }
      NextSource(edge, best[..], i);
    }
  }

  // ----- reading the back-pointers ------------------------------------------------------------

  ghost function CodesOf<C>(edge: Edges<C>, cuts: seq<nat>): set<C>
    requires forall k :: 0 < k < |cuts| ==> edge(cuts[k - 1], cuts[k]).Segment?
    decreases |cuts|
  {
    if |cuts| <= 1 then {}
    else CodesOf(edge, cuts[..|cuts| - 1]) + {edge(cuts[|cuts| - 2], cuts[|cuts| - 1]).code}
  }

  ghost function WalkCodes<C>(from: seq<nat>, via: seq<C>, j: nat): set<C>
    requires j < |from| == |via|
  {
    if j == 0 || from[j] >= j then {} else WalkCodes(from, via, from[j]) + {via[j]}
  }

  // Every segment of the cover starts as early as one of a cheapest cover of its end can.
  ghost predicate Earliest<C>(edge: Edges<C>, cuts: seq<nat>) {
    forall k, i: nat :: 0 < k < |cuts| && i < cuts[k - 1] ==> Dearer(edge, Reach(edge, cuts[k], cuts[k]), i, cuts[k])
  }

  /** The back-pointers from j spell a cover of the price in the table, with the codes met on the way; of the cheapest
      covers it is the one whose segments start earliest, seen from the end. */
  lemma {:induction false} Spelled<C>(edge: Edges<C>, best: seq<Cost>, from: seq<nat>, via: seq<C>, i: nat, j: nat) returns (cuts: seq<nat>)
    requires Filled(edge, best, i, 0) && Pointers(edge, best, from, via) && j < |best| <= i + 1 && best[j].Bits?
    ensures Covers(edge, cuts, j) && Price(edge, cuts) == best[j].v && CodesOf(edge, cuts) == WalkCodes(from, via, j)
    ensures Earliest(edge, cuts)
    decreases j
  {
    if j == 0 {
      cuts := [0];
    } else {
      assert PointsBack(edge, best, from, via, j);
      var pre := Spelled(edge, best, from, via, i, from[j]);
      Appended(edge, pre, from[j], j);
      cuts := pre + [j];
      assert cuts[..|cuts| - 1] == pre;
      assert best[j] == Reach(edge, j, j);
      forall k, x: nat | 0 < k < |cuts| && x < cuts[k - 1] ensures Dearer(edge, Reach(edge, cuts[k], cuts[k]), x, cuts[k]) {
        if k < |pre| { assert cuts[k] == pre[k] && cuts[k - 1] == pre[k - 1]; }
      }
    }
  }

  method ReadBack<C(==)>(from: array<nat>, via: array<C>, n: nat) returns (codes: set<C>)
    requires n < from.Length == via.Length && forall j :: 0 < j <= n ==> from[j] < j
    ensures codes == WalkCodes(from[..], via[..], n)
  {
    codes := {};
    var j: nat := n;
    while j > 0
      invariant j <= n
      invariant WalkCodes(from[..], via[..], n) == codes + WalkCodes(from[..], via[..], j)
    {
      codes := codes + {via[j]};
      j := from[j];
    }
  }
}
