/** Grouping citations that may come out as the same text: union-find with path compression over "shares an
    output key", and the size of the largest group. */
module CitationGroups {

  // ----- components ----------------------------------------------------------------------

  // keys[i]: the output keys citation i can reach.
  ghost predicate Shares(keys: seq<seq<string>>, i: nat, j: nat) {
    i < |keys| && j < |keys| && exists k :: k in keys[i] && k in keys[j]
  }

  ghost predicate Path(keys: seq<seq<string>>, path: seq<nat>) {
    path != [] && path[0] < |keys| && forall x :: 0 < x < |path| ==> Shares(keys, path[x - 1], path[x])
  }

  ghost predicate Leads(keys: seq<seq<string>>, path: seq<nat>, i: nat, j: nat) {
    Path(keys, path) && path[0] == i && path[|path| - 1] == j
  }

  /** A chain of citations, each sharing a key with the next, leads from i to j. */
  ghost predicate Connected(keys: seq<seq<string>>, i: nat, j: nat) {
    exists path :: Leads(keys, path, i, j)
  }

  lemma Reflexive(keys: seq<seq<string>>, i: nat)
    requires i < |keys|
    ensures Connected(keys, i, i)
  {
    assert Leads(keys, [i], i, i);
  }

  lemma Linked(keys: seq<seq<string>>, i: nat, j: nat)
    requires Shares(keys, i, j)
    ensures Connected(keys, i, j)
  {
    assert Leads(keys, [i, j], i, j);
  }

  lemma Transitive(keys: seq<seq<string>>, i: nat, j: nat, k: nat)
    requires Connected(keys, i, j) && Connected(keys, j, k)
    ensures Connected(keys, i, k)
  {
    var a :| Leads(keys, a, i, j);
    var b :| Leads(keys, b, j, k);
    var c := a + b[1..];
    forall x | 0 < x < |c| ensures Shares(keys, c[x - 1], c[x]) {
      if x < |a| {
        assert c[x - 1] == a[x - 1] && c[x] == a[x];
      } else {
        assert c[x] == b[x - |a| + 1] && c[x - 1] == b[x - |a|];
      }
    }
    assert Leads(keys, c, i, k);
  }

  lemma {:induction false} Symmetric(keys: seq<seq<string>>, i: nat, j: nat)
    requires Connected(keys, i, j)
    ensures Connected(keys, j, i)
  {
    var a :| Leads(keys, a, i, j);
    Backwards(keys, a);
  }

  lemma {:induction false} Backwards(keys: seq<seq<string>>, a: seq<nat>)
    requires Path(keys, a)
    ensures a[|a| - 1] < |keys| && Connected(keys, a[|a| - 1], a[0])
    decreases |a|
  {
    var n := |a| - 1;
    if n == 0 {
      Reflexive(keys, a[0]);
    } else {
      Backwards(keys, a[..n]);
      assert Shares(keys, a[n - 1], a[n]);
      assert Shares(keys, a[n], a[n - 1]);
      Linked(keys, a[n], a[n - 1]);
      Transitive(keys, a[n], a[n - 1], a[0]);
    }
  }

  // ----- the forest --------------------------------------------------------------------------

  // rep[i] is the root of i; rank falls on the way to it.
  ghost predicate NodeOk(p: seq<nat>, rep: seq<nat>, rank: seq<nat>, i: nat)
    requires |p| == |rep| == |rank|
  {
    && i < |p| && p[i] < |p| && rep[i] < |p|
    && rep[p[i]] == rep[i] && rep[rep[i]] == rep[i] && (p[i] == i <==> rep[i] == i)
    && rank[rep[i]] <= rank[i] && (p[i] != i ==> rank[p[i]] < rank[i])
  }

  ghost predicate Forest(p: seq<nat>, rep: seq<nat>, rank: seq<nat>) {
    |p| == |rep| == |rank| && forall i :: 0 <= i < |p| ==> NodeOk(p, rep, rank, i)
  }

  // Pointing a node straight at its root.
  lemma CompressOk(p: seq<nat>, rep: seq<nat>, rank: seq<nat>, i: nat)
    requires Forest(p, rep, rank) && i < |p| && rep[i] != i
    ensures rep[i] < |p| && Forest(p[i := rep[i]], rep, rank)
  {
    assert NodeOk(p, rep, rank, i);
    var p' := p[i := rep[i]];
    assert NodeOk(p, rep, rank, p[i]);
    assert NodeOk(p, rep, rank, rep[i]);
    forall j | 0 <= j < |p'| ensures NodeOk(p', rep, rank, j) { assert NodeOk(p, rep, rank, j); }
  }

  /** find: the root of i, pointing every node on the way straight at it. */
  method Find(parent: array<nat>, i: nat, ghost rep: seq<nat>, ghost rank: seq<nat>) returns (r: nat)
    requires i < parent.Length && Forest(parent[..], rep, rank)
    modifies parent
    ensures Forest(parent[..], rep, rank) && r == rep[i] < parent.Length
    decreases rank[i]
  {
    assert NodeOk(parent[..], rep, rank, i);
    if parent[i] != i {
      r := Find(parent, parent[i], rep, rank);
      CompressOk(parent[..], rep, rank, i);
      parent[i] := r;
    }
    r := parent[i];
  }

  // Hanging root a under root b.
  ghost function MergedRep(rep: seq<nat>, a: nat, b: nat): seq<nat> {
    seq(|rep|, x requires 0 <= x < |rep| => if rep[x] == a then b else rep[x])
  }

  ghost function MergedRank(rep: seq<nat>, rank: seq<nat>, a: nat, b: nat): seq<nat>
    requires |rep| == |rank| && b < |rank|
  {
    seq(|rep|, x requires 0 <= x < |rep| => if rep[x] == a then rank[x] + rank[b] + 1 else rank[x])
  }

  lemma MergeOk(p: seq<nat>, rep: seq<nat>, rank: seq<nat>, a: nat, b: nat)
    requires Forest(p, rep, rank) && a < |p| && b < |p| && rep[a] == a && rep[b] == b && a != b
    ensures Forest(p[a := b], MergedRep(rep, a, b), MergedRank(rep, rank, a, b))
  {
    var p', rep', rank' := p[a := b], MergedRep(rep, a, b), MergedRank(rep, rank, a, b);
    forall i | 0 <= i < |p'| ensures NodeOk(p', rep', rank', i) {
      assert NodeOk(p, rep, rank, i);
    }
  }

  // ----- which classes are joined -----------------------------------------------------------

  ghost predicate Sound(keys: seq<seq<string>>, rep: seq<nat>) {
    |rep| == |keys| && forall a, b :: 0 <= a < |rep| && 0 <= b < |rep| && rep[a] == rep[b] ==> Connected(keys, a, b)
  }

  lemma MergeSound(keys: seq<seq<string>>, rep: seq<nat>, i: nat, o: nat)
    requires Sound(keys, rep) && i < |rep| && o < |rep| && Shares(keys, i, o)
    ensures Sound(keys, MergedRep(rep, rep[i], rep[o]))
  {
    var rep' := MergedRep(rep, rep[i], rep[o]);
    forall a, b | 0 <= a < |rep'| && 0 <= b < |rep'| && rep'[a] == rep'[b] ensures Connected(keys, a, b) {
      if rep[a] != rep[b] {
        Linked(keys, i, o);
        if rep[a] == rep[i] {
          Transitive(keys, a, i, o);
          Transitive(keys, a, o, b);
        } else {
          Transitive(keys, b, i, o);
          Transitive(keys, b, o, a);
          Symmetric(keys, b, a);
        }
      }
    }
  }

  // Key k of citation a has an owner in the same class.
  ghost predicate Filed(keys: seq<seq<string>>, rep: seq<nat>, owner: map<string, nat>, a: nat, k: string) {
    k in owner && owner[k] < |rep| && a < |rep| && rep[a] == rep[owner[k]]
  }

  ghost predicate Owned(keys: seq<seq<string>>, owner: map<string, nat>) {
    forall k :: k in owner ==> owner[k] < |keys| && k in keys[owner[k]]
  }

  // All keys of the citations before i, and the first m of citation i.
  ghost predicate AllFiled(keys: seq<seq<string>>, rep: seq<nat>, owner: map<string, nat>, i: nat, m: nat) {
    && (forall a, k :: 0 <= a < i && a < |keys| && k in keys[a] ==> Filed(keys, rep, owner, a, k))
    && (i < |keys| && m <= |keys[i]| ==> forall x :: 0 <= x < m ==> Filed(keys, rep, owner, i, keys[i][x]))
  }

  lemma FiledSurvivesMerge(keys: seq<seq<string>>, rep: seq<nat>, owner: map<string, nat>, i: nat, m: nat, a: nat, b: nat)
    requires AllFiled(keys, rep, owner, i, m) && i < |keys| && m <= |keys[i]|
    ensures AllFiled(keys, MergedRep(rep, a, b), owner, i, m)
  {
    var rep' := MergedRep(rep, a, b);
    forall c, k | 0 <= c < i && c < |keys| && k in keys[c] ensures Filed(keys, rep', owner, c, k) {
      assert Filed(keys, rep, owner, c, k);
    }
    forall x | 0 <= x < m ensures Filed(keys, rep', owner, i, keys[i][x]) {
      assert Filed(keys, rep, owner, i, keys[i][x]);
    }
  }

  // When everything is filed, sharing a key means sharing a root, and so does any chain.
  lemma {:induction false} FiledComplete(keys: seq<seq<string>>, rep: seq<nat>, owner: map<string, nat>, path: seq<nat>)
    requires |rep| == |keys| && AllFiled(keys, rep, owner, |keys|, 0) && Path(keys, path)
    ensures path[|path| - 1] < |keys| && rep[path[0]] == rep[path[|path| - 1]]
    decreases |path|
  {
    var n := |path| - 1;
    if n > 0 {
      FiledComplete(keys, rep, owner, path[..n]);
      assert Shares(keys, path[n - 1], path[n]);
      var k :| k in keys[path[n - 1]] && k in keys[path[n]];
      assert Filed(keys, rep, owner, path[n - 1], k) && Filed(keys, rep, owner, path[n], k);
    }
  }

  ghost predicate ComponentsAre(keys: seq<seq<string>>, rep: seq<nat>) {
    && |rep| == |keys|
    && forall a, b :: 0 <= a < |rep| && 0 <= b < |rep| ==> (rep[a] == rep[b] <==> Connected(keys, a, b))
  }

  lemma FiledMeansComponents(keys: seq<seq<string>>, rep: seq<nat>, owner: map<string, nat>)
    requires Sound(keys, rep) && AllFiled(keys, rep, owner, |keys|, 0)
    ensures ComponentsAre(keys, rep)
  {
    forall a, b | 0 <= a < |rep| && 0 <= b < |rep| && Connected(keys, a, b) ensures rep[a] == rep[b] {
      var path :| Leads(keys, path, a, b);
      FiledComplete(keys, rep, owner, path);
    }
  }

  // ----- the calculation ---------------------------------------------------------------------

  // parent[find(i)] = find(o)
  method Union(parent: array<nat>, i: nat, o: nat, ghost rep: seq<nat>, ghost rank: seq<nat>)
    returns (ghost rep': seq<nat>, ghost rank': seq<nat>)
    requires i < parent.Length && o < parent.Length && Forest(parent[..], rep, rank)
    modifies parent
    ensures Forest(parent[..], rep', rank') && rep' == MergedRep(rep, rep[i], rep[o])
  {
    var a := Find(parent, i, rep, rank);
    var b := Find(parent, o, rep, rank);
    assert NodeOk(parent[..], rep, rank, i) && NodeOk(parent[..], rep, rank, o);
    if a == b {
      assert NodeOk(parent[..], rep, rank, a);
      assert parent[..][a := b] == parent[..];
      rep', rank' := rep, rank;
      assert MergedRep(rep, a, b) == rep;
    } else {
      MergeOk(parent[..], rep, rank, a, b);
      rep', rank' := MergedRep(rep, a, b), MergedRank(rep, rank, a, b);
    }
    parent[a] := b;
  }

  /** The first loop of citationBits: afterwards two citations have the same root exactly when a chain of
      shared keys connects them. */
  method Group(keys: seq<seq<string>>) returns (parent: array<nat>, ghost rep: seq<nat>, ghost rank: seq<nat>)
    ensures fresh(parent) && parent.Length == |keys| && Forest(parent[..], rep, rank) && ComponentsAre(keys, rep)
  {
    parent := new nat[|keys|](i => i);
    rep, rank := seq(|keys|, i => i), seq(|keys|, i => 0);
    assert Sound(keys, rep) by {
      forall a | 0 <= a < |keys| ensures Connected(keys, a, a) { Reflexive(keys, a); }
    }
    var owner: map<string, nat> := map[];
    for i := 0 to |keys|
      invariant parent.Length == |keys| && Forest(parent[..], rep, rank)
      invariant Sound(keys, rep) && Owned(keys, owner) && AllFiled(keys, rep, owner, i, 0)
    {
      for m := 0 to |keys[i]|
        invariant parent.Length == |keys| && Forest(parent[..], rep, rank)
        invariant Sound(keys, rep) && Owned(keys, owner) && AllFiled(keys, rep, owner, i, m)
      {
        var k := keys[i][m];
        if k in owner {
          assert Shares(keys, i, owner[k]);
          MergeSound(keys, rep, i, owner[k]);
          FiledSurvivesMerge(keys, rep, owner, i, m, rep[i], rep[owner[k]]);
          rep, rank := Union(parent, i, owner[k], rep, rank);
        } else {
          owner := owner[k := i];
        }
        FileNext(keys, rep, owner, i, m);
      }
      FiledRow(keys, rep, owner, i);
    }
    FiledMeansComponents(keys, rep, owner);
  }

  lemma FileNext(keys: seq<seq<string>>, rep: seq<nat>, owner: map<string, nat>, i: nat, m: nat)
    requires |rep| == |keys| && i < |keys| && m < |keys[i]| && AllFiled(keys, rep, owner, i, m)
    requires Filed(keys, rep, owner, i, keys[i][m])
    ensures AllFiled(keys, rep, owner, i, m + 1)
  {
  }

  lemma FiledRow(keys: seq<seq<string>>, rep: seq<nat>, owner: map<string, nat>, i: nat)
    requires i < |keys| && AllFiled(keys, rep, owner, i, |keys[i]|)
    ensures AllFiled(keys, rep, owner, i + 1, 0)
  {
    forall a, k | 0 <= a < i + 1 && a < |keys| && k in keys[a] ensures Filed(keys, rep, owner, a, k) {
      if a == i { var x :| 0 <= x < |keys[i]| && keys[i][x] == k; }
    }
  }

  // ----- sizes -----------------------------------------------------------------------------------

  ghost function Component(keys: seq<seq<string>>, i: nat): set<nat> {
    set j: nat | j < |keys| && Connected(keys, i, j)
  }

  // The citations before n with root r.
  ghost function Class(rep: seq<nat>, r: nat, n: nat): set<nat>
    requires n <= |rep|
  {
    set j: nat | j < n && rep[j] == r
  }

  lemma ClassGrows(rep: seq<nat>, r: nat, n: nat)
    requires n < |rep|
    ensures |Class(rep, r, n + 1)| == |Class(rep, r, n)| + if rep[n] == r then 1 else 0
  {
    assert Class(rep, r, n + 1) == Class(rep, r, n) + if rep[n] == r then {n} else {};
  }

  // sizes holds the class sizes among the first n citations, and largest is the greatest of them.
  ghost predicate Sized(rep: seq<nat>, sizes: map<nat, nat>, largest: nat, n: nat) {
    && n <= |rep|
    && (forall r: nat :: |Class(rep, r, n)| == if r in sizes then sizes[r] else 0)
    && (forall r :: r in sizes ==> sizes[r] <= largest)
    && (if n == 0 then largest == 0 else exists i :: 0 <= i < n && |Class(rep, rep[i], n)| == largest)
  }

  // One more citation with root r.
  function Bumped(sizes: map<nat, nat>, r: nat): (more: map<nat, nat>)
    ensures r in more
  {
    sizes[r := (if r in sizes then sizes[r] else 0) + 1]
  }

  lemma SizeNext(rep: seq<nat>, sizes: map<nat, nat>, largest: nat, n: nat)
    requires n < |rep| && Sized(rep, sizes, largest, n)
    ensures var r := rep[n];
            var sizes' := sizes[r := (if r in sizes then sizes[r] else 0) + 1];
            Sized(rep, sizes', if largest < sizes'[r] then sizes'[r] else largest, n + 1)
  {
    var r := rep[n];
    var sizes' := sizes[r := (if r in sizes then sizes[r] else 0) + 1];
    forall q: nat ensures |Class(rep, q, n + 1)| == if q in sizes' then sizes'[q] else 0 { ClassGrows(rep, q, n); }
    if largest < sizes'[r] {
      assert |Class(rep, rep[n], n + 1)| == sizes'[r];
    } else {
      var i :| 0 <= i < n && |Class(rep, rep[i], n)| == largest;
      ClassGrows(rep, rep[i], n);
      assert |Class(rep, rep[i], n + 1)| == largest;
    }
  }

  // The sum of the sizes.
  ghost function Total(sizes: map<nat, nat>): nat
    decreases |sizes|
  {
    if sizes == map[] then 0
    else
      var r :| r in sizes;
      assert (sizes - {r}).Keys == sizes.Keys - {r};
      sizes[r] + Total(sizes - {r})
  }

  lemma {:induction false} TotalWithout(sizes: map<nat, nat>, r: nat)
    requires r in sizes
    ensures Total(sizes) == sizes[r] + Total(sizes - {r})
    decreases |sizes|
  {
    var q :| q in sizes && Total(sizes) == sizes[q] + Total(sizes - {q});
    if q != r {
      assert (sizes - {q}).Keys == sizes.Keys - {q};
      TotalWithout(sizes - {q}, r);
      TotalWithout(sizes - {r}, q) by { assert (sizes - {r}).Keys == sizes.Keys - {r}; }
      assert sizes - {q} - {r} == sizes - {r} - {q};
    }
  }

  lemma TotalNext(sizes: map<nat, nat>, r: nat)
    ensures Total(sizes[r := (if r in sizes then sizes[r] else 0) + 1]) == Total(sizes) + 1
  {
    var more := sizes[r := (if r in sizes then sizes[r] else 0) + 1];
    TotalWithout(more, r);
    assert more - {r} == sizes - {r};
    if r in sizes { TotalWithout(sizes, r); } else { assert sizes - {r} == sizes; }
  }

  // sizes has the size of every component, under one representative of it.
  ghost predicate SizesOf(keys: seq<seq<string>>, sizes: map<nat, nat>, rep: seq<nat>) {
    && ComponentsAre(keys, rep)
    && (forall r :: r in sizes <==> r in rep)
    && forall i :: 0 <= i < |rep| ==> rep[i] in sizes && sizes[rep[i]] == |Component(keys, i)|
  }

  // The state of the counting loop after n citations.
  ghost predicate Counted(rep: seq<nat>, sizes: map<nat, nat>, largest: nat, n: nat) {
    Sized(rep, sizes, largest, n) && Total(sizes) == n && forall r :: r in sizes ==> sizes[r] > 0
  }

  lemma CountNext(rep: seq<nat>, sizes: map<nat, nat>, largest: nat, n: nat)
    requires n < |rep| && Counted(rep, sizes, largest, n)
    ensures var more := Bumped(sizes, rep[n]);
            Counted(rep, more, if largest < more[rep[n]] then more[rep[n]] else largest, n + 1)
  {
    SizeNext(rep, sizes, largest, n);
    TotalNext(sizes, rep[n]);
  }

  lemma SizesMatch(keys: seq<seq<string>>, rep: seq<nat>, sizes: map<nat, nat>, largest: nat)
    requires ComponentsAre(keys, rep) && Counted(rep, sizes, largest, |rep|)
    ensures SizesOf(keys, sizes, rep)
  {
    forall i | 0 <= i < |rep| ensures rep[i] in sizes && sizes[rep[i]] == |Component(keys, i)| {
      ComponentIsClass(keys, rep, i);
      assert i in Class(rep, rep[i], |rep|);
    }
    forall r | r in sizes ensures r in rep {
      assert Class(rep, r, |rep|) != {};
      var i :| i in Class(rep, r, |rep|);
    }
  }

  // The second loop: how many citations each root has.
  method CountClasses(parent: array<nat>, ghost rep: seq<nat>, ghost rank: seq<nat>) returns (largest: nat, sizes: map<nat, nat>)
    requires Forest(parent[..], rep, rank)
    modifies parent
    ensures Counted(rep, sizes, largest, |rep|)
  {
    sizes, largest := map[], 0;
    NoneSized(rep);
    for i := 0 to parent.Length
      invariant Forest(parent[..], rep, rank) && Counted(rep, sizes, largest, i)
    {
      var r := Find(parent, i, rep, rank);
      CountNext(rep, sizes, largest, i);
      sizes := Bumped(sizes, r);
      if largest < sizes[r] { largest := sizes[r]; }
    }
  }

  /** citationBits up to the logarithm: sizes holds the sizes of the components, they sum to the number of citations,
      largest is the greatest of them, and no key is reached from more citations than that. */
  method LargestGroup(keys: seq<seq<string>>) returns (largest: nat, sizes: map<nat, nat>, ghost rep: seq<nat>)
    ensures SizesOf(keys, sizes, rep) && Total(sizes) == |keys|
    ensures forall i :: 0 <= i < |keys| ==> |Component(keys, i)| <= largest
    ensures keys != [] ==> exists i :: 0 <= i < |keys| && |Component(keys, i)| == largest
    ensures forall k: string :: |Reaching(keys, k)| <= largest
  {
    ghost var rank;
    var parent;
    parent, rep, rank := Group(keys);
    largest, sizes := CountClasses(parent, rep, rank);
    SizesAnswer(keys, rep, sizes, largest);
    SizesMatch(keys, rep, sizes, largest);
  }

  lemma NoneSized(rep: seq<nat>)
    ensures Sized(rep, map[], 0, 0)
  {
    forall r: nat ensures Class(rep, r, 0) == {} {}
  }

  // The citations that reach key k.
  ghost function Reaching(keys: seq<seq<string>>, k: string): set<nat> {
    set i: nat | i < |keys| && k in keys[i]
  }

  lemma SizesAnswer(keys: seq<seq<string>>, rep: seq<nat>, sizes: map<nat, nat>, largest: nat)
    requires ComponentsAre(keys, rep) && Sized(rep, sizes, largest, |rep|)
    ensures forall i :: 0 <= i < |keys| ==> |Component(keys, i)| <= largest
    ensures keys != [] ==> exists i :: 0 <= i < |keys| && |Component(keys, i)| == largest
    ensures forall k: string :: |Reaching(keys, k)| <= largest
  {
    forall i | 0 <= i < |keys| ensures |Component(keys, i)| == |Class(rep, rep[i], |rep|)| <= largest {
      ComponentIsClass(keys, rep, i);
    }
    forall k: string ensures |Reaching(keys, k)| <= largest {
      if i :| i in Reaching(keys, k) {
        ReachingInComponent(keys, k, i);
      } else {
        assert Reaching(keys, k) == {};
      }
    }
  }

  lemma ComponentIsClass(keys: seq<seq<string>>, rep: seq<nat>, i: nat)
    requires ComponentsAre(keys, rep) && i < |keys|
    ensures Component(keys, i) == Class(rep, rep[i], |rep|)
  {
  }

  lemma ReachingInComponent(keys: seq<seq<string>>, k: string, i: nat)
    requires i in Reaching(keys, k)
    ensures |Reaching(keys, k)| <= |Component(keys, i)|
  {
    var who, all := Reaching(keys, k), Component(keys, i);
    forall j | j in who ensures j in all {
      assert Shares(keys, i, j);
      Linked(keys, i, j);
    }
    assert all == who + (all - who);
  }
}
