/** Unbiased random integers by rejection sampling over 32-bit words. */
module RandomDraws {
  import opened Counting

  // The mask smeared from max - 1.
  function Smear(m: bv32): bv32 {
    var a := m | (m >> 1);
    var b := a | (a >> 2);
    var c := b | (b >> 4);
    var d := c | (c >> 8);
    d | (d >> 16)
  }

  // 2^k - 1 for some k: below a set bit every bit is set.
  predicate AllOnes(n: bv32) {
    n | (n >> 1) == n
  }

  /** The smeared mask is the least 2^k - 1 that is not below m. */
  lemma SmearIsLeastMask(m: bv32, n: bv32)
    ensures AllOnes(Smear(m)) && m <= Smear(m)
    ensures AllOnes(n) && m <= n ==> Smear(m) <= n
    ensures m > 0 ==> (Smear(m) >> 1) < m
  {
  }

  predicate Gives(mask: bv32, u: bv32, word: bv32) {
    word & mask == u
  }

  predicate Accepts(mask: bv32, max: bv32, word: bv32) {
    word & mask < max
  }

  function Xor(word: bv32, b: bv32): bv32 {
    word ^ b
  }

  // ----- bits -----------------------------------------------------------------------------

  lemma XorTwice(w: bv32, b: bv32)
    ensures (w ^ b) ^ b == w
  {
  }

  lemma BelowMask(mask: bv32, u: bv32)
    requires mask | (mask >> 1) == mask && u <= mask
    ensures u & mask == u
  {
  }

  lemma XorGives(mask: bv32, u: bv32, v: bv32, w: bv32)
    requires u & mask == u && v & mask == v && w & mask == u
    ensures (w ^ (u ^ v)) & mask == v
  {
  }

  // Flipping the highest bit of the mask turns a rejected word into an accepted one.
  lemma FlipLowers(mask: bv32, max: bv32, top: bv32, w: bv32)
    requires mask | (mask >> 1) == mask && (mask >> 1) < max - 1 <= mask && max > 1
    requires top == mask ^ (mask >> 1) && !(w & mask < max)
    ensures (w ^ top) & mask < max && w ^ top != max - 1
  {
  }

  // ----- counting words -------------------------------------------------------------------

  // all is the set of all values of a type.
  ghost predicate Everything<A(!new)>(all: set<A>) {
    forall x :: x in all
  }

  ghost function Those<A>(all: set<A>, p: A -> bool): set<A> {
    set x | x in all && p(x)
  }

  // An involution that takes p into q shows that p holds no more often than q.
  lemma NoMore<A(!new)>(all: set<A>, p: A -> bool, q: A -> bool, swap: A -> A)
    requires Everything(all)
    requires forall x :: swap(swap(x)) == x
    requires forall x :: p(x) ==> q(swap(x))
    ensures |Those(all, p)| <= |Those(all, q)|
  {
    forall x, y | swap(x) == swap(y) ensures x == y { assert swap(swap(x)) == swap(swap(y)); }
    InjectionSize(Those(all, p), Those(all, q), swap);
  }

  function Giving(mask: bv32, u: bv32): bv32 -> bool {
    w => Gives(mask, u, w)
  }

  function Xoring(b: bv32): bv32 -> bv32 {
    w => Xor(w, b)
  }

  lemma XoringTwice(w: bv32, b: bv32)
    ensures Xoring(b)(Xoring(b)(w)) == w
  {
    XorTwice(w, b);
  }

  lemma XoringGives(mask: bv32, u: bv32, v: bv32, b: bv32, w: bv32)
    requires u & mask == u && v & mask == v && b == u ^ v
    ensures Giving(mask, u)(w) ==> Giving(mask, v)(Xoring(b)(w))
  {
    if Gives(mask, u, w) { XorGives(mask, u, v, w); }
  }

  lemma NoMoreGive(words: set<bv32>, mask: bv32, u: bv32, v: bv32, b: bv32)
    requires Everything(words) && u & mask == u && v & mask == v && b == u ^ v
    ensures |Those(words, Giving(mask, u))| <= |Those(words, Giving(mask, v))|
  {
    forall w ensures Xoring(b)(Xoring(b)(w)) == w { XoringTwice(w, b); }
    forall w ensures Giving(mask, u)(w) ==> Giving(mask, v)(Xoring(b)(w)) { XoringGives(mask, u, v, b, w); }
    NoMore(words, Giving(mask, u), Giving(mask, v), Xoring(b));
  }

  lemma UniformOver(words: set<bv32>, max: bv32, u: bv32, v: bv32)
    requires Everything(words) && u < max && v < max
    ensures |Those(words, Giving(Smear(max - 1), u))| == |Those(words, Giving(Smear(max - 1), v))|
  {
    var mask := Smear(max - 1);
    SmearIsLeastMask(max - 1, mask);
    Masked(mask, max, u);
    Masked(mask, max, v);
    NoMoreGive(words, mask, u, v, u ^ v);
    NoMoreGive(words, mask, v, u, v ^ u);
  }

  lemma Masked(mask: bv32, max: bv32, u: bv32)
    requires AllOnes(mask) && max - 1 <= mask && u < max
    ensures u & mask == u
  {
    BelowMask(mask, u);
  }

  function Accepting(mask: bv32, max: bv32): bv32 -> bool {
    w => Accepts(mask, max, w)
  }

  function Rejecting(mask: bv32, max: bv32): bv32 -> bool {
    w => !Accepts(mask, max, w)
  }

  function AcceptingOther(mask: bv32, max: bv32, last: bv32): bv32 -> bool {
    w => Accepts(mask, max, w) && w != last
  }

  lemma FlippingAccepts(mask: bv32, max: bv32, top: bv32, last: bv32, w: bv32)
    requires mask | (mask >> 1) == mask && (mask >> 1) < max - 1 <= mask && max > 1
    requires top == mask ^ (mask >> 1) && last == max - 1
    ensures Rejecting(mask, max)(w) ==> AcceptingOther(mask, max, last)(Xoring(top)(w))
  {
    if !Accepts(mask, max, w) { FlipLowers(mask, max, top, w); }
  }

  // No more words are rejected than are accepted without being max - 1.
  lemma MostPass(words: set<bv32>, mask: bv32, max: bv32, top: bv32, last: bv32)
    requires Everything(words) && Accepts(mask, max, last)
    requires forall w :: Rejecting(mask, max)(w) ==> AcceptingOther(mask, max, last)(Xoring(top)(w))
    ensures 2 * |Those(words, Accepting(mask, max))| > |words|
  {
    forall w ensures Xoring(top)(Xoring(top)(w)) == w { XoringTwice(w, top); }
    NoMore(words, Rejecting(mask, max), AcceptingOther(mask, max, last), Xoring(top));
    SplitSize(words, Accepting(mask, max), Rejecting(mask, max), AcceptingOther(mask, max, last), last);
  }

  lemma SplitSize<A>(all: set<A>, p: A -> bool, no: A -> bool, other: A -> bool, last: A)
    requires last in all && p(last)
    requires forall y :: y in all ==> (no(y) <==> !p(y)) && (other(y) <==> p(y) && y != last)
    ensures |all| == |Those(all, p)| + |Those(all, no)|
    ensures |Those(all, p)| == |Those(all, other)| + 1
  {
    assert Those(all, p) == Those(all, other) + {last};
    assert all == Those(all, p) + Those(all, no);
  }

  lemma LastAccepted(mask: bv32, max: bv32, last: bv32)
    requires mask | (mask >> 1) == mask && last <= mask && max > 1 && last == max - 1
    ensures Accepts(mask, max, last)
  {
    BelowMask(mask, last);
  }

  lemma MostAcceptedBy(words: set<bv32>, mask: bv32, max: bv32)
    requires Everything(words) && max > 1
    requires mask | (mask >> 1) == mask && (mask >> 1) < max - 1 <= mask
    ensures 2 * |Those(words, Accepting(mask, max))| > |words|
  {
    var top, last := mask ^ (mask >> 1), max - 1;
    LastAccepted(mask, max, last);
    forall w ensures Rejecting(mask, max)(w) ==> AcceptingOther(mask, max, last)(Xoring(top)(w)) {
      FlippingAccepts(mask, max, top, last, w);
    }
    MostPass(words, mask, max, top, last);
  }

  lemma MostAcceptedOver(words: set<bv32>, max: bv32)
    requires Everything(words) && max > 1
    ensures 2 * |Those(words, Accepting(Smear(max - 1), max))| > |words|
  {
    SmearIsLeastMask(max - 1, Smear(max - 1));
    MostAcceptedBy(words, Smear(max - 1), max);
  }

  // ----- all 32-bit words -----------------------------------------------------------------

  const WORDS: nat := 0x1_0000_0000

  function Word(n: nat): bv32 {
    if n < WORDS then n as bv32 else 0
  }

  ghost function Words(): set<bv32> {
    set n: nat | n < WORDS :: Word(n)
  }

  lemma WordOfNumber(w: bv32)
    ensures w as nat < WORDS && Word(w as nat) == w
  {
  }

  lemma WordsAreAll()
    ensures Everything(Words())
  {
    forall w: bv32 ensures w in Words() { WordOfNumber(w); }
  }

  /** Of the words 0 to 2^32 - 1 each value below max is given by the same number. */
  lemma UniformDraws(max: bv32, u: bv32, v: bv32)
    requires u < max && v < max
    ensures |Those(Words(), Giving(Smear(max - 1), u))| == |Those(Words(), Giving(Smear(max - 1), v))|
  {
    WordsAreAll();
    UniformOver(Words(), max, u, v);
  }

  /** More than half of them are accepted. */
  lemma MostAccepted(max: bv32)
    requires max > 1
    ensures 2 * |Those(Words(), Accepting(Smear(max - 1), max))| > |Words()|
  {
    WordsAreAll();
    MostAcceptedOver(Words(), max);
  }

  // ----- drawing --------------------------------------------------------------------------

  datatype Drawn = RangeError | Exhausted | Value(v: bv32, used: nat)

  // The first n words are rejected.
  ghost predicate Rejected(mask: bv32, max: bv32, words: seq<bv32>, n: nat)
    requires n <= |words|
  {
    forall k :: 0 <= k < n ==> !Accepts(mask, max, words[k])
  }

  // The value of the first accepted word, if there is one.
  ghost predicate FirstAccepted(mask: bv32, max: bv32, words: seq<bv32>, r: Drawn) {
    match r
    case Value(v, used) =>
      && 0 < used <= |words| && Rejected(mask, max, words, used - 1)
      && Accepts(mask, max, words[used - 1]) && Gives(mask, v, words[used - 1])
    case Exhausted => Rejected(mask, max, words, |words|)
    case RangeError => false
  }

  /** The mask the assignments leave: the least 2^k - 1 that is not below m. */
  method MaskOf(m: bv32) returns (mask: bv32)
    ensures AllOnes(mask) && m <= mask && forall n :: AllOnes(n) && m <= n ==> mask <= n
    ensures mask == Smear(m)
  {
    mask := m;
    mask := mask | (mask >> 1);
    mask := mask | (mask >> 2);
    mask := mask | (mask >> 4);
    mask := mask | (mask >> 8);
    mask := mask | (mask >> 16);
    forall n ensures AllOnes(mask) && m <= mask && (AllOnes(n) && m <= n ==> mask <= n) { SmearIsLeastMask(m, n); }
  }

  // The rejection loop, as long as there are words: words[n] is the first one accepted.
  method Reject(mask: bv32, max: bv32, words: seq<bv32>) returns (v: bv32, n: nat)
    ensures n <= |words| && Rejected(mask, max, words, n)
    ensures n < |words| ==> Accepts(mask, max, words[n]) && Gives(mask, v, words[n])
  {
    for i := 0 to |words|
      invariant Rejected(mask, max, words, i)
    {
      if Accepts(mask, max, words[i]) { return words[i] & mask, i; }
    }
    return 0, |words|;
  }

  ghost predicate DrawnBelow(max: bv32, words: seq<bv32>, r: Drawn) {
    FirstAccepted(Smear(max - 1), max, words, r)
  }

  method DrawBelow(max: bv32, words: seq<bv32>) returns (r: Drawn)
    ensures DrawnBelow(max, words, r)
  {
    var mask := MaskOf(max - 1);
    var v, n := Reject(mask, max, words);
    r := if n < |words| then Value(v, n + 1) else Exhausted;
  }

  /** cryptoRandomInt on the words the generator delivers. */
  method CryptoRandomInt(max: int, words: seq<bv32>) returns (r: Drawn)
    ensures max < 1 || max > 0xffff_ffff ==> r == RangeError
    ensures max == 1 ==> r == Value(0, 0)
    ensures 1 < max <= 0xffff_ffff ==> DrawnBelow(max as bv32, words, r)
  {
    if max < 1 { return RangeError; }
    if max == 1 { return Value(0, 0); }
    if max > 0xffff_ffff { return RangeError; }
    r := DrawBelow(max as bv32, words);
  }
}
