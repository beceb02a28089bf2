/** The strength estimator: the cheapest way to read a secret as a sequence of predictable patterns and
    brute-forced characters, found by a dynamic program that is mutually recursive with its own repeat
    matcher. Bits are real numbers; log2, the case mapping and the word lists are parameters. */
module Strength {
  import opened CheapestCover

  datatype Tables = Tables(
    log2: real -> real,
    toLower: char -> char,
    isUpper: char -> bool,
    isLower: char -> bool,
    common: set<string>,
    dict: set<string>,
    keyboardRows: seq<string>)

  datatype Code = Brute | Common | Dictionary | Context | Year | Sequence | Keyboard | Repeat

  type Reading = Segment<Code>

  // take: keep the strictly cheaper reading, the earlier one on a tie.
  function Take(out: Reading, seg: Reading): (r: Reading)
    ensures r == out || r == seg
    ensures r.NoMatch? <==> out.NoMatch? && seg.NoMatch?
    ensures seg.Segment? ==> r.bits <= seg.bits
    ensures out.Segment? ==> r.bits <= out.bits
  {
    if seg.NoMatch? then out else if out.NoMatch? || seg.bits < out.bits then seg else out
  }

  // ----- words ----------------------------------------------------------------------------

  const LEET := map['0' := 'o', '1' := 'i', '!' := 'i', '|' := 'i', '3' := 'e', '4' := 'a', '@' := 'a',
                    '5' := 's', '$' := 's', '7' := 't', '+' := 't', '8' := 'b', '9' := 'g', '\U{20AC}' := 'e']

  function FoldRune(r: char): char {
    if r in ['\U{E0}', '\U{E2}', '\U{E4}', '\U{E1}', '\U{E3}'] then 'a'
    else if r in ['\U{E9}', '\U{E8}', '\U{EA}', '\U{EB}'] then 'e'
    else if r in ['\U{EE}', '\U{EF}', '\U{ED}'] then 'i'
    else if r in ['\U{F4}', '\U{F6}', '\U{F3}'] then 'o'
    else if r in ['\U{F9}', '\U{FB}', '\U{FC}', '\U{FA}'] then 'u'
    else if r == '\U{E7}' then 'c'
    else if r == '\U{FF}' then 'y'
    else r
  }

  datatype Variant = Variant(word: string, subs: nat, reversed: bool)

  function ReadChar(t: Tables, r: char, oneAsL: bool): char {
    var lr := t.toLower(r);
    FoldRune(if lr !in LEET then lr else if oneAsL && (lr == '1' || lr == '|') then 'l' else LEET[lr])
  }

  function Subs(t: Tables, w: string): nat {
    if w == "" then 0 else (if t.toLower(w[0]) in LEET then 1 else 0) + Subs(t, w[1..])
  }

  function Reversed(w: string): string {
    seq(|w|, k requires 0 <= k < |w| => w[|w| - 1 - k])
  }

  function ReadWord(t: Tables, w: string, rev: bool, oneAsL: bool): Variant {
    var src := if rev then Reversed(w) else w;
    Variant(seq(|src|, k requires 0 <= k < |src| => ReadChar(t, src[k], oneAsL)), Subs(t, src), rev)
  }

  function LeetVariants(t: Tables, w: string): seq<Variant> {
    [ReadWord(t, w, false, false), ReadWord(t, w, false, true), ReadWord(t, w, true, false), ReadWord(t, w, true, true)]
  }

  // Length in UTF-8 bytes.
  function ByteLen(w: string): nat {
    if w == "" then 0
    else (if w[0] < '\U{80}' then 1 else if w[0] < '\U{800}' then 2 else if w[0] < '\U{10000}' then 3 else 4)
         + ByteLen(w[1..])
  }

  function Count(w: string, p: char -> bool): nat {
    if w == "" then 0 else (if p(w[0]) then 1 else 0) + Count(w[1..], p)
  }

  function Binomial(n: nat, k: nat, upTo: nat): real
    requires k <= n
  {
    if upTo == 0 then 1.0 else Binomial(n, k, upTo - 1) * (n - k + upTo) as real / upTo as real
  }

  function Ways(n: nat, k: nat): real
    requires k <= n
  {
    if k == 0 then 0.0 else Ways(n, k - 1) + Binomial(n, k, k)
  }

  function OnlyLower(t: Tables): char -> bool {
    c => !t.isUpper(c) && t.isLower(c)
  }

  function CaseBits(t: Tables, w: string): real {
    var upper, lower := Count(w, t.isUpper), Count(w, OnlyLower(t));
    if upper == 0 then 0.0
    else if lower == 0 || (upper == 1 && w != "" && t.isUpper(w[0])) then 1.0
    else t.log2(Ways(upper + lower, if lower < upper then lower else upper))
  }

  function ReadVariant(t: Tables, v: Variant, extra: real, ctx: set<string>): Reading {
    var bits := extra + v.subs as real + (if v.reversed then 1.0 else 0.0);
    if ByteLen(v.word) >= 3 && v.word in ctx then Segment(2.0 + bits, Context)
    else if v.word in t.common then Segment(10.0 + bits, Common)
    else if |v.word| >= 4 && v.word in t.dict then Segment(12.0 + bits, Dictionary)
    else NoMatch
  }

  function MatchWord(t: Tables, w: string, ctx: set<string>): Reading {
    var vs, extra := LeetVariants(t, w), CaseBits(t, w);
    Take(Take(Take(ReadVariant(t, vs[0], extra, ctx), ReadVariant(t, vs[1], extra, ctx)),
              ReadVariant(t, vs[2], extra, ctx)), ReadVariant(t, vs[3], extra, ctx))
  }

  // ----- years, sequences, keyboard walks ---------------------------------------------------

  predicate IsDigit(r: char) { '0' <= r <= '9' }

  predicate IsYear(w: string) {
    && |w| == 4 && (forall k :: 0 <= k < 4 ==> IsDigit(w[k]))
    && ((w[0] == '1' && w[1] == '9') || (w[0] == '2' && w[1] == '0'))
  }

  function YearBits(w: string): Reading {
    if IsYear(w) then Segment(7.65, Year) else NoMatch
  }

  function ClassOf(r: char): char {
    if 'a' <= r <= 'z' then 'l' else if 'A' <= r <= 'Z' then 'u' else if IsDigit(r) then 'd' else 's'
  }

  function SequenceBits(t: Tables, w: string): Reading
    requires |w| >= 2
  {
    var delta := w[1] as int - w[0] as int;
    if delta != 1 && delta != -1 then NoMatch
    else if exists k :: 1 <= k < |w| && (w[k] as int - w[k - 1] as int != delta || ClassOf(w[k]) != ClassOf(w[0])) then NoMatch
    else
      var base := if w[0] in "aAzZ019" then 4.0
                  else if ClassOf(w[0]) == 'd' then 10.0
                  else if ClassOf(w[0]) == 'l' || ClassOf(w[0]) == 'u' then 26.0
                  else 0.0;
      if base == 0.0 then NoMatch
      else Segment(t.log2(base * |w| as real) + (if delta < 0 then 1.0 else 0.0), Sequence)
  }

  predicate OccursAt(text: string, w: string, i: nat) {
    i + |w| <= |text| && text[i..i + |w|] == w
  }

  predicate Contains(text: string, w: string) {
    exists i :: 0 <= i <= |text| && OccursAt(text, w, i)
  }

  function Lowered(t: Tables, w: string): string {
    seq(|w|, k requires 0 <= k < |w| => t.toLower(w[k]))
  }

  function KeyboardBits(t: Tables, w: string): Reading {
    var lw := Lowered(t, w);
    if exists i :: 0 <= i < |t.keyboardRows| && (Contains(t.keyboardRows[i], lw) || Contains(t.keyboardRows[i], Reversed(lw)))
    then Segment(t.log2(48.0 * |w| as real) + 1.0 + CaseBits(t, w), Keyboard)
    else NoMatch
  }

  predicate Holds(w: string, kind: char -> bool) {
    exists i :: 0 <= i < |w| && kind(w[i])
  }

  const LOWER: char -> bool := (r: char) => 'a' <= r <= 'z'
  const UPPER: char -> bool := (r: char) => 'A' <= r <= 'Z'
  const DIGIT: char -> bool := (r: char) => IsDigit(r)
  const SYMBOL: char -> bool := (r: char) => ClassOf(r) == 's' && r < '\U{80}'
  const OTHER: char -> bool := (r: char) => r >= '\U{80}'

  function Part(w: string, kind: char -> bool, size: real): real {
    if Holds(w, kind) then size else 0.0
  }

  function PoolSize(w: string): real {
    var pool := Part(w, LOWER, 26.0) + Part(w, UPPER, 26.0) + Part(w, DIGIT, 10.0) + Part(w, SYMBOL, 33.0) + Part(w, OTHER, 100.0);
    if pool < 2.0 then 2.0 else pool
  }

  // ----- the mutual recursion ---------------------------------------------------------------

  predicate Periodic(t: Tables, w: string, size: nat) {
    size > 0 && |w| % size == 0 && forall k :: size <= k < |w| ==> t.toLower(w[k]) == t.toLower(w[k - size])
  }

  // The first block size from size on that w repeats at least twice; 0 when there is none.
  function BlockFrom(t: Tables, w: string, size: nat): (b: nat)
    requires size > 0
    ensures b == 0 || (size <= b <= |w| / 2 && Periodic(t, w, b))
    ensures forall c :: size <= c <= |w| / 2 && Periodic(t, w, c) ==> 0 < b <= c
    decreases |w| - size
  {
    if size > |w| / 2 then 0 else if Periodic(t, w, size) then size else BlockFrom(t, w, size + 1)
  }

  function RepeatBits(t: Tables, w: string, ctx: set<string>): Reading
    decreases |w|, 0, 0
  {
    var size := BlockFrom(t, w, 1);
    if size == 0 then NoMatch
    else Segment(Estimate(t, w[..size], ctx) + t.log2((|w| / size) as real) + CaseBits(t, w) / 2.0, Repeat)
  }

  /** matchPattern: the cheapest predictable reading of w, if any. */
  function Match(t: Tables, w: string, ctx: set<string>): Reading
    requires |w| >= 3
    decreases |w|, 1, 0
  {
    Take(Take(Take(Take(MatchWord(t, w, ctx), YearBits(w)), SequenceBits(t, w)), KeyboardBits(t, w)), RepeatBits(t, w, ctx))
  }

  // The segment from i to j: one brute-forced character, or a matched pattern of at least three.
  function Edge(t: Tables, s: string, ctx: set<string>, i: nat, j: nat): Reading
    requires i < j <= |s|
    decreases |s|, 2, 0
  {
    if j == i + 1 then Segment(t.log2(PoolSize(s)), Brute)
    else if j >= i + 3 then Match(t, s[i..j], ctx)
    else NoMatch
  }

  function EdgesOf(t: Tables, s: string, ctx: set<string>): Edges<Code>
    decreases |s|, 3, 0
  {
    (i: nat, j: nat) => if i < j <= |s| then Edge(t, s, ctx, i, j) else NoMatch
  }

  /** estimate: the bits of the cheapest cover of the whole string. */
  function Estimate(t: Tables, s: string, ctx: set<string>): real
    decreases |s|, 4, 0
  {
    var r := Reach(EdgesOf(t, s, ctx), |s|, |s|);
    if r.Inf? then 0.0 else r.v
  }

  // ----- what the estimate is -----------------------------------------------------------------

  lemma EdgeAt(t: Tables, s: string, ctx: set<string>, i: nat, j: nat)
    ensures EdgesOf(t, s, ctx)(i, j) == if i < j <= |s| then Edge(t, s, ctx, i, j) else NoMatch
  {
  }

  lemma StepsPriced(t: Tables, s: string, ctx: set<string>)
    ensures forall i: nat :: i < |s| ==> StepPriced(EdgesOf(t, s, ctx), i)
  {
    forall i: nat | i < |s| ensures StepPriced(EdgesOf(t, s, ctx), i) { EdgeAt(t, s, ctx, i, i + 1); }
  }

  lemma SingleSteps(t: Tables, s: string, ctx: set<string>)
    ensures Reach(EdgesOf(t, s, ctx), |s|, |s|) == Bits(Estimate(t, s, ctx))
  {
    StepsPriced(t, s, ctx);
    Reachable(EdgesOf(t, s, ctx), |s|);
  }

  /** The estimate is the least cost over all segmentations into single characters and matched patterns: no
      segmentation is cheaper, and one costs exactly that. */
  lemma EstimateIsMinimum(t: Tables, s: string, ctx: set<string>) returns (cuts: seq<nat>)
    ensures Covers(EdgesOf(t, s, ctx), cuts, |s|) && Price(EdgesOf(t, s, ctx), cuts) == Estimate(t, s, ctx)
    ensures forall other :: Covers(EdgesOf(t, s, ctx), other, |s|) ==>
                              Estimate(t, s, ctx) <= Price(EdgesOf(t, s, ctx), other)
  {
    var edge := EdgesOf(t, s, ctx);
    SingleSteps(t, s, ctx);
    cuts := Attained(edge, |s|, |s|);
    forall other | Covers(edge, other, |s|) ensures Estimate(t, s, ctx) <= Price(edge, other) {
      NoneCheaper(edge, other, |s|);
    }
  }

  // A reading in the smaller context has one in the larger that costs no more.
  ghost predicate NoDearer(a: Reading, b: Reading) {
    a.Segment? ==> b.Segment? && b.bits <= a.bits
  }

  lemma VariantNoDearer(t: Tables, v: Variant, extra: real, ctx: set<string>, ctx': set<string>)
    requires ctx <= ctx'
    ensures NoDearer(ReadVariant(t, v, extra, ctx), ReadVariant(t, v, extra, ctx'))
  {
  }

  lemma WordNoDearer(t: Tables, w: string, ctx: set<string>, ctx': set<string>)
    requires ctx <= ctx'
    ensures NoDearer(MatchWord(t, w, ctx), MatchWord(t, w, ctx'))
  {
    var vs, extra := LeetVariants(t, w), CaseBits(t, w);
    VariantNoDearer(t, vs[0], extra, ctx, ctx');
    VariantNoDearer(t, vs[1], extra, ctx, ctx');
    VariantNoDearer(t, vs[2], extra, ctx, ctx');
    VariantNoDearer(t, vs[3], extra, ctx, ctx');
  }

  lemma {:induction false} RepeatNoDearer(t: Tables, w: string, ctx: set<string>, ctx': set<string>)
    requires ctx <= ctx'
    ensures NoDearer(RepeatBits(t, w, ctx), RepeatBits(t, w, ctx'))
    decreases |w|, 0
  {
    var size := BlockFrom(t, w, 1);
    if size != 0 { KnowingMoreNeverCostsMore(t, w[..size], ctx, ctx'); }
  }

  lemma {:induction false} MatchNoDearer(t: Tables, w: string, ctx: set<string>, ctx': set<string>)
    requires ctx <= ctx' && |w| >= 3
    ensures NoDearer(Match(t, w, ctx), Match(t, w, ctx'))
    decreases |w|, 1
  {
    WordNoDearer(t, w, ctx, ctx');
    RepeatNoDearer(t, w, ctx, ctx');
  }

  /** Enlarging the set of words the attacker knows never raises the estimate. */
  lemma {:induction false} KnowingMoreNeverCostsMore(t: Tables, s: string, ctx: set<string>, ctx': set<string>)
    requires ctx <= ctx'
    ensures Estimate(t, s, ctx') <= Estimate(t, s, ctx)
    decreases |s|, 2
  {
    var edge, edge' := EdgesOf(t, s, ctx), EdgesOf(t, s, ctx');
    forall i: nat, j: nat ensures NoDearer(edge(i, j), edge'(i, j)) {
      EdgeAt(t, s, ctx, i, j);
      EdgeAt(t, s, ctx', i, j);
      if i + 3 <= j <= |s| { MatchNoDearer(t, s[i..j], ctx, ctx'); }
    }
    ReachMonotone(edge, edge', |s|, |s|);
    SingleSteps(t, s, ctx);
    SingleSteps(t, s, ctx');
  }
}
