/** What the strength estimate is worth, in terms of the secret: which readings a piece of it has and at what price, and
    the estimate as the least total over all ways to cut the secret into pieces that have one. */
module StrengthReadings {
  import opened CheapestCover
  import opened Strength

  // ----- characters ---------------------------------------------------------------------------

  // The k-th character of w, read forwards or backwards.
  function From(w: string, rev: bool, k: nat): char
    requires k < |w|
  {
    if rev then w[|w| - 1 - k] else w[k]
  }

  // Each stands for the letter below it.
  const LEET_SIGNS := "01!|34@5$7+89\U{20AC}"
  const LEET_PLAIN := "oiiieaassttbge"

  const ACCENTED   := "\U{E0}\U{E2}\U{E4}\U{E1}\U{E3}\U{E9}\U{E8}\U{EA}\U{EB}\U{EE}\U{EF}\U{ED}\U{F4}\U{F6}\U{F3}\U{F9}\U{FB}\U{FC}\U{FA}\U{E7}\U{FF}"
  const UNACCENTED := "aaaaaeeeeiiiooouuuucy"

  // c stands for p: a sign for its letter, 1 and | for l where so read, an accented letter for the plain one.
  ghost predicate StandsFor(c: char, oneAsL: bool, p: char) {
    && (oneAsL && c in "1|" ==> p == 'l')
    && (!(oneAsL && c in "1|") ==> forall k :: 0 <= k < 14 && LEET_SIGNS[k] == c ==> p == LEET_PLAIN[k])
    && (c !in LEET_SIGNS ==> forall k :: 0 <= k < 21 && ACCENTED[k] == c ==> p == UNACCENTED[k])
    && (c !in LEET_SIGNS && c !in ACCENTED ==> p == c)
  }

  lemma {:induction false} OneMeaning(c: char, oneAsL: bool, p: char, q: char)
    requires StandsFor(c, oneAsL, p) && StandsFor(c, oneAsL, q)
    ensures p == q
  {
    if c in LEET_SIGNS {
      var k :| 0 <= k < 14 && LEET_SIGNS[k] == c;
      assert (oneAsL && c in "1|") || (p == LEET_PLAIN[k] && q == LEET_PLAIN[k]);
    } else if c in ACCENTED {
      var k :| 0 <= k < 21 && ACCENTED[k] == c;
      assert p == UNACCENTED[k] && q == UNACCENTED[k];
    }
  }

  lemma SignsAreLeet(c: char)
    ensures c in LEET <==> c in LEET_SIGNS
  {
  }

  lemma SignMeans(c: char, k: nat)
    requires k < 14 && LEET_SIGNS[k] == c
    ensures c in LEET && LEET[c] == LEET_PLAIN[k] && FoldRune(LEET[c]) == LEET_PLAIN[k]
  {
  }

  lemma AccentMeans(c: char, k: nat)
    requires k < 21 && ACCENTED[k] == c
    ensures FoldRune(c) == UNACCENTED[k]
  {
  }

  lemma NoAccent(c: char)
    requires c !in ACCENTED
    ensures FoldRune(c) == c
  {
  }

  lemma CharReads(t: Tables, r: char, oneAsL: bool)
    ensures StandsFor(t.toLower(r), oneAsL, ReadChar(t, r, oneAsL))
  {
    var c := t.toLower(r);
    SignsAreLeet(c);
    assert FoldRune('l') == 'l';
    forall k | 0 <= k < 14 && LEET_SIGNS[k] == c ensures LEET[c] == LEET_PLAIN[k] && FoldRune(LEET[c]) == LEET_PLAIN[k] { SignMeans(c, k); }
    forall k | 0 <= k < 21 && ACCENTED[k] == c ensures FoldRune(c) == UNACCENTED[k] { AccentMeans(c, k); }
    if c !in ACCENTED { NoAccent(c); }
  }

  // ----- words --------------------------------------------------------------------------------

  // v is w, or w backwards, lower-cased and with signs and accents undone.
  ghost predicate Spells(t: Tables, w: string, rev: bool, oneAsL: bool, v: string) {
    |v| == |w| && forall k :: 0 <= k < |w| ==> StandsFor(t.toLower(From(w, rev, k)), oneAsL, v[k])
  }

  lemma ReadAt(t: Tables, w: string, rev: bool, oneAsL: bool, k: nat)
    requires k < |w|
    ensures var word := ReadWord(t, w, rev, oneAsL).word;
            |word| == |w| && word[k] == ReadChar(t, From(w, rev, k), oneAsL)
  {
  }

  lemma ReadSpells(t: Tables, w: string, rev: bool, oneAsL: bool)
    ensures Spells(t, w, rev, oneAsL, ReadWord(t, w, rev, oneAsL).word)
  {
    forall k | 0 <= k < |w|
      ensures StandsFor(t.toLower(From(w, rev, k)), oneAsL, ReadWord(t, w, rev, oneAsL).word[k])
    {
      ReadAt(t, w, rev, oneAsL, k);
      CharReads(t, From(w, rev, k), oneAsL);
    }
  }

  lemma OneSpelling(t: Tables, w: string, rev: bool, oneAsL: bool, v: string, u: string)
    requires Spells(t, w, rev, oneAsL, v) && Spells(t, w, rev, oneAsL, u)
    ensures v == u
  {
    forall k | 0 <= k < |w| ensures v[k] == u[k] { OneMeaning(t.toLower(From(w, rev, k)), oneAsL, v[k], u[k]); }
  }

  lemma SpellsIs(t: Tables, w: string, rev: bool, oneAsL: bool, v: string)
    ensures Spells(t, w, rev, oneAsL, v) <==> v == ReadWord(t, w, rev, oneAsL).word
  {
    ReadSpells(t, w, rev, oneAsL);
    if Spells(t, w, rev, oneAsL, v) { OneSpelling(t, w, rev, oneAsL, v, ReadWord(t, w, rev, oneAsL).word); }
  }

  // The places at which p holds.
  ghost function Tally(w: string, p: char -> bool): nat {
    |set k | 0 <= k < |w| && p(w[k])|
  }

  lemma TallyLast(w: string, p: char -> bool, c: char)
    ensures Tally(w + [c], p) == Tally(w, p) + if p(c) then 1 else 0
  {
    var before := set k | 0 <= k < |w| && p(w[k]);
    assert (set k | 0 <= k < |w + [c]| && p((w + [c])[k])) == before + if p(c) then {|w|} else {};
  }

  lemma {:induction false} CountLast(w: string, p: char -> bool, c: char)
    ensures Count(w + [c], p) == Count(w, p) + if p(c) then 1 else 0
    decreases |w|
  {
    if w == "" {
      assert w + [c] == [c] && [c][1..] == "";
    } else {
      CountLast(w[1..], p, c);
      assert (w + [c])[1..] == w[1..] + [c];
    }
  }

  lemma {:induction false} CountIsTally(w: string, p: char -> bool)
    ensures Count(w, p) == Tally(w, p)
    decreases |w|
  {
    if w != "" {
      var n := |w| - 1;
      CountIsTally(w[..n], p);
      CountLast(w[..n], p, w[n]);
      TallyLast(w[..n], p, w[n]);
      assert w == w[..n] + [w[n]];
    }
  }

  lemma {:induction false} CountReversed(w: string, p: char -> bool)
    ensures Count(Reversed(w), p) == Count(w, p)
    decreases |w|
  {
    if w != "" {
      var n := |w| - 1;
      CountReversed(w[..n], p);
      CountLast(w[..n], p, w[n]);
      assert w == w[..n] + [w[n]];
      assert Reversed(w) == [w[n]] + Reversed(w[..n]);
      assert Reversed(w)[1..] == Reversed(w[..n]);
    }
  }

  function IsSign(t: Tables): char -> bool {
    c => t.toLower(c) in LEET_SIGNS
  }

  lemma {:induction false} SubsAreSigns(t: Tables, w: string)
    ensures Subs(t, w) == Count(w, IsSign(t))
    decreases |w|
  {
    if w != "" {
      SubsAreSigns(t, w[1..]);
      SignsAreLeet(t.toLower(w[0]));
    }
  }

  lemma SubsOf(t: Tables, w: string, rev: bool, oneAsL: bool)
    ensures ReadWord(t, w, rev, oneAsL).subs == Tally(w, IsSign(t)) && ReadWord(t, w, rev, oneAsL).reversed == rev
  {
    SubsAreSigns(t, if rev then Reversed(w) else w);
    CountReversed(w, IsSign(t));
    CountIsTally(w, IsSign(t));
  }

  // ----- case ---------------------------------------------------------------------------------

  // The number of ways to choose k of n, by Pascal's rule.
  function Choose(n: nat, k: nat): nat {
    if k == 0 then 1 else if n == 0 then 0 else Choose(n - 1, k - 1) + Choose(n - 1, k)
  }

  function ChooseUpTo(n: nat, k: nat): nat {
    if k == 0 then 0 else ChooseUpTo(n, k - 1) + Choose(n, k)
  }

  lemma {:induction false} Absorb(n: nat, k: nat)
    requires 0 < k <= n
    ensures k * Choose(n, k) == n * Choose(n - 1, k - 1)
    decreases n
  {
    var a, b := Choose(n - 1, k - 1), Choose(n - 1, k);
    if k == 1 {
      if n > 1 { Absorb(n - 1, 1); } else { Overfull(0, 1); }
      Single(n, b);
    } else {
      Absorb(n - 1, k - 1);
      if n == k { Overfull(n - 1, k); Overfull(n - 2, k - 1); } else { Absorb(n - 1, k); }
      Algebra(n, k, a, b, Choose(n - 2, k - 1), Choose(n - 2, k - 2));
    }
  }

  lemma Single(n: nat, b: nat)
    requires n > 0 && b == n - 1
    ensures 1 * (1 + b) == n * 1
  {
  }

  lemma Algebra(n: nat, k: nat, a: nat, b: nat, c: nat, d: nat)
    requires n > 1 && k > 1 && a == d + c && k * b == (n - 1) * c && (k - 1) * a == (n - 1) * d
    ensures k * (a + b) == n * a
  {
    assert k * (a + b) == a + (k - 1) * a + k * b;
    assert (n - 1) * d + (n - 1) * c == (n - 1) * (d + c);
    assert n * a == a + (n - 1) * a;
  }

  lemma {:induction false} Overfull(n: nat, k: nat)
    requires n < k
    ensures Choose(n, k) == 0
  {
    if n > 0 { Overfull(n - 1, k - 1); Overfull(n - 1, k); }
  }

  lemma {:induction false} BinomialIsChoose(n: nat, k: nat, u: nat)
    requires k <= n && u <= k
    ensures Binomial(n, k, u) == Choose(n - k + u, u) as real
    decreases u
  {
    if u > 0 {
      BinomialIsChoose(n, k, u - 1);
      Absorb(n - k + u, u);
      Divided(u, Choose(n - k + u, u), n - k + u, Choose(n - k + u - 1, u - 1));
    }
  }

  lemma Divided(u: nat, x: nat, m: nat, y: nat)
    requires u > 0 && u * x == m * y
    ensures y as real * m as real / u as real == x as real
  {
    assert u as real * x as real == (u * x) as real == (m * y) as real == m as real * y as real;
  }

  lemma {:induction false} WaysAreChoices(n: nat, k: nat)
    requires k <= n
    ensures Ways(n, k) == ChooseUpTo(n, k) as real
    decreases k
  {
    if k > 0 {
      WaysAreChoices(n, k - 1);
      BinomialIsChoose(n, k, k);
    }
  }

  // The places of letters that are lower and not upper case.
  ghost function LowerPlaces(t: Tables, w: string): nat {
    |set k | 0 <= k < |w| && t.isLower(w[k]) && !t.isUpper(w[k])|
  }

  // Free without upper case; one bit for a capital in front or all capitals; else the choices of where the rarer of the
  // two cases stands.
  ghost function CaseCost(t: Tables, w: string): real {
    var upper, lower := Tally(w, t.isUpper), LowerPlaces(t, w);
    if upper == 0 then 0.0
    else if lower == 0 || (upper == 1 && w != "" && t.isUpper(w[0])) then 1.0
    else t.log2(ChooseUpTo(upper + lower, Smaller(upper, lower)) as real)
  }

  function Smaller(a: nat, b: nat): nat { if a < b then a else b }

  lemma CaseBitsAre(t: Tables, w: string)
    ensures CaseBits(t, w) == CaseCost(t, w)
  {
    CountIsTally(w, t.isUpper);
    CountIsTally(w, OnlyLower(t));
    assert (set k | 0 <= k < |w| && t.isLower(w[k]) && !t.isUpper(w[k])) == set k | 0 <= k < |w| && OnlyLower(t)(w[k]);
    var upper, lower := Count(w, t.isUpper), Count(w, OnlyLower(t));
    if upper > 0 && lower > 0 { WaysAreChoices(upper + lower, Smaller(upper, lower)); }
  }

  // ----- the readings of a piece --------------------------------------------------------------

  // What case, signs and direction add to a word.
  ghost function Extra(t: Tables, w: string, rev: bool): real {
    CaseCost(t, w) + Tally(w, IsSign(t)) as real + (if rev then 1.0 else 0.0)
  }

  ghost predicate InList(t: Tables, w: string, rev: bool, oneAsL: bool, words: set<string>) {
    exists v :: v in words && Spells(t, w, rev, oneAsL, v)
  }

  // w is a word of the list under one of its four spellings, at base plus the extras.
  ghost predicate WordAt(t: Tables, w: string, words: set<string>, base: real, bits: real) {
    exists rev, oneAsL :: InList(t, w, rev, oneAsL, words) && bits == base + Extra(t, w, rev)
  }

  ghost predicate FourDigits(w: string) {
    |w| == 4 && forall k :: 0 <= k < 4 ==> w[k] in "0123456789"
  }

  // All characters are from lo to hi, each one step after the one before.
  ghost predicate StepsBy(w: string, lo: char, hi: char, step: int) {
    && (forall k :: 0 <= k < |w| ==> lo <= w[k] <= hi)
    && forall k :: 0 < k < |w| ==> w[k] as int == w[k - 1] as int + step
  }

  // A run of letters of one case or of digits, up or down; starting at an end of its range it is guessed sooner.
  ghost predicate RunAt(t: Tables, w: string, step: int, bits: real) {
    && w != "" && (step == 1 || step == -1)
    && (StepsBy(w, 'a', 'z', step) || StepsBy(w, 'A', 'Z', step) || StepsBy(w, '0', '9', step))
    && bits == t.log2((if w[0] in "aAzZ019" then 4.0 else if w[0] in "2345678" then 10.0 else 26.0) * |w| as real)
               + if step == 1 then 0.0 else 1.0
  }

  // w lies on a keyboard row from place o on, forwards or backwards.
  ghost predicate WalksAt(t: Tables, w: string, i: nat, o: nat, rev: bool) {
    && i < |t.keyboardRows| && o + |w| <= |t.keyboardRows[i]|
    && forall k :: 0 <= k < |w| ==> t.keyboardRows[i][o + k] == t.toLower(From(w, rev, k))
  }

  // w is its first b characters m times over, but for case.
  ghost predicate Repeats(t: Tables, w: string, b: nat, m: nat) {
    b > 0 && m >= 2 && |w| == m * b && forall k :: b <= k < |w| ==> t.toLower(w[k]) == t.toLower(w[k - b])
  }

  ghost predicate ShortestBlock(t: Tables, w: string, b: nat, m: nat) {
    Repeats(t, w, b, m) && forall c: nat, l: nat :: Repeats(t, w, c, l) ==> b <= c
  }

  /** The predictable readings of a piece and what each is worth. */
  ghost predicate Reads(t: Tables, w: string, ctx: set<string>, bits: real, code: Code) {
    match code
    case Context => WordAt(t, w, ctx, 2.0, bits)
    case Common => WordAt(t, w, t.common, 10.0, bits)
    case Dictionary => |w| >= 4 && WordAt(t, w, t.dict, 12.0, bits)
    case Year => FourDigits(w) && (w[..2] == "19" || w[..2] == "20") && bits == 7.65
    case Sequence => exists step :: RunAt(t, w, step, bits)
    case Keyboard => (exists i: nat, o: nat, rev :: WalksAt(t, w, i, o, rev)) && bits == t.log2(48.0 * |w| as real) + 1.0 + CaseCost(t, w)
    case Repeat => exists b: nat, m: nat :: ShortestBlock(t, w, b, m)
                     && bits == Estimate(t, w[..b], ctx) + t.log2(m as real) + CaseCost(t, w) / 2.0
    case Brute => false
  }

  // r is the least of the readings with one of these codes.
  ghost predicate Cheapest(t: Tables, w: string, ctx: set<string>, codes: set<Code>, r: Reading) {
    && (r.Segment? ==> r.code in codes && Reads(t, w, ctx, r.bits, r.code))
    && forall bits, code :: code in codes && Reads(t, w, ctx, bits, code) ==> r.Segment? && r.bits <= bits
  }

  // The order in which readings are tried; of equally cheap ones the first is kept.
  function Rank(code: Code): nat {
    match code
    case Year => 1
    case Sequence => 2
    case Keyboard => 3
    case Repeat => 4
    case _ => 0
  }

  ghost predicate KeptFirst(t: Tables, w: string, ctx: set<string>, codes: set<Code>, r: Reading) {
    r.Segment? ==> forall bits, code :: code in codes && Rank(code) < Rank(r.code) && Reads(t, w, ctx, bits, code) ==> r.bits < bits
  }

  lemma TakeKeepsFirst(t: Tables, w: string, ctx: set<string>, a: set<Code>, r: Reading, b: Code, q: Reading)
    requires Cheapest(t, w, ctx, a, r) && Cheapest(t, w, ctx, {b}, q) && KeptFirst(t, w, ctx, a, r)
    requires forall c :: c in a ==> Rank(c) < Rank(b)
    ensures KeptFirst(t, w, ctx, a + {b}, Take(r, q))
  {
  }

  lemma TakeCheapest(t: Tables, w: string, ctx: set<string>, a: set<Code>, r: Reading, b: set<Code>, q: Reading)
    requires Cheapest(t, w, ctx, a, r) && Cheapest(t, w, ctx, b, q)
    ensures Cheapest(t, w, ctx, a + b, Take(r, q))
  {
  }

  lemma YearIsCheapest(t: Tables, w: string, ctx: set<string>)
    ensures Cheapest(t, w, ctx, {Year}, YearBits(w))
  {
    if |w| == 4 {
      assert w[..2] == [w[0], w[1]];
      assert forall k :: 0 <= k < 4 ==> (w[k] in "0123456789" <==> '0' <= w[k] <= '9');
    }
  }

  // ----- words -------------------------------------------------------------------------------

  const WORDS := {Context, Common, Dictionary}

  lemma {:induction false} LongEnough(w: string)
    ensures ByteLen(w) >= |w|
    decreases |w|
  {
    if w != "" { LongEnough(w[1..]); }
  }

  lemma InListIs(t: Tables, w: string, rev: bool, oneAsL: bool, words: set<string>)
    ensures InList(t, w, rev, oneAsL, words) <==> ReadWord(t, w, rev, oneAsL).word in words
  {
    forall v ensures Spells(t, w, rev, oneAsL, v) <==> v == ReadWord(t, w, rev, oneAsL).word { SpellsIs(t, w, rev, oneAsL, v); }
  }

  // What one of the four spellings gives.
  ghost predicate VariantRead(t: Tables, w: string, ctx: set<string>, rev: bool, oneAsL: bool, r: Reading) {
    if InList(t, w, rev, oneAsL, ctx) then r == Segment(2.0 + Extra(t, w, rev), Context)
    else if InList(t, w, rev, oneAsL, t.common) then r == Segment(10.0 + Extra(t, w, rev), Common)
    else if |w| >= 4 && InList(t, w, rev, oneAsL, t.dict) then r == Segment(12.0 + Extra(t, w, rev), Dictionary)
    else r == NoMatch
  }

  lemma VariantReads(t: Tables, w: string, ctx: set<string>, rev: bool, oneAsL: bool)
    requires |w| >= 3
    ensures VariantRead(t, w, ctx, rev, oneAsL, ReadVariant(t, ReadWord(t, w, rev, oneAsL), CaseBits(t, w), ctx))
  {
    var v := ReadWord(t, w, rev, oneAsL);
    LongEnough(v.word);
    SubsOf(t, w, rev, oneAsL);
    CaseBitsAre(t, w);
    InListIs(t, w, rev, oneAsL, ctx);
    InListIs(t, w, rev, oneAsL, t.common);
    InListIs(t, w, rev, oneAsL, t.dict);
  }

  // r is at most what the given spellings cost, and one of them.
  ghost predicate Among(t: Tables, w: string, ctx: set<string>, given: set<(bool, bool)>, r: Reading) {
    && (r.Segment? ==> r.code in WORDS && Reads(t, w, ctx, r.bits, r.code))
    && forall s, base, words :: s in given && InList(t, w, s.0, s.1, words) && ListBase(t, w, ctx, words, base) ==>
         r.Segment? && r.bits <= base + Extra(t, w, s.0)
  }

  ghost predicate ListBase(t: Tables, w: string, ctx: set<string>, words: set<string>, base: real) {
    (words == ctx && base == 2.0) || (words == t.common && base == 10.0) || (|w| >= 4 && words == t.dict && base == 12.0)
  }

  lemma VariantAmong(t: Tables, w: string, ctx: set<string>, rev: bool, oneAsL: bool, r: Reading)
    requires VariantRead(t, w, ctx, rev, oneAsL, r)
    ensures Among(t, w, ctx, {(rev, oneAsL)}, r)
  {
  }

  lemma TakeAmong(t: Tables, w: string, ctx: set<string>, a: set<(bool, bool)>, r: Reading, b: set<(bool, bool)>, q: Reading)
    requires Among(t, w, ctx, a, r) && Among(t, w, ctx, b, q)
    ensures Among(t, w, ctx, a + b, Take(r, q))
  {
  }

  lemma AmongAll(t: Tables, w: string, ctx: set<string>, given: set<(bool, bool)>, r: Reading)
    requires Among(t, w, ctx, given, r) && forall rev, oneAsL :: (rev, oneAsL) in given
    ensures Cheapest(t, w, ctx, WORDS, r)
  {
    forall bits, code | code in WORDS && Reads(t, w, ctx, bits, code) ensures r.Segment? && r.bits <= bits {
      var words := if code == Context then ctx else if code == Common then t.common else t.dict;
      var base := if code == Context then 2.0 else if code == Common then 10.0 else 12.0;
      var rev, oneAsL :| InList(t, w, rev, oneAsL, words) && bits == base + Extra(t, w, rev);
      assert (rev, oneAsL) in given && ListBase(t, w, ctx, words, base);
    }
  }

  lemma WordIsCheapest(t: Tables, w: string, ctx: set<string>)
    requires |w| >= 3
    ensures Cheapest(t, w, ctx, WORDS, MatchWord(t, w, ctx))
  {
    var e := CaseBits(t, w);
    var r := (rev: bool, oneAsL: bool) => ReadVariant(t, ReadWord(t, w, rev, oneAsL), e, ctx);
    forall rev, oneAsL ensures Among(t, w, ctx, {(rev, oneAsL)}, r(rev, oneAsL)) {
      VariantReads(t, w, ctx, rev, oneAsL);
      VariantAmong(t, w, ctx, rev, oneAsL, r(rev, oneAsL));
    }
    var a, b, c, d := {(false, false)}, {(false, true)}, {(true, false)}, {(true, true)};
    TakeAmong(t, w, ctx, a, r(false, false), b, r(false, true));
    TakeAmong(t, w, ctx, a + b, Take(r(false, false), r(false, true)), c, r(true, false));
    TakeAmong(t, w, ctx, a + b + c, Take(Take(r(false, false), r(false, true)), r(true, false)), d, r(true, true));
    AmongAll(t, w, ctx, a + b + c + d, MatchWord(t, w, ctx));
  }

  // ----- runs, walks and repeats ----------------------------------------------------------------

  lemma ClassRange(c: char)
    ensures ClassOf(c) == 'l' <==> 'a' <= c <= 'z'
    ensures ClassOf(c) == 'u' <==> 'A' <= c <= 'Z'
    ensures ClassOf(c) == 'd' <==> '0' <= c <= '9'
    ensures c in "aAzZ019" ==> ClassOf(c) != 's'
    ensures ClassOf(c) == 'd' && c !in "aAzZ019" <==> c in "2345678"
    ensures ClassOf(c) in "luds"
  {
  }

  // One class throughout, each one step after the one before.
  ghost predicate Stepwise(w: string, step: int) {
    w != "" && ClassOf(w[0]) != 's' && forall k :: 0 < k < |w| ==> w[k] as int - w[k - 1] as int == step && ClassOf(w[k]) == ClassOf(w[0])
  }

  lemma StepwiseIff(w: string, step: int)
    requires w != ""
    ensures Stepwise(w, step) <==> StepsBy(w, 'a', 'z', step) || StepsBy(w, 'A', 'Z', step) || StepsBy(w, '0', '9', step)
  {
    forall k | 0 <= k < |w|
      ensures ClassOf(w[k]) == 'l' <==> 'a' <= w[k] <= 'z'
      ensures ClassOf(w[k]) == 'u' <==> 'A' <= w[k] <= 'Z'
      ensures ClassOf(w[k]) == 'd' <==> '0' <= w[k] <= '9'
    {
      ClassRange(w[k]);
    }
    ClassRange(w[0]);
  }

  lemma SequenceIs(t: Tables, w: string)
    requires |w| >= 3
    ensures SequenceBits(t, w).Segment? <==> exists step :: (step == 1 || step == -1) && Stepwise(w, step)
    ensures SequenceBits(t, w).Segment? ==> SequenceBits(t, w).code == Sequence
    ensures forall step :: (step == 1 || step == -1) && Stepwise(w, step) ==> RunAt(t, w, step, SequenceBits(t, w).bits)
  {
    var delta := w[1] as int - w[0] as int;
    ClassRange(w[0]);
    forall step | Stepwise(w, step) ensures step == delta { assert w[1] as int - w[0] as int == step; }
    if SequenceBits(t, w).Segment? { assert Stepwise(w, delta); }
    StepwiseIff(w, delta);
  }

  lemma SequenceIsCheapest(t: Tables, w: string, ctx: set<string>)
    requires |w| >= 3
    ensures Cheapest(t, w, ctx, {Sequence}, SequenceBits(t, w))
  {
    SequenceIs(t, w);
    forall step, bits | RunAt(t, w, step, bits) ensures SequenceBits(t, w) == Segment(bits, Sequence) {
      StepwiseIff(w, step);
      assert Stepwise(w, step) && RunAt(t, w, step, SequenceBits(t, w).bits);
    }
  }

  lemma WalksIff(t: Tables, w: string, i: nat, o: nat, rev: bool)
    requires i < |t.keyboardRows|
    ensures WalksAt(t, w, i, o, rev) <==> OccursAt(t.keyboardRows[i], if rev then Reversed(Lowered(t, w)) else Lowered(t, w), o)
  {
    var row, lw := t.keyboardRows[i], if rev then Reversed(Lowered(t, w)) else Lowered(t, w);
    if o + |w| <= |row| {
      assert |row[o..o + |w|]| == |lw| == |w|;
      forall k | 0 <= k < |w| ensures row[o..o + |w|][k] == row[o + k] && lw[k] == t.toLower(From(w, rev, k)) {}
    }
  }

  lemma OnARow(t: Tables, w: string)
    ensures (exists i: nat, o: nat, rev :: WalksAt(t, w, i, o, rev)) <==>
            exists i :: 0 <= i < |t.keyboardRows| && (Contains(t.keyboardRows[i], Lowered(t, w)) || Contains(t.keyboardRows[i], Reversed(Lowered(t, w))))
  {
    if i: nat, o: nat, rev :| WalksAt(t, w, i, o, rev) {
      WalksIff(t, w, i, o, rev);
      assert Contains(t.keyboardRows[i], if rev then Reversed(Lowered(t, w)) else Lowered(t, w));
    }
    if i: nat :| i < |t.keyboardRows| && (Contains(t.keyboardRows[i], Lowered(t, w)) || Contains(t.keyboardRows[i], Reversed(Lowered(t, w)))) {
      var rev := !Contains(t.keyboardRows[i], Lowered(t, w));
      var o :| 0 <= o <= |t.keyboardRows[i]| && OccursAt(t.keyboardRows[i], if rev then Reversed(Lowered(t, w)) else Lowered(t, w), o);
      WalksIff(t, w, i, o, rev);
    }
  }

  lemma KeyboardIsCheapest(t: Tables, w: string, ctx: set<string>)
    ensures Cheapest(t, w, ctx, {Keyboard}, KeyboardBits(t, w))
  {
    CaseBitsAre(t, w);
    OnARow(t, w);
  }

  lemma Times(w: nat, b: nat)
    requires 0 < b <= w / 2 && w % b == 0
    ensures w == (w / b) * b && w / b >= 2
  {
  }

  lemma TimesBack(w: nat, b: nat, m: nat)
    requires b > 0 && m >= 2 && w == m * b
    ensures b <= w / 2 && w % b == 0 && w / b == m
  {
    Quotient(w, b, m);
    assert w >= 2 * b by { assert m * b == 2 * b + (m - 2) * b; }
  }

  lemma Quotient(w: nat, b: nat, m: nat)
    requires b > 0 && w == m * b
    ensures w % b == 0 && w / b == m
  {
    var q, r := w / b, w % b;
    assert w == q * b + r && (m - q) * b == r;
    assert m - q >= 1 ==> (m - q) * b >= b;
    assert m - q <= -1 ==> (m - q) * b <= 0 - b;
  }

  lemma RepeatsIff(t: Tables, w: string, b: nat)
    ensures 0 < b <= |w| / 2 && Periodic(t, w, b) <==> Repeats(t, w, b, if b == 0 then 0 else |w| / b)
    ensures forall m: nat :: Repeats(t, w, b, m) ==> b > 0 && m == |w| / b
  {
    forall m: nat | Repeats(t, w, b, m) ensures b > 0 && m == |w| / b && b <= |w| / 2 && |w| % b == 0 { TimesBack(|w|, b, m); }
    if 0 < b <= |w| / 2 && |w| % b == 0 { Times(|w|, b); }
  }

  lemma BlockIs(t: Tables, w: string)
    ensures var b := BlockFrom(t, w, 1);
            && (b == 0 ==> forall c: nat, l: nat :: !Repeats(t, w, c, l))
            && (b > 0 ==> ShortestBlock(t, w, b, |w| / b))
  {
    var b := BlockFrom(t, w, 1);
    forall c: nat, l: nat | Repeats(t, w, c, l) ensures 0 < b <= c { RepeatsIff(t, w, c); }
    RepeatsIff(t, w, b);
  }

  lemma RepeatIsCheapest(t: Tables, w: string, ctx: set<string>)
    ensures Cheapest(t, w, ctx, {Repeat}, RepeatBits(t, w, ctx))
  {
    CaseBitsAre(t, w);
    BlockIs(t, w);
    var b := BlockFrom(t, w, 1);
    forall c: nat, l: nat | ShortestBlock(t, w, c, l) ensures c == b && l == |w| / b { RepeatsIff(t, w, c); }
  }

  // ----- together --------------------------------------------------------------------------------

  const PATTERNS := {Context, Common, Dictionary, Year, Sequence, Keyboard, Repeat}

  // One more kind of reading, tried after those so far.
  lemma OneMoreKind(t: Tables, w: string, ctx: set<string>, a: set<Code>, r: Reading, b: Code, q: Reading)
    requires Cheapest(t, w, ctx, a, r) && KeptFirst(t, w, ctx, a, r) && Cheapest(t, w, ctx, {b}, q)
    requires forall c :: c in a ==> Rank(c) < Rank(b)
    ensures Cheapest(t, w, ctx, a + {b}, Take(r, q)) && KeptFirst(t, w, ctx, a + {b}, Take(r, q))
  {
    TakeCheapest(t, w, ctx, a, r, {b}, q);
    TakeKeepsFirst(t, w, ctx, a, r, b, q);
  }

  const UP_TO_YEAR := {Context, Common, Dictionary, Year}
  const UP_TO_RUN := {Context, Common, Dictionary, Year, Sequence}
  const UP_TO_WALK := {Context, Common, Dictionary, Year, Sequence, Keyboard}

  ghost predicate Best(t: Tables, w: string, ctx: set<string>, codes: set<Code>, r: Reading) {
    Cheapest(t, w, ctx, codes, r) && KeptFirst(t, w, ctx, codes, r)
  }

  lemma WordOrYear(t: Tables, w: string, ctx: set<string>)
    requires |w| >= 3
    ensures Best(t, w, ctx, UP_TO_YEAR, Take(MatchWord(t, w, ctx), YearBits(w)))
  {
    var r := MatchWord(t, w, ctx);
    WordIsCheapest(t, w, ctx);
    WordsKeptFirst(t, w, ctx, r);
    OrYear(t, w, ctx, r);
  }

  lemma OrYear(t: Tables, w: string, ctx: set<string>, r: Reading)
    requires Best(t, w, ctx, WORDS, r)
    ensures Best(t, w, ctx, UP_TO_YEAR, Take(r, YearBits(w)))
  {
    YearIsCheapest(t, w, ctx);
    OneMoreKind(t, w, ctx, WORDS, r, Year, YearBits(w));
    assert WORDS + {Year} == UP_TO_YEAR;
  }

  lemma WordsKeptFirst(t: Tables, w: string, ctx: set<string>, r: Reading)
    requires Cheapest(t, w, ctx, WORDS, r)
    ensures KeptFirst(t, w, ctx, WORDS, r)
  {
  }

  lemma OrRun(t: Tables, w: string, ctx: set<string>, r: Reading)
    requires |w| >= 3 && Best(t, w, ctx, UP_TO_YEAR, r)
    ensures Best(t, w, ctx, UP_TO_RUN, Take(r, SequenceBits(t, w)))
  {
    SequenceIsCheapest(t, w, ctx);
    OneMoreKind(t, w, ctx, UP_TO_YEAR, r, Sequence, SequenceBits(t, w));
    assert UP_TO_YEAR + {Sequence} == UP_TO_RUN;
  }

  lemma OrWalk(t: Tables, w: string, ctx: set<string>, r: Reading)
    requires Best(t, w, ctx, UP_TO_RUN, r)
    ensures Best(t, w, ctx, UP_TO_WALK, Take(r, KeyboardBits(t, w)))
  {
    KeyboardIsCheapest(t, w, ctx);
    OneMoreKind(t, w, ctx, UP_TO_RUN, r, Keyboard, KeyboardBits(t, w));
    assert UP_TO_RUN + {Keyboard} == UP_TO_WALK;
  }

  lemma OrRepeat(t: Tables, w: string, ctx: set<string>, r: Reading)
    requires Best(t, w, ctx, UP_TO_WALK, r)
    ensures Best(t, w, ctx, PATTERNS, Take(r, RepeatBits(t, w, ctx)))
  {
    RepeatIsCheapest(t, w, ctx);
    OneMoreKind(t, w, ctx, UP_TO_WALK, r, Repeat, RepeatBits(t, w, ctx));
    assert UP_TO_WALK + {Repeat} == PATTERNS;
  }

  /** matchPattern gives the cheapest of the readings a piece has, the first kind of those as cheap, and none exactly
      when it has none. */
  lemma MatchIsCheapest(t: Tables, w: string, ctx: set<string>)
    requires |w| >= 3
    ensures Best(t, w, ctx, PATTERNS, Match(t, w, ctx))
  {
    var r := Take(MatchWord(t, w, ctx), YearBits(w));
    WordOrYear(t, w, ctx);
    OrRun(t, w, ctx, r);
    r := Take(r, SequenceBits(t, w));
    OrWalk(t, w, ctx, r);
    r := Take(r, KeyboardBits(t, w));
    OrRepeat(t, w, ctx, r);
  }

  // ----- the pool of a secret ------------------------------------------------------------------

  // Small letters, capitals, digits, other ASCII, everything else.
  datatype Class = Small | Capital | Digit | Sign | Foreign

  function ClassIn(c: char): Class {
    if 'a' <= c <= 'z' then Small else if 'A' <= c <= 'Z' then Capital else if '0' <= c <= '9' then Digit
    else if c < '\U{80}' then Sign else Foreign
  }

  function Size(k: Class): real {
    match k
    case Small => 26.0
    case Capital => 26.0
    case Digit => 10.0
    case Sign => 33.0
    case Foreign => 100.0
  }

  ghost predicate Occurs(k: Class, s: string) {
    exists i :: 0 <= i < |s| && ClassIn(s[i]) == k
  }

  // The sizes of the classes that occur in s, each counted at its first character.
  ghost function Pool(s: string): real {
    if s == "" then 0.0
    else
      var n := |s| - 1;
      Pool(s[..n]) + if Occurs(ClassIn(s[n]), s[..n]) then 0.0 else Size(ClassIn(s[n]))
  }

  ghost function OneEach(s: string): real {
    (if Occurs(Small, s) then 26.0 else 0.0) + (if Occurs(Capital, s) then 26.0 else 0.0)
    + (if Occurs(Digit, s) then 10.0 else 0.0) + (if Occurs(Sign, s) then 33.0 else 0.0)
    + (if Occurs(Foreign, s) then 100.0 else 0.0)
  }

  lemma OccursLast(k: Class, s: string, c: char)
    ensures Occurs(k, s + [c]) <==> Occurs(k, s) || ClassIn(c) == k
  {
    if Occurs(k, s) {
      var i :| 0 <= i < |s| && ClassIn(s[i]) == k;
      assert (s + [c])[i] == s[i];
    }
    assert (s + [c])[|s|] == c;
  }

  lemma {:induction false} PoolIsOneEach(s: string)
    ensures Pool(s) == OneEach(s)
    decreases |s|
  {
    if s != "" {
      var n := |s| - 1;
      PoolIsOneEach(s[..n]);
      assert s == s[..n] + [s[n]];
      OccursLast(Small, s[..n], s[n]);
      OccursLast(Capital, s[..n], s[n]);
      OccursLast(Digit, s[..n], s[n]);
      OccursLast(Sign, s[..n], s[n]);
      OccursLast(Foreign, s[..n], s[n]);
    }
  }

  lemma PartIs(s: string, kind: char -> bool, k: Class)
    requires forall c :: kind(c) <==> ClassIn(c) == k
    ensures Part(s, kind, Size(k)) == if Occurs(k, s) then Size(k) else 0.0
  {
  }

  lemma PoolSizeIs(s: string)
    requires s != ""
    ensures PoolSize(s) == Pool(s)
  {
    PoolIsOneEach(s);
    PartIs(s, LOWER, Small);
    PartIs(s, UPPER, Capital);
    PartIs(s, DIGIT, Digit);
    PartIs(s, SYMBOL, Sign);
    PartIs(s, OTHER, Foreign);
    assert Occurs(ClassIn(s[0]), s);
  }

  // ----- the estimate -----------------------------------------------------------------------------

  // The piece from i to j is one character of the pool, or has a reading of that price.
  ghost predicate PieceCosts(t: Tables, s: string, ctx: set<string>, i: nat, j: nat, bits: real, code: Code) {
    && i < j <= |s|
    && if j == i + 1 then bits == t.log2(Pool(s)) && code == Brute else j >= i + 3 && Reads(t, s[i..j], ctx, bits, code)
  }

  // s cut at cuts, the pieces read as codes at prices.
  ghost predicate Plan(t: Tables, s: string, ctx: set<string>, cuts: seq<nat>, prices: seq<real>, codes: seq<Code>) {
    && |cuts| == |prices| + 1 == |codes| + 1 && cuts[0] == 0 && cuts[|cuts| - 1] == |s|
    && forall k :: 0 <= k < |prices| ==> PieceCosts(t, s, ctx, cuts[k], cuts[k + 1], prices[k], codes[k])
  }

  function Total(prices: seq<real>): real {
    if prices == [] then 0.0 else Total(prices[..|prices| - 1]) + prices[|prices| - 1]
  }

  // e is the cheapest way to read the piece.
  ghost predicate BestPiece(t: Tables, s: string, ctx: set<string>, i: nat, j: nat, e: Reading) {
    && (e.Segment? ==> PieceCosts(t, s, ctx, i, j, e.bits, e.code))
    && forall bits, code :: PieceCosts(t, s, ctx, i, j, bits, code) ==> e.Segment? && e.bits <= bits
  }

  lemma EdgeIsBest(t: Tables, s: string, ctx: set<string>, i: nat, j: nat)
    requires i < j <= |s|
    ensures BestPiece(t, s, ctx, i, j, EdgesOf(t, s, ctx)(i, j))
  {
    EdgeAt(t, s, ctx, i, j);
    if j == i + 1 { PoolSizeIs(s); }
    if j >= i + 3 {
      MatchIsCheapest(t, s[i..j], ctx);
      PatternIsBest(t, s, ctx, i, j, Match(t, s[i..j], ctx));
    }
  }

  lemma PatternIsBest(t: Tables, s: string, ctx: set<string>, i: nat, j: nat, r: Reading)
    requires i + 3 <= j <= |s| && Cheapest(t, s[i..j], ctx, PATTERNS, r)
    ensures BestPiece(t, s, ctx, i, j, r)
  {
    forall bits, code | PieceCosts(t, s, ctx, i, j, bits, code) ensures r.Segment? && r.bits <= bits {
      assert code in PATTERNS && Reads(t, s[i..j], ctx, bits, code);
    }
  }

  // The cheapest readings along the cuts of a plan cost no more than the plan.
  lemma {:induction false} PlanCovered(t: Tables, s: string, ctx: set<string>, cuts: seq<nat>, prices: seq<real>, codes: seq<Code>, n: nat)
    requires n <= |prices| && |cuts| == |prices| + 1 == |codes| + 1 && cuts[0] == 0
    requires forall k :: 0 <= k < |prices| ==> PieceCosts(t, s, ctx, cuts[k], cuts[k + 1], prices[k], codes[k])
    ensures Covers(EdgesOf(t, s, ctx), cuts[..n + 1], cuts[n]) && Price(EdgesOf(t, s, ctx), cuts[..n + 1]) <= Total(prices[..n])
    decreases n
  {
    var edge := EdgesOf(t, s, ctx);
    if n > 0 {
      PlanCovered(t, s, ctx, cuts, prices, codes, n - 1);
      PieceCovered(t, s, ctx, cuts[n - 1], cuts[n - 1 + 1], prices[n - 1], codes[n - 1]);
      OneMorePiece(edge, cuts, n, prices);
    }
  }

  lemma PieceCovered(t: Tables, s: string, ctx: set<string>, i: nat, j: nat, bits: real, code: Code)
    requires PieceCosts(t, s, ctx, i, j, bits, code)
    ensures i < j && EdgesOf(t, s, ctx)(i, j).Segment? && EdgesOf(t, s, ctx)(i, j).bits <= bits
  {
    EdgeIsBest(t, s, ctx, i, j);
  }

  lemma OneMorePiece(edge: Edges<Code>, cuts: seq<nat>, n: nat, prices: seq<real>)
    requires 0 < n <= |prices| && n < |cuts| && cuts[n - 1] < cuts[n]
    requires Covers(edge, cuts[..n], cuts[n - 1]) && Price(edge, cuts[..n]) <= Total(prices[..n - 1])
    requires edge(cuts[n - 1], cuts[n]).Segment? && edge(cuts[n - 1], cuts[n]).bits <= prices[n - 1]
    ensures Covers(edge, cuts[..n + 1], cuts[n]) && Price(edge, cuts[..n + 1]) <= Total(prices[..n])
  {
    Appended(edge, cuts[..n], cuts[n - 1], cuts[n]);
    assert cuts[..n] + [cuts[n]] == cuts[..n + 1];
    assert prices[..n][..n - 1] == prices[..n - 1];
  }

  /** No way to cut the secret into single characters and readable pieces costs less than the estimate. */
  lemma EstimateAtMost(t: Tables, s: string, ctx: set<string>, cuts: seq<nat>, prices: seq<real>, codes: seq<Code>)
    requires Plan(t, s, ctx, cuts, prices, codes)
    ensures Estimate(t, s, ctx) <= Total(prices)
  {
    PlanCovered(t, s, ctx, cuts, prices, codes, |prices|);
    assert cuts[..|prices| + 1] == cuts && prices[..|prices|] == prices;
    SingleSteps(t, s, ctx);
    NoneCheaper(EdgesOf(t, s, ctx), cuts, |s|);
  }

  /** So a secret that as a whole has a reading is worth at most that. */
  lemma OneReading(t: Tables, s: string, ctx: set<string>, bits: real, code: Code)
    requires |s| >= 3 && Reads(t, s, ctx, bits, code)
    ensures Estimate(t, s, ctx) <= bits
  {
    assert s[0..|s|] == s && [bits][..0] == [] && Total([bits]) == bits;
    assert Plan(t, s, ctx, [0, |s|], [bits], [code]);
    EstimateAtMost(t, s, ctx, [0, |s|], [bits], [code]);
  }

  // The plan along a cover.
  lemma {:induction false} CoverIsPlan(t: Tables, s: string, ctx: set<string>, cuts: seq<nat>, j: nat) returns (prices: seq<real>, codes: seq<Code>)
    requires Covers(EdgesOf(t, s, ctx), cuts, j) && j <= |s|
    ensures |cuts| == |prices| + 1 == |codes| + 1
    ensures forall k :: 0 <= k < |prices| ==> PieceCosts(t, s, ctx, cuts[k], cuts[k + 1], prices[k], codes[k])
    ensures Total(prices) == Price(EdgesOf(t, s, ctx), cuts)
    ensures (set c | c in codes) == CodesOf(EdgesOf(t, s, ctx), cuts)
    decreases |cuts|
  {
    var edge, m := EdgesOf(t, s, ctx), |cuts| - 1;
    if m == 0 {
      prices, codes := [], [];
    } else {
      CoversPrefix(edge, cuts, j);
      var p, c := CoverIsPlan(t, s, ctx, cuts[..m], cuts[m - 1]);
      EdgeIsBest(t, s, ctx, cuts[m - 1], j);
      prices, codes := p + [edge(cuts[m - 1], j).bits], c + [edge(cuts[m - 1], j).code];
      assert prices[..m - 1] == p;
      forall k | 0 <= k < |prices| ensures PieceCosts(t, s, ctx, cuts[k], cuts[k + 1], prices[k], codes[k]) {
        if k < m - 1 { assert PieceCosts(t, s, ctx, cuts[..m][k], cuts[..m][k + 1], p[k], c[k]); }
      }
      assert (set x | x in codes) == (set x | x in c) + {edge(cuts[m - 1], j).code};
    }
  }

  /** estimate as it runs: the bits, and the pattern codes of a way to cut the secret that costs exactly that. */
  method EstimateRun(t: Tables, s: string, ctx: set<string>) returns (bits: real, codes: set<Code>)
    ensures bits == Estimate(t, s, ctx)
    ensures exists cuts, prices, kinds ::
              && Plan(t, s, ctx, cuts, prices, kinds) && Total(prices) == bits && Earliest(EdgesOf(t, s, ctx), cuts)
              && codes == (set c | c in kinds) - {Brute}
  {
    var edge, n := EdgesOf(t, s, ctx), |s|;
    var best, from, via := Fill(edge, n, Brute);
    SingleSteps(t, s, ctx);
    assert best[n] == Reach(edge, n, n);
    ghost var cuts := Spelled(edge, best[..], from[..], via[..], n, n);
    BackwardPointers(t, s, ctx, best[..], from[..], via[..]);
    var all := ReadBack(from, via, n);
    bits, codes := best[n].v, all - {Brute};
    ghost var prices, kinds := CoverIsPlan(t, s, ctx, cuts, n);
    assert Plan(t, s, ctx, cuts, prices, kinds);
  }

  lemma BackwardPointers(t: Tables, s: string, ctx: set<string>, best: seq<Cost>, from: seq<nat>, via: seq<Code>)
    requires |best| == |s| + 1
    requires Filled(EdgesOf(t, s, ctx), best, |s|, 0) && Pointers(EdgesOf(t, s, ctx), best, from, via)
    ensures forall j :: 0 < j <= |s| ==> from[j] < j
  {
    var edge := EdgesOf(t, s, ctx);
    StepsPriced(t, s, ctx);
    forall j | 0 < j <= |s| ensures from[j] < j {
      Reachable(edge, j);
      assert PointsBack(edge, best, from, via, j);
    }
  }
}
