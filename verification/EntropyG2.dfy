/** The diceware-style generator G2 and the entropy credited to it. Draws are uniform, so the claim "at least
    so many bits" is a count: no text is printed by more than the credited share of all draws. */
module EntropyG2 {
  import opened Counting

  datatype Digits = NoDigits | Group(count: nat, glued: bool)

  // What normalizeG2 leaves: lists without duplicates or empty strings, at least one word drawn.
  datatype Params = Params(words: seq<string>, wordCount: nat, separators: seq<string>, digits: Digits)

  ghost predicate Deduplicated(l: seq<string>) {
    && l != [] && (forall i :: 0 <= i < |l| ==> l[i] != "")
    && (forall i, j :: 0 <= i < j < |l| ==> l[i] != l[j])
  }

  ghost predicate Normalized(p: Params) {
    Deduplicated(p.words) && Deduplicated(p.separators) && p.wordCount >= 1
  }

  // Separator index, word indices, digits.
  type Draw = (nat, (seq<nat>, seq<nat>))

  function DigitCount(p: Params): nat {
    if p.digits.Group? then p.digits.count else 0
  }

  ghost function AllDraws(p: Params): set<Draw> {
    Pairs(Range(|p.separators|), Pairs(Lists(|p.words|, p.wordCount), Lists(10, DigitCount(p))))
  }

  // ----- the generator ------------------------------------------------------------------

  function At(l: seq<string>, i: nat): string {
    if i < |l| then l[i] else ""
  }

  function Picked(p: Params, picks: seq<nat>): seq<string> {
    seq(|picks|, i requires 0 <= i < |picks| => At(p.words, picks[i]))
  }

  function Join(ws: seq<string>, sep: string): string {
    if ws == [] then "" else if |ws| == 1 then ws[0] else ws[0] + (sep + Join(ws[1..], sep))
  }

  function DigitText(g: seq<nat>): string {
    seq(|g|, i requires 0 <= i < |g| => if g[i] < 10 then "0123456789"[g[i]] else '0')
  }

  // A separated digit group is set off by one more separator.
  predicate Trailing(p: Params) {
    p.digits.Group? && !p.digits.glued
  }

  function Body(p: Params, ws: seq<string>, sep: string): string {
    Join(ws, sep) + if Trailing(p) then sep else ""
  }

  function Printed(p: Params, d: Draw): string {
    Body(p, Picked(p, d.1.0), At(p.separators, d.0)) + if p.digits.Group? then DigitText(d.1.1) else ""
  }

  function Glued(ws: seq<string>, suffix: string): seq<string>
    requires ws != []
  {
    ws[|ws| - 1 := ws[|ws| - 1] + suffix]
  }

  lemma GluedTail(ws: seq<string>, suffix: string)
    requires |ws| > 1
    ensures Glued(ws, suffix)[0] == ws[0] && Glued(ws, suffix)[1..] == Glued(ws[1..], suffix)
  {
  }

  lemma Concat(a: string, b: string, c: string, d: string)
    ensures a + (b + (c + d)) == (a + (b + c)) + d
  {
  }

  lemma {:induction false} JoinGlued(ws: seq<string>, sep: string, suffix: string)
    requires ws != []
    ensures Join(Glued(ws, suffix), sep) == Join(ws, sep) + suffix
    decreases |ws|
  {
    if |ws| > 1 {
      JoinGlued(ws[1..], sep, suffix);
      GluedTail(ws, suffix);
      Concat(ws[0], sep, Join(ws[1..], sep), suffix);
    }
  }

  // ----- what is printed, piece by piece ---------------------------------------------------------

  function Flat(pieces: seq<string>): string {
    if pieces == [] then "" else pieces[0] + Flat(pieces[1..])
  }

  lemma {:induction false} FlatSum(a: seq<string>, b: seq<string>)
    ensures Flat(a + b) == Flat(a) + Flat(b)
    decreases |a|
  {
    if a == [] {
      assert a + b == b;
    } else {
      FlatSum(a[1..], b);
      assert (a + b)[1..] == a[1..] + b;
      assert a[0] + (Flat(a[1..]) + Flat(b)) == (a[0] + Flat(a[1..])) + Flat(b);
    }
  }

  // Words at the even places, the separator at the odd ones between them.
  function Between(ws: seq<string>, sep: string): seq<string>
    requires ws != []
  {
    seq(2 * |ws| - 1, i requires 0 <= i < 2 * |ws| - 1 => if i % 2 == 0 then ws[i / 2] else sep)
  }

  lemma {:induction false} JoinIsFlat(ws: seq<string>, sep: string)
    requires ws != []
    ensures Join(ws, sep) == Flat(Between(ws, sep))
    decreases |ws|
  {
    var all := Between(ws, sep);
    if |ws| == 1 {
      assert all == [ws[0]] && all[1..] == [];
      assert ws[0] + "" == ws[0];
    } else {
      JoinIsFlat(ws[1..], sep);
      BetweenTail(ws, sep);
      assert all[1..][0] == sep && all[1..][1..] == all[2..];
    }
  }

  lemma BetweenTail(ws: seq<string>, sep: string)
    requires |ws| > 1
    ensures Between(ws, sep)[0] == ws[0] && Between(ws, sep)[1] == sep && Between(ws, sep)[2..] == Between(ws[1..], sep)
  {
    var all, rest := Between(ws, sep), Between(ws[1..], sep);
    forall i | 0 <= i < |rest| ensures all[2..][i] == rest[i] {
      assert all[2..][i] == all[i + 2] && (i + 2) / 2 == i / 2 + 1 && (i + 2) % 2 == i % 2;
    }
  }

  // The drawn words with the drawn separator between them, one more before a digit group of its own, and the digits.
  ghost function Pieces(p: Params, d: Draw): seq<string>
    requires p.wordCount >= 1 && d in AllDraws(p)
  {
    DrawShape(p, d);
    Between(seq(p.wordCount, i requires 0 <= i < p.wordCount => p.words[d.1.0[i]]), p.separators[d.0])
    + (if p.digits.Group? && !p.digits.glued then [p.separators[d.0]] else [])
    + (if p.digits.Group? then [seq(p.digits.count, i requires 0 <= i < p.digits.count => ('0' as int + d.1.1[i]) as char)] else [])
  }

  /** The text of a draw, piece by piece. */
  lemma PrintedIs(p: Params, d: Draw)
    requires p.wordCount >= 1 && d in AllDraws(p)
    ensures Printed(p, d) == Flat(Pieces(p, d))
  {
    DrawShape(p, d);
    var ws, sep := Picked(p, d.1.0), p.separators[d.0];
    assert ws == seq(p.wordCount, i requires 0 <= i < p.wordCount => p.words[d.1.0[i]]);
    JoinIsFlat(ws, sep);
    var a := Between(ws, sep);
    var b := if p.digits.Group? && !p.digits.glued then [sep] else [];
    var digits := DigitText(d.1.1);
    var c := if p.digits.Group? then [digits] else [];
    if p.digits.Group? { DigitsAre(p, d); }
    FlatThree(a, b, c);
    FlatOne(sep);
    FlatOne(digits);
  }

  lemma FlatThree(a: seq<string>, b: seq<string>, c: seq<string>)
    ensures Flat(a + b + c) == Flat(a) + Flat(b) + Flat(c)
  {
    FlatSum(a, b);
    FlatSum(a + b, c);
  }

  lemma FlatOne(x: string)
    ensures Flat([x]) == x
  {
    assert [x][1..] == [] && x + "" == x;
  }

  lemma DigitsAre(p: Params, d: Draw)
    requires p.digits.Group? && ListOf(d.1.1, 10, p.digits.count)
    ensures DigitText(d.1.1) == seq(p.digits.count, i requires 0 <= i < p.digits.count => ('0' as int + d.1.1[i]) as char)
  {
    forall i | 0 <= i < p.digits.count ensures DigitText(d.1.1)[i] == ('0' as int + d.1.1[i]) as char { DigitIs(d.1.1[i]); }
  }

  lemma DigitIs(n: nat)
    requires n < 10
    ensures "0123456789"[n] == ('0' as int + n) as char
  {
  }

  /** generateG2, the random draws given. */
  method GenerateG2(p: Params, d: Draw) returns (text: string)
    requires |d.1.0| == p.wordCount >= 1
    ensures text == Printed(p, d)
  {
    var separator := At(p.separators, d.0);
    var words := [];
    for i := 0 to p.wordCount
      invariant words == Picked(p, d.1.0[..i])
    {
      assert d.1.0[..i + 1] == d.1.0[..i] + [d.1.0[i]];
      words := words + [At(p.words, d.1.0[i])];
    }
    assert d.1.0[..p.wordCount] == d.1.0;
    if p.digits.NoDigits? { return Join(words, separator); }
    var suffix := DigitText(d.1.1);
    if p.digits.glued {
      JoinGlued(words, separator, suffix);
      words := Glued(words, suffix);
      return Join(words, separator);
    }
    return Join(words, separator) + separator + suffix;
  }

  // ----- the calculator -------------------------------------------------------------------

  predicate Joined(p: Params) {
    p.wordCount > 1 || Trailing(p)
  }

  predicate InAny(c: char, l: seq<string>) {
    exists i :: 0 <= i < |l| && c in l[i]
  }

  // Some word holds a character of some separator.
  predicate AnyHolds(words: seq<string>, separators: seq<string>) {
    exists i, j :: 0 <= i < |words| && 0 <= j < |words[i]| && InAny(words[i][j], separators)
  }

  predicate WordsCredited(p: Params) {
    !Joined(p) || !AnyHolds(p.words, p.separators)
  }

  // The pushed components as counts; a component of zero bits is a factor 1.
  function Credited(p: Params): nat {
    (if WordsCredited(p) then Pow(|p.words|, p.wordCount) * (if Joined(p) then |p.separators| else 1) else 1)
    * (if p.digits.Group? then Pow(10, p.digits.count) else 1)
  }

  // ----- reading a printed text back ----------------------------------------------------------

  // All characters of a are inside cs, or all are outside.
  ghost predicate Run(a: string, cs: iset<char>, inside: bool) {
    forall i :: 0 <= i < |a| ==> (a[i] in cs <==> inside)
  }

  // r does not continue such a run.
  ghost predicate Stops(r: string, cs: iset<char>, inside: bool) {
    r == "" || !(r[0] in cs <==> inside)
  }

  lemma RunIsUnique(a: string, r: string, b: string, t: string, cs: iset<char>, inside: bool)
    requires Run(a, cs, inside) && Run(b, cs, inside) && Stops(r, cs, inside) && Stops(t, cs, inside)
    requires a + r == b + t
    ensures a == b && r == t
  {
    var x := a + r;
    assert (forall i :: 0 <= i < |a| ==> x[i] == a[i]) && (forall i :: 0 <= i < |b| ==> x[i] == b[i]);
    assert (r != "" ==> x[|a|] == r[0]) && (t != "" ==> x[|b|] == t[0]);
    assert |a| == |b|;
    SameLengthSplit(a, r, b, t);
  }

  lemma SameLengthSplit(a: string, r: string, b: string, t: string)
    requires a + r == b + t && (|a| == |b| || |r| == |t|)
    ensures a == b && r == t
  {
    assert |a| == |b|;
    assert a == (a + r)[..|a|] && b == (b + t)[..|b|];
    assert r == (a + r)[|a|..] && t == (b + t)[|b|..];
  }

  // Words outside cs and not empty.
  ghost predicate Plain(ws: seq<string>, cs: iset<char>) {
    forall i :: 0 <= i < |ws| ==> ws[i] != "" && Run(ws[i], cs, false)
  }

  function Tailed(ws: seq<string>, sep: string, trailing: bool): string {
    Join(ws, sep) + if trailing then sep else ""
  }

  // What follows the first word.
  function Rest(ws: seq<string>, sep: string, trailing: bool): string
    requires ws != []
  {
    if |ws| == 1 then (if trailing then sep else "") else sep + Tailed(ws[1..], sep, trailing)
  }

  lemma FirstAndRest(ws: seq<string>, sep: string, trailing: bool, cs: iset<char>)
    requires ws != [] && Plain(ws, cs) && sep != "" && Run(sep, cs, true)
    ensures Tailed(ws, sep, trailing) == ws[0] + Rest(ws, sep, trailing)
    ensures Stops(Rest(ws, sep, trailing), cs, false)
    ensures Stops(Tailed(ws, sep, trailing), cs, true)
  {
    assert ws[0] != "" && Run(ws[0], cs, false);
    if |ws| > 1 {
      assert ws[0] + (sep + Join(ws[1..], sep)) + (if trailing then sep else "")
          == ws[0] + (sep + (Join(ws[1..], sep) + (if trailing then sep else "")));
    }
  }

  /** A joined text has one reading when no word holds a separator character. */
  lemma {:induction false} ReadingIsUnique(a: seq<string>, s: string, b: seq<string>, t: string, trailing: bool, cs: iset<char>)
    requires |a| == |b| >= 1 && Plain(a, cs) && Plain(b, cs)
    requires s != "" && t != "" && Run(s, cs, true) && Run(t, cs, true)
    requires Tailed(a, s, trailing) == Tailed(b, t, trailing)
    ensures a == b && (|a| > 1 || trailing ==> s == t)
    decreases |a|
  {
    FirstAndRest(a, s, trailing, cs);
    FirstAndRest(b, t, trailing, cs);
    RunIsUnique(a[0], Rest(a, s, trailing), b[0], Rest(b, t, trailing), cs, false);
    if |a| > 1 {
      FirstAndRest(a[1..], s, trailing, cs);
      FirstAndRest(b[1..], t, trailing, cs);
      RunIsUnique(s, Tailed(a[1..], s, trailing), t, Tailed(b[1..], t, trailing), cs, true);
      ReadingIsUnique(a[1..], s, b[1..], t, trailing, cs);
      assert a == [a[0]] + a[1..] && b == [b[0]] + b[1..];
    }
  }

  // ----- what a text tells about its draw -----------------------------------------------------

  lemma DrawShape(p: Params, d: Draw)
    ensures d in AllDraws(p) <==>
            d.0 < |p.separators| && ListOf(d.1.0, |p.words|, p.wordCount) && ListOf(d.1.1, 10, DigitCount(p))
  {
    ListsAre(|p.words|, p.wordCount, d.1.0);
    ListsAre(10, DigitCount(p), d.1.1);
  }

  lemma DigitTextInjective(g: seq<nat>, h: seq<nat>, n: nat)
    requires ListOf(g, 10, n) && ListOf(h, 10, n) && DigitText(g) == DigitText(h)
    ensures g == h
  {
    forall i | 0 <= i < n ensures g[i] == h[i] {
      assert DigitText(g)[i] == "0123456789"[g[i]] && DigitText(h)[i] == "0123456789"[h[i]];
    }
  }

  // The digits are always the last characters, so they can be told.
  lemma DigitsTold(p: Params, d: Draw, e: Draw)
    requires d in AllDraws(p) && e in AllDraws(p) && Printed(p, d) == Printed(p, e)
    ensures d.1.1 == e.1.1
    ensures Body(p, Picked(p, d.1.0), At(p.separators, d.0)) == Body(p, Picked(p, e.1.0), At(p.separators, e.0))
  {
    DrawShape(p, d);
    DrawShape(p, e);
    var a, b := Body(p, Picked(p, d.1.0), At(p.separators, d.0)), Body(p, Picked(p, e.1.0), At(p.separators, e.0));
    if p.digits.Group? {
      SameLengthSplit(a, DigitText(d.1.1), b, DigitText(e.1.1));
      DigitTextInjective(d.1.1, e.1.1, DigitCount(p));
    } else {
      assert a + "" == a && b + "" == b;
    }
  }

  lemma PicksTold(p: Params, a: seq<nat>, b: seq<nat>)
    requires Deduplicated(p.words) && ListOf(a, |p.words|, p.wordCount) && ListOf(b, |p.words|, p.wordCount)
    requires Picked(p, a) == Picked(p, b)
    ensures a == b
  {
    forall i | 0 <= i < |a| ensures a[i] == b[i] {
      assert Picked(p, a)[i] == p.words[a[i]] && Picked(p, b)[i] == p.words[b[i]];
    }
  }

  ghost function SeparatorChars(p: Params): iset<char> {
    iset c | InAny(c, p.separators)
  }

  lemma PickedPlain(p: Params, picks: seq<nat>)
    requires Normalized(p) && !AnyHolds(p.words, p.separators) && ListOf(picks, |p.words|, p.wordCount)
    ensures Plain(Picked(p, picks), SeparatorChars(p))
  {
    var ws := Picked(p, picks);
    forall i | 0 <= i < |ws| ensures ws[i] != "" && Run(ws[i], SeparatorChars(p), false) {
      assert ws[i] == p.words[picks[i]];
    }
  }

  lemma SeparatorRun(p: Params, i: nat)
    requires Deduplicated(p.separators) && i < |p.separators|
    ensures p.separators[i] != "" && Run(p.separators[i], SeparatorChars(p), true)
  {
  }

  lemma JoinedBodyTold(p: Params, s: nat, a: seq<nat>, t: nat, b: seq<nat>)
    requires Normalized(p) && Joined(p) && !AnyHolds(p.words, p.separators)
    requires s < |p.separators| && t < |p.separators|
    requires ListOf(a, |p.words|, p.wordCount) && ListOf(b, |p.words|, p.wordCount)
    requires Body(p, Picked(p, a), At(p.separators, s)) == Body(p, Picked(p, b), At(p.separators, t))
    ensures Picked(p, a) == Picked(p, b) && p.separators[s] == p.separators[t]
  {
    PickedPlain(p, a);
    PickedPlain(p, b);
    SeparatorRun(p, s);
    SeparatorRun(p, t);
    ReadingIsUnique(Picked(p, a), p.separators[s], Picked(p, b), p.separators[t], Trailing(p), SeparatorChars(p));
  }

  lemma LoneBodyTold(p: Params, s: nat, a: seq<nat>, t: nat, b: seq<nat>)
    requires !Joined(p) && |a| == |b| == p.wordCount >= 1
    requires Body(p, Picked(p, a), At(p.separators, s)) == Body(p, Picked(p, b), At(p.separators, t))
    ensures Picked(p, a) == Picked(p, b)
  {
    var x, y := Picked(p, a), Picked(p, b);
    assert x == [x[0]] && y == [y[0]];
    assert x[0] + "" == x[0] && y[0] + "" == y[0];
  }

  // Where words and separator are credited, the text tells every word, and the separator if it was used.
  lemma WordsTold(p: Params, d: Draw, e: Draw)
    requires Normalized(p) && WordsCredited(p) && d in AllDraws(p) && e in AllDraws(p) && Printed(p, d) == Printed(p, e)
    ensures d.1 == e.1 && (Joined(p) ==> d.0 == e.0)
  {
    DigitsTold(p, d, e);
    DrawShape(p, d);
    DrawShape(p, e);
    if Joined(p) {
      JoinedBodyTold(p, d.0, d.1.0, e.0, e.1.0);
    } else {
      LoneBodyTold(p, d.0, d.1.0, e.0, e.1.0);
    }
    PicksTold(p, d.1.0, e.1.0);
  }

  // ----- counting -------------------------------------------------------------------------------

  ghost function Printing(p: Params, text: string): set<Draw> {
    set d | d in AllDraws(p) && Printed(p, d) == text
  }

  lemma TotalDraws(p: Params)
    ensures |AllDraws(p)| == |p.separators| * (Pow(|p.words|, p.wordCount) * Pow(10, DigitCount(p)))
  {
    ListsSize(|p.words|, p.wordCount);
    ListsSize(10, DigitCount(p));
    PairsSize(Lists(|p.words|, p.wordCount), Lists(10, DigitCount(p)));
    PairsSize(Range(|p.separators|), Pairs(Lists(|p.words|, p.wordCount), Lists(10, DigitCount(p))));
  }

  // The draws the credit does not distinguish.
  function Uncredited(p: Params): nat {
    if !WordsCredited(p) then |p.separators| * Pow(|p.words|, p.wordCount)
    else if Joined(p) then 1 else |p.separators|
  }

  lemma CreditTimesRest(p: Params)
    ensures Uncredited(p) * Credited(p) == |AllDraws(p)|
  {
    TotalDraws(p);
    var s, w, g := |p.separators|, Pow(|p.words|, p.wordCount), Pow(10, DigitCount(p));
    assert Pow(10, 0) == 1;
    Regroup(s, w, g);
  }

  lemma Regroup(s: nat, w: nat, g: nat)
    ensures (s * w) * (1 * g) == s * (w * g) && 1 * ((w * s) * g) == s * (w * g) && s * ((w * 1) * g) == s * (w * g)
  {
    assert (s * w) * g == s * (w * g);
    assert w * s == s * w;
  }

  // A word and a separator share a character.
  ghost predicate Clash(p: Params) {
    exists w, s, c :: w in p.words && s in p.separators && c in w && c in s
  }

  // Some separator is printed: between words, or before a digit group of its own.
  ghost predicate SeparatorPrinted(p: Params) {
    p.wordCount > 1 || (p.digits.Group? && !p.digits.glued)
  }

  lemma ClashIff(p: Params)
    ensures Clash(p) <==> AnyHolds(p.words, p.separators)
  {
    if w, s, c :| w in p.words && s in p.separators && c in w && c in s {
      var i :| 0 <= i < |p.words| && p.words[i] == w;
      var j :| 0 <= j < |w| && w[j] == c;
      assert InAny(p.words[i][j], p.separators);
    }
    if AnyHolds(p.words, p.separators) {
      var i, j :| 0 <= i < |p.words| && 0 <= j < |p.words[i]| && InAny(p.words[i][j], p.separators);
      var k :| 0 <= k < |p.separators| && p.words[i][j] in p.separators[k];
      assert p.words[i] in p.words && p.separators[k] in p.separators;
    }
  }

  /** What is credited: the digits always; the words unless a printed separator shares a character with one; and then
      also the separator, if any is printed. */
  lemma CreditedIs(p: Params)
    ensures var told := !(SeparatorPrinted(p) && Clash(p));
            Credited(p) == |Pairs(Range(if told && SeparatorPrinted(p) then |p.separators| else 1),
                                  Pairs(Lists(|p.words|, if told then p.wordCount else 0),
                                        Lists(10, if p.digits.Group? then p.digits.count else 0)))|
  {
    ClashIff(p);
    var told := !(SeparatorPrinted(p) && Clash(p));
    var s, n, g := if told && SeparatorPrinted(p) then |p.separators| else 1, if told then p.wordCount else 0, DigitCount(p);
    ListsSize(|p.words|, n);
    ListsSize(10, g);
    PairsSize(Lists(|p.words|, n), Lists(10, g));
    PairsSize(Range(s), Pairs(Lists(|p.words|, n), Lists(10, g)));
    assert Pow(10, 0) == 1 && Pow(|p.words|, 0) == 1;
    Regroup(s, Pow(|p.words|, n), Pow(10, g));
  }

  lemma PrintingBound(p: Params, text: string)
    requires Normalized(p)
    ensures |Printing(p, text)| <= Uncredited(p)
  {
    var all := Printing(p, text);
    if !WordsCredited(p) {
      var f := (d: Draw) => (d.0, d.1.0);
      var into := Pairs(Range(|p.separators|), Lists(|p.words|, p.wordCount));
      forall d, e | d in all && e in all && f(d) == f(e) ensures d == e { DigitsTold(p, d, e); }
      InjectionSize(all, into, f);
      ListsSize(|p.words|, p.wordCount);
      PairsSize(Range(|p.separators|), Lists(|p.words|, p.wordCount));
    } else {
      var f := (d: Draw) => if Joined(p) then 0 else d.0;
      forall d, e | d in all && e in all && f(d) == f(e) ensures d == e { WordsTold(p, d, e); }
      InjectionSize(all, Range(Uncredited(p)), f);
    }
  }

  /** Every credited bit is a lower bound: the draws printing any one text, times the credited count, are at
      most all the draws. */
  lemma CreditIsLowerBound(p: Params, text: string)
    requires Normalized(p)
    ensures |Printing(p, text)| * Credited(p) <= |AllDraws(p)|
  {
    PrintingBound(p, text);
    CreditTimesRest(p);
    MulMonotone(|Printing(p, text)|, Uncredited(p), Credited(p));
  }

  lemma MulMonotone(a: nat, b: nat, c: nat)
    requires a <= b
    ensures a * c <= b * c
  {
  }

  /** Where words and separator are credited the credit is exact: a text that can be printed at all is printed
      by exactly the uncredited share of the draws; joined texts come from a single draw. */
  lemma CreditIsExact(p: Params, d: Draw)
    requires Normalized(p) && WordsCredited(p) && d in AllDraws(p)
    ensures |Printing(p, Printed(p, d))| * Credited(p) == |AllDraws(p)|
    ensures Joined(p) ==> Printing(p, Printed(p, d)) == {d}
  {
    FibreSize(p, d);
    CreditTimesRest(p);
  }

  // As many draws print d's text as the credit leaves apart, and just d itself where the text is joined.
  lemma FibreSize(p: Params, d: Draw)
    requires Normalized(p) && WordsCredited(p) && d in AllDraws(p)
    ensures |Printing(p, Printed(p, d))| == Uncredited(p)
    ensures Joined(p) ==> Printing(p, Printed(p, d)) == {d}
  {
    if Joined(p) {
      DrawShape(p, d);
      OnlyDraw(p, d);
    } else {
      PrintingBound(p, Printed(p, d));
      EverySeparator(p, d);
    }
  }

  lemma OnlyDraw(p: Params, d: Draw)
    requires Normalized(p) && WordsCredited(p) && Joined(p)
    requires d.0 < |p.separators| && ListOf(d.1.0, |p.words|, p.wordCount) && ListOf(d.1.1, 10, DigitCount(p))
    ensures Printing(p, Printed(p, d)) == {d}
  {
    DrawShape(p, d);
    forall e | e in Printing(p, Printed(p, d)) ensures e == d { WordsTold(p, d, e); }
  }

  lemma EverySeparator(p: Params, d: Draw)
    requires !Joined(p) && d in AllDraws(p)
    ensures |p.separators| <= |Printing(p, Printed(p, d))|
  {
    var f := (s: nat) => (s, d.1);
    DrawShape(p, d);
    forall s | s in Range(|p.separators|) ensures f(s) in Printing(p, Printed(p, d)) {
      DrawShape(p, f(s));
      OneWord(p, d.1, d.0, s);
    }
    InjectionSize(Range(|p.separators|), Printing(p, Printed(p, d)), f);
  }

  lemma OneWord(p: Params, rest: (seq<nat>, seq<nat>), s: nat, t: nat)
    requires !Joined(p) && |rest.0| == p.wordCount
    ensures Printed(p, (s, rest)) == Printed(p, (t, rest))
  {
  }

  lemma JoinTwo(x: string, y: string, ws: seq<string>, sep: string)
    ensures Join([x, y] + ws, sep) == x + sep + y + if ws == [] then "" else sep + Join(ws, sep)
  {
    JoinFirst(x, [y] + ws, sep);
    assert [x] + ([y] + ws) == [x, y] + ws;
    if ws == [] {
      assert [y] + ws == [y] && x + (sep + y) == x + sep + y + "";
    } else {
      JoinFirst(y, ws, sep);
      assert x + (sep + (y + (sep + Join(ws, sep)))) == x + sep + y + (sep + Join(ws, sep));
    }
  }

  lemma JoinFirst(x: string, ws: seq<string>, sep: string)
    requires ws != []
    ensures Join([x] + ws, sep) == x + (sep + Join(ws, sep))
  {
    assert ([x] + ws)[1..] == ws;
  }

  /** Without the credit draws do collide: with a word that is another one twice around a separator, the two
      orders of the first two words print the same text, whatever follows. */
  lemma UncreditedCollides(p: Params, s: nat, i: nat, j: nat, rest: seq<nat>, g: seq<nat>)
    requires Normalized(p) && p.wordCount == 2 + |rest| && s < |p.separators| && i < |p.words| && j < |p.words|
    requires p.words[j] == p.words[i] + p.separators[s] + p.words[i]
    ensures !WordsCredited(p) && i != j && Printed(p, (s, ([i, j] + rest, g))) == Printed(p, (s, ([j, i] + rest, g)))
  {
    var w, v, sep := p.words[i], p.words[j], p.separators[s];
    assert |v| == |w| + |sep| + |w| && sep != "" && w != "";
    assert v[|w|] == sep[0] && InAny(v[|w|], p.separators);
    assert Picked(p, [i, j] + rest) == [w, v] + Picked(p, rest) && Picked(p, [j, i] + rest) == [v, w] + Picked(p, rest);
    JoinTwo(w, v, Picked(p, rest), sep);
    JoinTwo(v, w, Picked(p, rest), sep);
    assert w + sep + v == v + sep + w;
  }

  // ----- two words, single-character separators: exactly when draws collide -----------------------

  // One word is another with a separator and m behind it, and one is m with a separator and another behind it.
  ghost predicate Splices(p: Params, s: nat, t: nat, a: nat, b: nat, c: nat, d: nat, m: string) {
    && s < |p.separators| && t < |p.separators| && a < |p.words| && b < |p.words| && c < |p.words| && d < |p.words|
    && p.words[a] == p.words[c] + p.separators[t] + m && p.words[d] == m + p.separators[s] + p.words[b]
    && (Trailing(p) ==> s == t)
  }

  ghost predicate Spliced(p: Params) {
    exists s, t, a, b, c, d, m :: Splices(p, s, t, a, b, c, d, m)
  }

  ghost predicate Collide(p: Params, d: Draw, e: Draw) {
    d in AllDraws(p) && e in AllDraws(p) && d != e && Printed(p, d) == Printed(p, e)
  }

  ghost predicate TwoPlain(p: Params) {
    Normalized(p) && p.wordCount == 2 && forall i :: 0 <= i < |p.separators| ==> |p.separators[i]| == 1
  }

  lemma TwoBody(p: Params, s: nat, picks: seq<nat>)
    requires s < |p.separators| && ListOf(picks, |p.words|, 2)
    ensures Body(p, Picked(p, picks), At(p.separators, s))
         == p.words[picks[0]] + p.separators[s] + p.words[picks[1]] + if Trailing(p) then p.separators[s] else ""
  {
    var x, y := p.words[picks[0]], p.words[picks[1]];
    assert Picked(p, picks) == [x, y] + [];
    JoinTwo(x, y, [], p.separators[s]);
  }

  // Two equal two-word texts whose trailing separators, if any, are dropped.
  lemma DropTrailing(x: string, s: string, y: string, u: string, t: string, v: string, trailing: bool)
    requires |s| == |t| == 1
    requires x + s + y + (if trailing then s else "") == u + t + v + if trailing then t else ""
    ensures x + s + y == u + t + v && (trailing ==> s == t)
  {
    if trailing {
      SameLengthSplit(x + s + y, s, u + t + v, t);
    } else {
      assert x + s + y + "" == x + s + y && u + t + v + "" == u + t + v;
    }
  }

  // The longer first word reaches over the other text's separator.
  lemma LongerReaches(x: string, s: string, y: string, u: string, t: string, v: string) returns (m: string)
    requires |s| == |t| == 1 && x + s + y == u + t + v && |x| > |u|
    ensures x == u + t + m && v == m + s + y
  {
    m := x[|u| + 1..];
    var all := x + s + y;
    assert x == all[..|x|] && u == all[..|u|] && t == all[|u|..|u| + 1] && v == all[|u| + 1..];
    assert x == x[..|u|] + x[|u|..|u| + 1] + m;
    assert all[|u| + 1..] == m + s + y;
  }

  lemma EqualFirsts(x: string, s: string, y: string, u: string, t: string, v: string)
    requires |s| == |t| == 1 && x + s + y == u + t + v && |x| == |u|
    ensures x == u && s == t && y == v
  {
    assert x + s + y == x + (s + y) && u + t + v == u + (t + v);
    SameLengthSplit(x, s + y, u, t + v);
    SameLengthSplit(s, y, t, v);
  }

  // What equal texts say about two draws of two words.
  lemma TwoTexts(p: Params, d: Draw, e: Draw)
    requires TwoPlain(p) && d in AllDraws(p) && e in AllDraws(p) && Printed(p, d) == Printed(p, e)
    ensures d.0 < |p.separators| && e.0 < |p.separators| && ListOf(d.1.0, |p.words|, 2) && ListOf(e.1.0, |p.words|, 2)
    ensures p.words[d.1.0[0]] + p.separators[d.0] + p.words[d.1.0[1]] == p.words[e.1.0[0]] + p.separators[e.0] + p.words[e.1.0[1]]
    ensures d.1.1 == e.1.1 && (Trailing(p) ==> p.separators[d.0] == p.separators[e.0])
  {
    DrawShape(p, d);
    DrawShape(p, e);
    DigitsTold(p, d, e);
    TwoBody(p, d.0, d.1.0);
    TwoBody(p, e.0, e.1.0);
    DropTrailing(p.words[d.1.0[0]], p.separators[d.0], p.words[d.1.0[1]],
                 p.words[e.1.0[0]], p.separators[e.0], p.words[e.1.0[1]], Trailing(p));
  }

  lemma Unrepeated(l: seq<string>, i: nat, j: nat)
    requires Deduplicated(l) && i < |l| && j < |l| && l[i] == l[j]
    ensures i == j
  {
  }

  lemma LongerSplices(p: Params, d: Draw, e: Draw)
    requires TwoPlain(p) && d in AllDraws(p) && e in AllDraws(p) && Printed(p, d) == Printed(p, e)
    requires |d.1.0| == |e.1.0| == 2 && |At(p.words, d.1.0[0])| > |At(p.words, e.1.0[0])|
    ensures Spliced(p)
  {
    TwoTexts(p, d, e);
    var m := LongerReaches(p.words[d.1.0[0]], p.separators[d.0], p.words[d.1.0[1]],
                           p.words[e.1.0[0]], p.separators[e.0], p.words[e.1.0[1]]);
    if Trailing(p) { Unrepeated(p.separators, d.0, e.0); }
    assert Splices(p, d.0, e.0, d.1.0[0], d.1.0[1], e.1.0[0], e.1.0[1], m);
  }

  // First words of equal length leave no difference at all.
  lemma EqualDraws(p: Params, d: Draw, e: Draw)
    requires TwoPlain(p) && d in AllDraws(p) && e in AllDraws(p) && Printed(p, d) == Printed(p, e)
    requires |d.1.0| == |e.1.0| == 2 && |At(p.words, d.1.0[0])| == |At(p.words, e.1.0[0])|
    ensures d == e
  {
    TwoTexts(p, d, e);
    EqualFirsts(p.words[d.1.0[0]], p.separators[d.0], p.words[d.1.0[1]],
                p.words[e.1.0[0]], p.separators[e.0], p.words[e.1.0[1]]);
    Unrepeated(p.separators, d.0, e.0);
    Unrepeated(p.words, d.1.0[0], e.1.0[0]);
    Unrepeated(p.words, d.1.0[1], e.1.0[1]);
    SameDraw(d, e);
  }

  lemma SameDraw(d: Draw, e: Draw)
    requires d.0 == e.0 && d.1.1 == e.1.1 && |d.1.0| == |e.1.0| == 2 && d.1.0[0] == e.1.0[0] && d.1.0[1] == e.1.0[1]
    ensures d == e
  {
    assert d.1.0 == e.1.0;
  }

  lemma CollisionSplices(p: Params, d: Draw, e: Draw)
    requires TwoPlain(p) && Collide(p, d, e)
    ensures Spliced(p)
  {
    DrawShape(p, d);
    DrawShape(p, e);
    if |At(p.words, d.1.0[0])| > |At(p.words, e.1.0[0])| {
      LongerSplices(p, d, e);
    } else if |At(p.words, d.1.0[0])| < |At(p.words, e.1.0[0])| {
      LongerSplices(p, e, d);
    } else {
      EqualDraws(p, d, e);
    }
  }

  lemma TwoPrinted(p: Params, s: nat, a: nat, b: nat, g: seq<nat>)
    requires p.wordCount == 2 && s < |p.separators| && a < |p.words| && b < |p.words| && ListOf(g, 10, DigitCount(p))
    ensures (s, ([a, b], g)) in AllDraws(p)
    ensures Printed(p, (s, ([a, b], g)))
         == p.words[a] + p.separators[s] + p.words[b] + (if Trailing(p) then p.separators[s] else "")
          + if p.digits.Group? then DigitText(g) else ""
  {
    DrawShape(p, (s, ([a, b], g)));
    TwoBody(p, s, [a, b]);
  }

  lemma SpliceText(u: string, t: string, m: string, s: string, y: string)
    ensures (u + t + m) + s + y == u + t + (m + s + y)
  {
  }

  lemma SpliceCollides(p: Params, s: nat, t: nat, a: nat, b: nat, c: nat, d: nat, m: string) returns (x: Draw, y: Draw)
    requires TwoPlain(p) && Splices(p, s, t, a, b, c, d, m)
    ensures Collide(p, x, y)
  {
    var g := seq(DigitCount(p), _ => 0);
    x, y := (s, ([a, b], g)), (t, ([c, d], g));
    TwoPrinted(p, s, a, b, g);
    TwoPrinted(p, t, c, d, g);
    SpliceText(p.words[c], p.separators[t], m, p.separators[s], p.words[b]);
    assert |p.words[a]| > |p.words[c]|;
    assert x.1.0[0] != y.1.0[0];
  }

  /** With two words and separators of one character, two draws print one text exactly when some word is another with
      a separator and m behind it and some word is m with a separator and another behind it. */
  lemma TwoWordsCollideIff(p: Params)
    requires TwoPlain(p)
    ensures (exists d, e :: Collide(p, d, e)) <==> Spliced(p)
  {
    if d, e :| Collide(p, d, e) { CollisionSplices(p, d, e); }
    if s: nat, t: nat, a: nat, b: nat, c: nat, d: nat, m: string :| Splices(p, s, t, a, b, c, d, m) {
      var x, y := SpliceCollides(p, s, t, a, b, c, d, m);
    }
  }

  /** The converse fails: this policy is not credited although its one draw prints one text. */
  lemma UncreditedMayBeInjective(text: string)
    ensures var p := Params(["a-"], 2, ["-"], NoDigits);
            Normalized(p) && !WordsCredited(p) && |Printing(p, text)| <= 1
  {
    var p := Params(["a-"], 2, ["-"], NoDigits);
    assert '-' in p.separators[0] && InAny(p.words[0][1], p.separators);
    forall d, e | d in Printing(p, text) && e in Printing(p, text) ensures d == e {
      DrawShape(p, d);
      DrawShape(p, e);
      assert d.1.0 == [0, 0] == e.1.0 && d.1.1 == [] == e.1.1;
    }
    InjectionSize(Printing(p, text), Range(1), (d: Draw) => 0);
  }
}
