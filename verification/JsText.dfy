/** JavaScript string semantics on Go strings: UTF-8 extended with three-byte encodings of lone surrogates
    (WTF-8), and slices counted in UTF-16 code units. Masks and shifts of the code are written as
    remainders and quotients. */
module JsText {

  type Byte = b: nat | b < 256
  type Rune = r: nat | r < 0x11_0000

  predicate IsSurrogate(r: Rune) {
    0xD800 <= r <= 0xDFFF
  }

  predicate Cont(b: Byte) {
    0x80 <= b <= 0xBF
  }

  // ----- encoding ------------------------------------------------------------------------

  // utf8.AppendRune (section 3 of RFC 3629), surrogates in the three-byte form.
  function EncodeRune(r: Rune): seq<Byte> {
    if r < 0x80 then [r]
    else if r < 0x800 then [0xC0 + r / 64, 0x80 + r % 64]
    else if r < 0x1_0000 then
      if IsSurrogate(r) then [0xED, 0x80 + (r / 64) % 64, 0x80 + r % 64]
      else [0xE0 + r / 64 / 64, 0x80 + (r / 64) % 64, 0x80 + r % 64]
    else [0xF0 + r / 64 / 64 / 64, 0x80 + (r / 64 / 64) % 64, 0x80 + (r / 64) % 64, 0x80 + r % 64]
  }

  function Encode(rs: seq<Rune>): seq<Byte> {
    if rs == [] then [] else EncodeRune(rs[0]) + Encode(rs[1..])
  }

  // ----- decoding ------------------------------------------------------------------------

  datatype Decoded = Decoded(rune: Rune, size: nat)

  const MALFORMED := Decoded(0xFFFD, 1)

  // Six more bits below hi.
  function Six(hi: int, lo: int): int {
    hi * 64 + lo
  }

  // The second byte a lead byte of a three- or four-byte form accepts.
  predicate Second(b0: Byte, b1: Byte) {
    if b0 == 0xE0 then 0xA0 <= b1 <= 0xBF
    else if b0 == 0xED then 0x80 <= b1 <= 0x9F
    else if b0 == 0xF0 then 0x90 <= b1 <= 0xBF
    else if b0 == 0xF4 then 0x80 <= b1 <= 0x8F
    else Cont(b1)
  }

  /** utf8.DecodeRuneInString on a non-empty string. */
  function DecodeUtf8(s: seq<Byte>): (d: Decoded)
    requires s != []
    ensures 0 < d.size <= |s|
  {
    var b0 := s[0];
    if b0 < 0x80 then Decoded(b0, 1)
    else if 0xC2 <= b0 <= 0xDF then
      if |s| >= 2 && Cont(s[1]) then Decoded(Six(b0 - 0xC0, s[1] - 0x80), 2) else MALFORMED
    else if 0xE0 <= b0 <= 0xEF then
      if |s| >= 3 && Second(b0, s[1]) && Cont(s[2])
      then Decoded(Six(Six(b0 - 0xE0, s[1] - 0x80), s[2] - 0x80), 3) else MALFORMED
    else if 0xF0 <= b0 <= 0xF4 then
      if |s| >= 4 && Second(b0, s[1]) && Cont(s[2]) && Cont(s[3])
      then Decoded(Six(Six(Six(b0 - 0xF0, s[1] - 0x80), s[2] - 0x80), s[3] - 0x80), 4) else MALFORMED
    else MALFORMED
  }

  predicate LoneSurrogate(s: seq<Byte>) {
    |s| >= 3 && s[0] == 0xED && 0xA0 <= s[1] <= 0xBF && Cont(s[2])
  }

  // One step of wtf8Runes.
  function DecodeOne(s: seq<Byte>): (d: Decoded)
    requires s != []
    ensures 0 < d.size <= |s|
  {
    if LoneSurrogate(s) then Decoded(0xD000 + Six(s[1] - 0x80, s[2] - 0x80), 3) else DecodeUtf8(s)
  }

  function Runes(s: seq<Byte>): seq<Rune>
    decreases |s|
  {
    if s == [] then [] else var d := DecodeOne(s); [d.rune] + Runes(s[d.size..])
  }

  // One turn of the decoding loop.
  method DecodeTurn(s: seq<Byte>, i: nat, out: seq<Rune>) returns (out': seq<Rune>, i': nat)
    requires i < |s|
    ensures i < i' <= |s| && out + Runes(s[i..]) == out' + Runes(s[i'..])
  {
    var d := DecodeOne(s[i..]);
    assert s[i..][d.size..] == s[i + d.size..];
    out', i' := out + [d.rune], i + d.size;
  }

  // One turn of the encoding loop.
  lemma EncodeTurn(rs: seq<Rune>, i: nat, b: seq<Byte>)
    requires i < |rs|
    ensures b + Encode(rs[i..]) == (b + EncodeRune(rs[i])) + Encode(rs[i + 1..])
  {
    assert rs[i..][1..] == rs[i + 1..];
  }

  /** wtf8Runes */
  method Wtf8Runes(s: seq<Byte>) returns (out: seq<Rune>)
    ensures out == Runes(s)
  {
    out := [];
    var i := 0;
    while i < |s|
      invariant 0 <= i <= |s|
      invariant Runes(s) == out + Runes(s[i..])
    {
      out, i := DecodeTurn(s, i, out);
    }
  }

  /** wtf8String */
  method Wtf8String(rs: seq<Rune>) returns (b: seq<Byte>)
    ensures b == Encode(rs)
  {
    b := [];
    for i := 0 to |rs|
      invariant Encode(rs) == b + Encode(rs[i..])
    {
      EncodeTurn(rs, i, b);
      b := b + EncodeRune(rs[i]);
    }
  }

  // ----- the codec inverts ------------------------------------------------------------------

  lemma DecodeShort(r: Rune, s: seq<Byte>)
    requires r < 0x800 && EncodeRune(r) <= s
    ensures DecodeOne(s) == Decoded(r, |EncodeRune(r)|)
  {
  }

  lemma DecodeThree(r: Rune, s: seq<Byte>)
    requires 0x800 <= r < 0x1_0000 && EncodeRune(r) <= s
    ensures DecodeOne(s) == Decoded(r, 3)
  {
    assert s[0] == EncodeRune(r)[0] && s[1] == EncodeRune(r)[1] && s[2] == EncodeRune(r)[2];
  }

  lemma DecodeFour(r: Rune, s: seq<Byte>)
    requires 0x1_0000 <= r && EncodeRune(r) <= s
    ensures DecodeOne(s) == Decoded(r, 4)
  {
    assert s[0] == EncodeRune(r)[0] && s[1] == EncodeRune(r)[1] && s[2] == EncodeRune(r)[2] && s[3] == EncodeRune(r)[3];
  }

  /** In front of any bytes an encoded code point decodes to itself. */
  lemma DecodeEncodedRune(r: Rune, t: seq<Byte>)
    ensures DecodeOne(EncodeRune(r) + t) == Decoded(r, |EncodeRune(r)|)
  {
    var s := EncodeRune(r) + t;
    assert EncodeRune(r) <= s;
    if r < 0x800 { DecodeShort(r, s); } else if r < 0x1_0000 { DecodeThree(r, s); } else { DecodeFour(r, s); }
  }

  /** wtf8Runes inverts wtf8String on every sequence of code points, surrogates included. */
  lemma {:induction false} RoundTrip(rs: seq<Rune>)
    ensures Runes(Encode(rs)) == rs
    decreases |rs|
  {
    if rs != [] {
      var e, t := EncodeRune(rs[0]), Encode(rs[1..]);
      DecodeEncodedRune(rs[0], t);
      assert (e + t)[|e|..] == t;
      RoundTrip(rs[1..]);
      assert rs == [rs[0]] + rs[1..];
    }
  }

  // s starts with bytes that decode to more than the replacement of one malformed byte.
  predicate WellFormedStart(s: seq<Byte>)
    requires s != []
  {
    DecodeOne(s) != MALFORMED
  }

  ghost predicate WellFormed(s: seq<Byte>)
    decreases |s|
  {
    s == [] || (WellFormedStart(s) && WellFormed(s[DecodeOne(s).size..]))
  }

  lemma SixSplit(hi: nat, lo: nat)
    requires lo < 64
    ensures Six(hi, lo) / 64 == hi && Six(hi, lo) % 64 == lo
  {
  }

  // A step that is not a replacement decodes exactly the bytes its code point is encoded by.
  lemma EncodeDecodedRune(s: seq<Byte>)
    requires s != [] && WellFormedStart(s)
    ensures EncodeRune(DecodeOne(s).rune) == s[..DecodeOne(s).size]
  {
    var d := DecodeOne(s);
    if d.size == 2 {
      SixSplit(s[0] - 0xC0, s[1] - 0x80);
      assert s[..2] == [s[0], s[1]];
    } else if d.size == 3 {
      ThreeBytes(s);
    } else if d.size == 4 {
      FourBytes(s);
    }
  }

  lemma ThreeBytes(s: seq<Byte>)
    requires s != [] && WellFormedStart(s) && DecodeOne(s).size == 3
    ensures EncodeRune(DecodeOne(s).rune) == s[..3]
  {
    var hi := Six(s[0] - 0xE0, s[1] - 0x80);
    SixSplit(s[0] - 0xE0, s[1] - 0x80);
    SixSplit(hi, s[2] - 0x80);
    assert DecodeOne(s).rune == Six(hi, s[2] - 0x80);
    assert s[..3] == [s[0], s[1], s[2]];
  }

  lemma FourBytes(s: seq<Byte>)
    requires s != [] && WellFormedStart(s) && DecodeOne(s).size == 4
    ensures EncodeRune(DecodeOne(s).rune) == s[..4]
  {
    var top := Six(s[0] - 0xF0, s[1] - 0x80);
    var hi := Six(top, s[2] - 0x80);
    SixSplit(s[0] - 0xF0, s[1] - 0x80);
    SixSplit(top, s[2] - 0x80);
    SixSplit(hi, s[3] - 0x80);
    assert s[..4] == [s[0], s[1], s[2], s[3]];
  }

  // U+FFFD put for one malformed byte never encodes back to what was there.
  lemma ReplacementDiffers(s: seq<Byte>, t: seq<Byte>)
    requires s != [] && !WellFormedStart(s)
    ensures EncodeRune(0xFFFD) + t != s
  {
    DecodeEncodedRune(0xFFFD, t);
  }

  /** One step of decoding: the code point whose encoding is in front, or U+FFFD for one byte when there is none. */
  lemma DecodeIs(s: seq<Byte>)
    requires s != []
    ensures forall r :: EncodeRune(r) <= s ==> DecodeOne(s) == Decoded(r, |EncodeRune(r)|)
    ensures (forall r :: !(EncodeRune(r) <= s)) ==> DecodeOne(s) == Decoded(0xFFFD, 1)
  {
    forall r | EncodeRune(r) <= s ensures DecodeOne(s) == Decoded(r, |EncodeRune(r)|) {
      var e := EncodeRune(r);
      DecodeEncodedRune(r, s[|e|..]);
      assert s == e + s[|e|..];
    }
    if WellFormedStart(s) {
      EncodeDecodedRune(s);
      assert EncodeRune(DecodeOne(s).rune) <= s;
    }
  }

  /** In the other direction a string survives exactly when it holds no malformed byte. */
  lemma {:induction false} RoundTripBytesIff(s: seq<Byte>)
    ensures Encode(Runes(s)) == s <==> WellFormed(s)
    decreases |s|
  {
    if s != [] {
      var d := DecodeOne(s);
      var rest := Runes(s[d.size..]);
      assert Runes(s) == [d.rune] + rest && ([d.rune] + rest)[1..] == rest;
      assert Encode(Runes(s)) == EncodeRune(d.rune) + Encode(rest);
      RoundTripBytesIff(s[d.size..]);
      if WellFormedStart(s) {
        EncodeDecodedRune(s);
        SplitAt(s, d.size, Encode(rest));
      } else {
        ReplacementDiffers(s, Encode(rest));
      }
    }
  }

  lemma SplitAt(s: seq<Byte>, n: nat, t: seq<Byte>)
    requires n <= |s|
    ensures s[..n] + t == s <==> t == s[n..]
  {
    assert s == s[..n] + s[n..];
    assert (s[..n] + t)[n..] == t;
  }

  // ----- UTF-16 -----------------------------------------------------------------------------

  type Unit = u: nat | u < 0x1_0000

  function HighSurrogate(r: Rune): Unit
    requires r > 0xFFFF
  {
    0xD800 + (r - 0x1_0000) / 1024
  }

  // The UTF-16 code units of a string of code points (section 2.1 of RFC 2781).
  function RuneUnits(r: Rune): seq<Unit> {
    if r > 0xFFFF then [HighSurrogate(r), 0xDC00 + (r - 0x1_0000) % 1024] else [r]
  }

  function Units(rs: seq<Rune>): seq<Unit> {
    if rs == [] then [] else RuneUnits(rs[0]) + Units(rs[1..])
  }

  predicate High(u: nat) { 0xD800 <= u < 0xDC00 }

  predicate Low(u: nat) { 0xDC00 <= u < 0xE000 }

  // The code point of a surrogate pair (section 2.2 of RFC 2781).
  function Paired(high: nat, low: nat): Rune
    requires High(high) && Low(low)
  {
    0x1_0000 + 0x400 * (high - 0xD800) + (low - 0xDC00)
  }

  // How JavaScript reads code units: a high surrogate with a low one behind it is one code point, any other unit is itself.
  function ReadUnits(us: seq<Unit>): seq<Rune> {
    if us == [] then []
    else if |us| >= 2 && High(us[0]) && Low(us[1]) then
      [Paired(us[0], us[1])] + ReadUnits(us[2..])
    else [us[0]] + ReadUnits(us[1..])
  }

  // No high surrogate stands right before a low one.
  ghost predicate NoPair(rs: seq<Rune>) {
    forall i :: 0 <= i < |rs| - 1 ==> !(High(rs[i]) && Low(rs[i + 1]))
  }

  lemma UnitsOfRune(r: Rune)
    ensures r <= 0xFFFF ==> RuneUnits(r) == [r]
    ensures r > 0xFFFF ==>
              && |RuneUnits(r)| == 2 && High(RuneUnits(r)[0]) && Low(RuneUnits(r)[1])
              && Paired(RuneUnits(r)[0], RuneUnits(r)[1]) == r
  {
  }

  lemma UnitsFront(rs: seq<Rune>)
    requires rs != []
    ensures Units(rs) != [] && (Low(Units(rs)[0]) <==> Low(rs[0]))
  {
    UnitsOfRune(rs[0]);
  }

  lemma ReadFront(r: Rune, rest: seq<Unit>)
    requires !(High(r) && rest != [] && Low(rest[0]))
    ensures ReadUnits(RuneUnits(r) + rest) == [r] + ReadUnits(rest)
  {
    UnitsOfRune(r);
    if r <= 0xFFFF { ReadOne(r, rest); } else { ReadTwo(RuneUnits(r)[0], RuneUnits(r)[1], rest); }
  }

  lemma ReadOne(u: Unit, rest: seq<Unit>)
    requires !(High(u) && rest != [] && Low(rest[0]))
    ensures ReadUnits([u] + rest) == [u] + ReadUnits(rest)
  {
    assert ([u] + rest)[1..] == rest;
  }

  lemma ReadTwo(h: Unit, l: Unit, rest: seq<Unit>)
    requires High(h) && Low(l)
    ensures ReadUnits([h, l] + rest) == [Paired(h, l)] + ReadUnits(rest)
  {
    assert ([h, l] + rest)[2..] == rest;
  }

  lemma ReadPair(h: Rune, l: Rune, rest: seq<Unit>)
    requires High(h) && Low(l)
    ensures ReadUnits([h] + ([l] + rest)) != [] && ReadUnits([h] + ([l] + rest))[0] > 0xFFFF
  {
    assert [h] + ([l] + rest) == [h, l] + rest;
    ReadTwo(h, l, rest);
  }

  /** The units of a string read back to its code points exactly when it has no surrogates that make a pair. */
  lemma {:induction false} UnitsReadBackIff(rs: seq<Rune>)
    ensures ReadUnits(Units(rs)) == rs <==> NoPair(rs)
    decreases |rs|
  {
    if rs != [] {
      var rest := rs[1..];
      UnitsReadBackIff(rest);
      UnitsOfRune(rs[0]);
      if rest != [] { UnitsFront(rest); }
      assert rs == [rs[0]] + rest;
      if rest != [] && High(rs[0]) && Low(rest[0]) {
        UnitsOfRune(rest[0]);
        ReadPair(rs[0], rest[0], Units(rest[1..]));
        assert High(rs[0]) && Low(rs[0 + 1]);
      } else {
        ReadFront(rs[0], Units(rest));
        assert ([rs[0]] + ReadUnits(Units(rest)))[1..] == ReadUnits(Units(rest));
        PairsFront(rs);
      }
    }
  }

  lemma PairsFront(rs: seq<Rune>)
    requires rs != [] && !(|rs| > 1 && High(rs[0]) && Low(rs[1]))
    ensures NoPair(rs) <==> NoPair(rs[1..])
  {
    if NoPair(rs[1..]) {
      forall i | 0 <= i < |rs| - 1 ensures !(High(rs[i]) && Low(rs[i + 1])) {
        if i > 0 { assert rs[1..][i - 1] == rs[i] && rs[1..][i] == rs[i + 1]; }
      }
    }
    if NoPair(rs) {
      forall i | 0 <= i < |rs[1..]| - 1 ensures !(High(rs[1..][i]) && Low(rs[1..][i + 1])) {
        assert rs[1..][i] == rs[i + 1] && rs[1..][i + 1] == rs[i + 2];
        assert !(High(rs[i + 1]) && Low(rs[i + 1 + 1]));
      }
    }
  }

  function JsUnits(s: seq<Byte>): seq<Unit> {
    Units(Runes(s))
  }

  function Min(a: nat, b: nat): nat { if a < b then a else b }

  // sliceUnits on code points.
  function Slice(rs: seq<Rune>, n: nat): seq<Rune> {
    if rs == [] then []
    else if |RuneUnits(rs[0])| > n then (if 0 < n then [HighSurrogate(rs[0])] else [])
    else [rs[0]] + Slice(rs[1..], n - |RuneUnits(rs[0])|)
  }

  lemma {:induction false} SliceIsPrefix(rs: seq<Rune>, n: nat)
    ensures Units(Slice(rs, n)) == Units(rs)[..Min(n, |Units(rs)|)]
    decreases |rs|
  {
    if rs != [] {
      var u, rest := RuneUnits(rs[0]), Units(rs[1..]);
      if |u| > n {
        assert (u + rest)[..n] == u[..n];
        assert n == 1 ==> Units([HighSurrogate(rs[0])]) == u[..1];
      } else {
        var tail := Slice(rs[1..], n - |u|);
        SliceIsPrefix(rs[1..], n - |u|);
        assert ([rs[0]] + tail)[1..] == tail;
        assert (u + rest)[..Min(n, |u + rest|)] == u + rest[..Min(n - |u|, |rest|)];
      }
    }
  }

  lemma SliceTurn(rs: seq<Rune>, i: nat, n: nat, units: nat, out: seq<Rune>)
    requires i < |rs| && units <= n
    ensures var u := |RuneUnits(rs[i])|;
            out + Slice(rs[i..], n - units)
            == if units + u > n then (if units < n then out + [HighSurrogate(rs[i])] else out)
               else (out + [rs[i]]) + Slice(rs[i + 1..], n - (units + u))
  {
    assert rs[i..][1..] == rs[i + 1..];
  }

  method SliceRunes(rs: seq<Rune>, n: nat) returns (out: seq<Rune>)
    ensures out == Slice(rs, n)
  {
    out := [];
    var units := 0;
    for i := 0 to |rs|
      invariant 0 <= units <= n
      invariant Slice(rs, n) == out + Slice(rs[i..], n - units)
    {
      var w := |RuneUnits(rs[i])|;
      SliceTurn(rs, i, n, units, out);
      if units + w > n {
        // Only half of an astral character fits.
        if units < n { out := out + [HighSurrogate(rs[i])]; }
        return;
      }
      out := out + [rs[i]];
      units := units + w;
    }
  }

  /** sliceUnits. The units of the result are exactly the first n units of s, also when the cut falls inside an
      astral character. */
  method SliceUnits(s: seq<Byte>, n: nat) returns (r: seq<Byte>)
    ensures JsUnits(r) == JsUnits(s)[..Min(n, |JsUnits(s)|)]
  {
    var rs := Wtf8Runes(s);
    var out := SliceRunes(rs, n);
    r := Wtf8String(out);
    RoundTrip(out);
    SliceIsPrefix(rs, n);
  }

  /** firstUnit: the first unit, or nothing. */
  method FirstUnit(s: seq<Byte>) returns (r: seq<Byte>)
    ensures JsUnits(r) == JsUnits(s)[..Min(1, |JsUnits(s)|)]
  {
    var rs := Wtf8Runes(s);
    if rs == [] { return []; }
    var first := if rs[0] > 0xFFFF then [HighSurrogate(rs[0])] else [rs[0]];
    r := Wtf8String(first);
    RoundTrip(first);
    assert JsUnits(s) == RuneUnits(rs[0]) + Units(rs[1..]);
    assert Units(first) == RuneUnits(rs[0])[..1];
  }

  /** utf16Len */
  method Utf16Len(s: seq<Byte>) returns (n: nat)
    ensures n == |JsUnits(s)|
  {
    var rs := Wtf8Runes(s);
    n := 0;
    for i := 0 to |rs|
      invariant |Units(rs)| == n + |Units(rs[i..])|
    {
      assert rs[i..][1..] == rs[i + 1..];
      if rs[i] > 0xFFFF { n := n + 2; } else { n := n + 1; }
    }
  }
}
