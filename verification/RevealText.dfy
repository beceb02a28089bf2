/** The rule for the text body of a mail: the reveal URL stands alone, delimited by white space or <>. The
    code compares two counts; this module proves that the comparison decides the rule. */
module RevealText {

  // An occurrence is named by where it ends, so that a URL and its last segment share their name.
  ghost predicate EndsAt(text: string, pat: string, e: int) {
    |pat| <= e <= |text| && forall j :: 0 <= j < |pat| ==> pat[j] == text[e - |pat| + j]
  }

  ghost function Ends(text: string, pat: string): set<nat> {
    set e: nat | e <= |text| && EndsAt(text, pat, e)
  }

  function LastSlash(url: string): (p: int)
    ensures -1 <= p < |url|
    ensures p >= 0 ==> url[p] == '/'
    ensures forall q :: p < q < |url| ==> url[q] != '/'
  {
    if url == "" then -1 else if url[|url| - 1] == '/' then |url| - 1 else LastSlash(url[..|url| - 1])
  }

  function RevealToken(url: string): string {
    url[LastSlash(url) + 1..]
  }

  predicate StartDelim(c: char) { c == ' ' || c == '\t' || c == '\r' || c == '\n' || c == '<' }

  predicate EndDelim(c: char) { c == ' ' || c == '\t' || c == '\r' || c == '\n' || c == '>' }

  predicate StandsAlone(text: string, start: int, end: int)
    requires 0 <= start <= end <= |text|
  {
    (start == 0 || StartDelim(text[start - 1])) && (end == |text| || EndDelim(text[end]))
  }

  // ----- occurrences met left to right -----------------------------------------------------

  // The elements of met are occurrences without overlap, and every other one starts inside one that was met: what a
  // search from left to right leaves behind.
  ghost predicate Met(all: set<nat>, met: set<nat>, k: nat) {
    met <= all && Spaced(met, k) && forall e :: e in all ==> e in met || Overlapped(met, e, k)
  }

  ghost predicate Spaced(s: set<nat>, k: nat) {
    forall g, h :: g in s && h in s && g < h ==> g + k <= h
  }

  ghost predicate Overlapped(met: set<nat>, e: nat, k: nat) {
    exists g :: g in met && g < e < g + k
  }

  // No element of all lies strictly within k of an element of some.
  ghost predicate Isolated(all: set<nat>, some: set<nat>, k: nat) {
    some <= all && forall p, q :: p in some && q in all && p != q ==> q + k <= p || p + k <= q
  }

  // No element of some lies within k after an element of all.
  ghost predicate NoneInside(all: set<nat>, some: set<nat>, k: nat) {
    forall p, q :: p in all && q in some && p < q ==> p + k <= q
  }

  ghost function Both(a: set<nat>, b: set<nat>): nat {
    |a * b|
  }

  lemma SubsetSize(a: set<nat>, b: set<nat>)
    requires a <= b
    ensures |a| <= |b| && (|a| == |b| ==> a == b)
  {
    assert b == a + (b - a);
  }

  // Isolated occurrences are all met; they are the only ones met just when there are no others.
  lemma MetVersusIsolated(all: set<nat>, some: set<nat>, met: set<nat>, k: nat)
    requires Met(all, met, k) && Isolated(all, some, k)
    ensures some <= met && (met == some <==> all <= some)
  {
  }

  lemma CountsDecide(tokens: set<nat>, metTokens: set<nat>, k: nat, urls: set<nat>, metUrls: set<nat>, n: nat, alone: set<nat>)
    requires Met(tokens, metTokens, k) && Met(urls, metUrls, n) && alone <= urls && Isolated(tokens, alone, k)
    requires tokens <= alone ==> NoneInside(urls, alone, n)
    ensures |metTokens| == Both(metUrls, alone) <==> tokens <= alone
  {
    MetVersusIsolated(tokens, alone, metTokens, k);
    SubsetSize(alone, metTokens);
    SubsetSize(metUrls * alone, alone);
    if tokens <= alone {
      forall e | e in alone ensures e in metUrls { assert e in urls && !Overlapped(metUrls, e, n); }
      assert metUrls * alone == alone;
    }
  }

  // Where a whole URL standing alone ends.
  ghost function Alone(text: string, url: string): set<nat> {
    set e | e in Ends(text, url) && AloneAt(text, url, e)
  }

  predicate AloneAt(text: string, url: string, e: nat) {
    |url| <= e <= |text| && StandsAlone(text, e - |url|, e)
  }

  // ----- what the rule means ----------------------------------------------------------------

  predicate Delim(c: char) { StartDelim(c) || EndDelim(c) }

  ghost predicate NoDelims(token: string) {
    forall c :: c in token ==> !Delim(c)
  }

  lemma EndChar(text: string, pat: string, e: int, i: int)
    requires e in Ends(text, pat) && e - |pat| <= i < e
    ensures text[i] == pat[i - (e - |pat|)] && text[i] in pat
  {
    assert pat[i - (e - |pat|)] == text[i];
  }

  // url is stem + token, the stem empty or ending in the last '/'.
  ghost predicate LastSegment(url: string, stem: string, token: string) {
    && url == stem + token && token != "" && '/' !in token
    && (stem != "" ==> stem[|stem| - 1] == '/')
  }

  lemma UrlHasToken(text: string, stem: string, token: string, e: int)
    requires e in Ends(text, stem + token)
    ensures e in Ends(text, token)
  {
    forall j | 0 <= j < |token| ensures token[j] == text[e - |token| + j] {
      assert (stem + token)[|stem| + j] == token[j];
    }
  }

  // The token inside a URL is inside every occurrence of the URL.
  lemma InnerToken(text: string, url: string, token: string, p: nat, e: nat)
    requires EndsAt(url, token, p) && e in Ends(text, url)
    ensures e - |url| + p >= 0 && e - |url| + p in Ends(text, token)
  {
    var g := e - |url| + p;
    forall j | 0 <= j < |token| ensures token[j] == text[g - |token| + j] {
      assert url[p - |token| + j] == text[e - |url| + (p - |token| + j)];
    }
  }

  // Where every token ends a URL, a URL with its token inside could not occur: each would need an earlier one.
  lemma {:induction false} NoFirstUrl(text: string, url: string, stem: string, token: string, p: nat, e: nat)
    requires LastSegment(url, stem, token) && Ends(text, token) <= Alone(text, url) && p < |url| && EndsAt(url, token, p)
    ensures e !in Ends(text, url)
    decreases e
  {
    if e in Ends(text, url) {
      InnerToken(text, url, token, p, e);
      NoFirstUrl(text, url, stem, token, p, e - |url| + p);
      assert false;
    }
  }

  lemma TokenBetween(text: string, url: string, token: string, e: nat, e': nat)
    requires e in Ends(text, token) && e' in Ends(text, url) && e' - |url| <= e - |token| && e < e'
    ensures EndsAt(url, token, e - (e' - |url|))
  {
    var p := e - (e' - |url|);
    forall j | 0 <= j < |token| ensures token[j] == url[p - |token| + j] {
      assert url[p - |token| + j] == text[e' - |url| + (p - |token| + j)];
    }
  }

  // ----- when the counts decide it ------------------------------------------------------------

  ghost predicate Decided(text: string, url: string, metTokens: set<nat>, metUrls: set<nat>) {
    |metTokens| == Both(metUrls, Alone(text, url)) <==> Ends(text, RevealToken(url)) <= Alone(text, url)
  }

  // The token also occurs in the URL before its end.
  ghost predicate Inner(url: string, token: string) {
    exists p :: p < |url| && EndsAt(url, token, p)
  }

  // The last q characters of a are the first q of b.
  ghost predicate Shared(a: string, b: string, q: int)
    requires 0 <= q <= |a| && q <= |b|
  {
    a[|a| - q..] == b[..q]
  }

  lemma SharedAt(a: string, b: string, q: int, j: nat)
    requires j < q <= |a| && q <= |b| && Shared(a, b, q)
    ensures b[j] == a[|a| - q + j]
  {
    assert b[..q][j] == a[|a| - q..][j];
  }

  // The token can overlap itself by q, with a delimiter right after the first of the two.
  ghost predicate OverlapsBy(token: string, q: int) {
    0 < q < |token| && Shared(token, token, q) && EndDelim(token[q])
  }

  // A URL can start inside the token of another, q before its end, with delimiters where both ask for one.
  ghost predicate RunsInto(url: string, token: string, q: int) {
    0 < q < |token| <= |url| && Shared(token, url, q) && StartDelim(token[|token| - q - 1]) && EndDelim(url[q])
  }

  ghost predicate Clear(url: string, token: string) {
    Inner(url, token) || forall q: int :: !OverlapsBy(token, q) && !RunsInto(url, token, q)
  }

  lemma NoDelimsIsClear(url: string, token: string)
    requires NoDelims(token)
    ensures Clear(url, token)
  {
    forall q: int ensures !OverlapsBy(token, q) && !RunsInto(url, token, q) {
      if 0 < q < |token| { assert token[q] in token && token[|token| - q - 1] in token; }
    }
  }

  // Overlapping occurrences, the first one delimited.
  lemma TokensOverlap(text: string, token: string, e: nat, e': nat)
    requires e in Ends(text, token) && e' in Ends(text, token) && e < e' < e + |token| && EndDelim(text[e])
    ensures OverlapsBy(token, e + |token| - e')
  {
    var q := e + |token| - e';
    forall j | 0 <= j < q ensures token[j] == token[|token| - q + j] {
      assert token[j] == text[e' - |token| + j] == token[|token| - q + j];
    }
    assert token[q] == text[e];
  }

  lemma TailsIsolated(text: string, url: string, stem: string, token: string)
    requires LastSegment(url, stem, token) && stem != "" && forall q: int :: !OverlapsBy(token, q)
    ensures Isolated(Ends(text, token), Alone(text, url), |token|)
  {
    forall e | e in Alone(text, url) ensures e in Ends(text, token) { UrlHasToken(text, stem, token, e); }
    forall e, e' | e in Alone(text, url) && e' in Ends(text, token) && e != e'
      ensures e' + |token| <= e || e + |token| <= e'
    {
      EndChar(text, url, e, e - |token| - 1);
      if e' < e < e' + |token| { EndChar(text, token, e', e - |token| - 1); }
      if e < e' < e + |token| { TokensOverlap(text, token, e, e'); }
    }
  }

  // Where every token ends a URL standing alone, no URL overlaps another.
  lemma NoUrlInsideUrl(text: string, url: string, stem: string, token: string)
    requires LastSegment(url, stem, token) && Ends(text, token) <= Alone(text, url)
    requires !Inner(url, token) && forall q: int :: !RunsInto(url, token, q)
    ensures NoneInside(Ends(text, url), Alone(text, url), |url|)
  {
    forall e, e' | e in Ends(text, url) && e' in Alone(text, url) && e < e' ensures e + |url| <= e' {
      UrlHasToken(text, stem, token, e);
      NotInside(text, url, stem, token, e, e');
    }
  }

  lemma NotInside(text: string, url: string, stem: string, token: string, e: nat, e': nat)
    requires LastSegment(url, stem, token) && !Inner(url, token) && forall q: int :: !RunsInto(url, token, q)
    requires e in Ends(text, token) && e in Alone(text, url) && e' in Alone(text, url) && e < e'
    ensures e + |url| <= e'
  {
    var start := e' - |url|;
    if start <= e - |token| {
      TokenBetween(text, url, token, e, e');
    } else if start < e {
      UrlInToken(text, url, token, e, e');
    }
  }

  lemma UrlInToken(text: string, url: string, token: string, e: nat, e': nat)
    requires e in Ends(text, token) && e in Alone(text, url) && e' in Alone(text, url) && 0 < |token| <= |url|
    requires e - |token| < e' - |url| < e
    ensures RunsInto(url, token, e - (e' - |url|))
  {
    var q := e - (e' - |url|);
    forall j | 0 <= j < q ensures url[j] == token[|token| - q + j] {
      assert url[j] == text[e' - |url| + j] == token[|token| - q + j];
    }
    assert token[|token| - q - 1] == text[e' - |url| - 1] && url[q] == text[e];
  }

  // ----- a token that is its whole URL -----------------------------------------------------------

  lemma {:induction false} SameMet(all: set<nat>, a: set<nat>, b: set<nat>, k: nat, e: nat)
    requires Met(all, a, k) && Met(all, b, k)
    ensures e in a <==> e in b
    decreases e
  {
    forall g: nat | g < e ensures g in a <==> g in b { SameMet(all, a, b, k, g); }
    assert Overlapped(a, e, k) <==> Overlapped(b, e, k);
  }

  lemma WholeDecides(text: string, url: string, metTokens: set<nat>, metUrls: set<nat>)
    requires url != "" && forall q: int :: !OverlapsBy(url, q)
    requires Met(Ends(text, url), metTokens, |url|) && Met(Ends(text, url), metUrls, |url|)
    ensures |metTokens| == Both(metUrls, Alone(text, url)) <==> Ends(text, url) <= Alone(text, url)
  {
    forall e: nat ensures e in metTokens <==> e in metUrls { SameMet(Ends(text, url), metTokens, metUrls, |url|, e); }
    assert metTokens == metUrls;
    SubsetSize(metUrls * Alone(text, url), metUrls);
    if metUrls <= Alone(text, url) {
      assert metUrls * Alone(text, url) == metUrls;
      forall e | e in Ends(text, url) ensures e in Alone(text, url) {
        if e !in metUrls {
          var g :| g in metUrls && g < e < g + |url|;
          TokensOverlap(text, url, g, e);
        }
      }
    }
  }

  // ----- a token that is also inside its URL -----------------------------------------------------

  lemma {:induction false} SpacedCovered(points: set<nat>, met: set<nat>, k: nat)
    requires Spaced(points, k) && forall x :: x in points ==> x in met || Overlapped(met, x, k)
    ensures |points| <= |met|
    decreases |points|
  {
    if points != {} {
      var x :| x in points;
      var g := x;
      if x !in met { g :| g in met && g < x < g + k; }
      var points', met' := points - {x}, met - {g};
      forall y | y in points' ensures y in met' || Overlapped(met', y, k) {
        if y !in met {
          var h :| h in met && h < y < h + k;
          assert h in met';
        }
      }
      SpacedCovered(points', met', k);
    }
  }

  lemma InnerIsInStem(url: string, stem: string, token: string, p: nat)
    requires LastSegment(url, stem, token) && p < |url| && EndsAt(url, token, p)
    ensures p <= |stem|
  {
    assert p in Ends(url, token);
    if 0 < |stem| < p { EndChar(url, token, p, |stem| - 1); }
  }

  lemma MoreTokens(text: string, url: string, stem: string, token: string, p: nat, metTokens: set<nat>, good: set<nat>, u: nat)
    requires LastSegment(url, stem, token) && p < |url| && EndsAt(url, token, p)
    requires Met(Ends(text, token), metTokens, |token|) && good <= Ends(text, url) && Spaced(good, |url|) && u in good
    ensures |metTokens| > |good|
  {
    InnerIsInStem(url, stem, token, p);
    InnerToken(text, url, token, p, u);
    var inner := u - |url| + p;
    forall e | e in good ensures e in Ends(text, token) { UrlHasToken(text, stem, token, e); }
    forall e | e in good ensures inner + |token| <= e || e + |token| <= inner { if e < u { assert e + |url| <= u; } }
    assert inner !in good;
    SpacedCovered(good + {inner}, metTokens, |token|);
  }

  lemma InnerDecides(text: string, url: string, stem: string, token: string, p: nat, metTokens: set<nat>, metUrls: set<nat>)
    requires LastSegment(url, stem, token) && p < |url| && EndsAt(url, token, p)
    requires Met(Ends(text, token), metTokens, |token|) && Met(Ends(text, url), metUrls, |url|)
    ensures |metTokens| == Both(metUrls, Alone(text, url)) <==> Ends(text, token) <= Alone(text, url)
  {
    var good := metUrls * Alone(text, url);
    if Ends(text, token) <= Alone(text, url) {
      forall e: nat ensures e !in Ends(text, url) { NoFirstUrl(text, url, stem, token, p, e); }
      assert metTokens == {} && good == {};
    } else if good == {} {
      assert metTokens != {};
    } else {
      var u :| u in good;
      MoreTokens(text, url, stem, token, p, metTokens, good, u);
    }
  }

  // ----- together --------------------------------------------------------------------------------

  lemma LastSlashSplits(url: string)
    requires RevealToken(url) != ""
    ensures LastSegment(url, url[..LastSlash(url) + 1], RevealToken(url))
  {
  }

  /** Comparing the two counts decides the rule where the URL is clear, a token without delimiters being one case: they
      agree exactly when every occurrence of the token, overlapping ones included, is the last segment of a full
      reveal URL standing alone. */
  lemma CountsDecideRule(text: string, url: string, metTokens: set<nat>, metUrls: set<nat>)
    requires RevealToken(url) != "" && Clear(url, RevealToken(url))
    requires Met(Ends(text, RevealToken(url)), metTokens, |RevealToken(url)|) && Met(Ends(text, url), metUrls, |url|)
    ensures Decided(text, url, metTokens, metUrls)
  {
    var token, stem := RevealToken(url), url[..LastSlash(url) + 1];
    LastSlashSplits(url);
    if Inner(url, token) {
      var p :| p < |url| && EndsAt(url, token, p);
      InnerDecides(text, url, stem, token, p, metTokens, metUrls);
    } else if stem == "" {
      assert url == token;
      WholeDecides(text, url, metTokens, metUrls);
    } else {
      TailsIsolated(text, url, stem, token);
      if Ends(text, token) <= Alone(text, url) { NoUrlInsideUrl(text, url, stem, token); }
      CountsDecide(Ends(text, token), metTokens, |token|, Ends(text, url), metUrls, |url|, Alone(text, url));
    }
  }

  // ----- when they do not ------------------------------------------------------------------------

  // What is not inside the URL ends with it or later.
  lemma NotBefore(text: string, url: string, token: string, e: nat)
    requires url <= text && !Inner(url, token) && e in Ends(text, token)
    ensures |url| <= e
  {
    if e < |url| { assert EndsAt(url, token, e); }
  }

  lemma UrlFirst(text: string, url: string, stem: string, token: string)
    requires LastSegment(url, stem, token) && url <= text
    ensures |url| in Ends(text, url) && |url| in Ends(text, token)
  {
    assert EndsAt(text, url, |url|);
    UrlHasToken(text, stem, token, |url|);
  }

  // All occurrences overlap the first.
  lemma OneMet(all: set<nat>, n: nat, k: nat)
    requires n in all && forall e :: e in all ==> n <= e < n + k
    ensures Met(all, {n}, k)
  {
    forall e | e in all ensures e in {n} || Overlapped({n}, e, k) { assert n in {n}; }
  }

  lemma OneOfBoth(text: string, url: string)
    requires |url| in Alone(text, url)
    ensures Both({|url|}, Alone(text, url)) == 1
  {
    assert {|url|} * Alone(text, url) == {|url|};
  }

  lemma UrlsFollow(text: string, url: string, stem: string, token: string, last: nat)
    requires LastSegment(url, stem, token) && url <= text && last < 2 * |url|
    requires forall e :: e in Ends(text, token) ==> |url| <= e <= last
    ensures Met(Ends(text, url), {|url|}, |url|)
  {
    UrlFirst(text, url, stem, token);
    forall e | e in Ends(text, url) ensures |url| <= e < |url| + |url| { UrlHasToken(text, stem, token, e); }
    OneMet(Ends(text, url), |url|, |url|);
  }

  // A URL whose token goes on into a second one: both counts are 1, and the second is not the end of a URL.
  lemma OverlapMisleads(url: string, stem: string, token: string, q: int) returns (text: string)
    requires LastSegment(url, stem, token) && !Inner(url, token) && OverlapsBy(token, q)
    ensures Met(Ends(text, token), {|url|}, |token|) && Met(Ends(text, url), {|url|}, |url|)
    ensures Both({|url|}, Alone(text, url)) == 1 && !(Ends(text, token) <= Alone(text, url))
  {
    text := url + (token[q..] + "/");
    UrlFirst(text, url, stem, token);
    forall e | e in Ends(text, token) ensures |url| <= e < |url| + |token| { OverlapTokens(text, url, token, q, e); }
    OneMet(Ends(text, token), |url|, |token|);
    UrlsFollow(text, url, stem, token, |url| + |token| - 1);
    OneOfBoth(text, url);
    SecondToken(text, url, stem, token, q);
  }

  lemma OverlapTokens(text: string, url: string, token: string, q: int, e: nat)
    requires 0 < q < |token| && text == url + (token[q..] + "/") && !Inner(url, token) && '/' !in token && e in Ends(text, token)
    ensures |url| <= e < |url| + |token|
  {
    NotBefore(text, url, token, e);
    if e == |text| { EndChar(text, token, e, e - 1); }
  }

  lemma SecondTokenAt(text: string, url: string, stem: string, token: string, q: int, j: nat)
    requires url == stem + token && 0 < q < |token| && j < |token| && Shared(token, token, q)
    requires text == url + (token[q..] + "/")
    ensures token[j] == text[|url| - q + j]
  {
    if j < q { SharedAt(token, token, q, j); }
  }

  lemma SecondToken(text: string, url: string, stem: string, token: string, q: int)
    requires LastSegment(url, stem, token) && OverlapsBy(token, q) && text == url + (token[q..] + "/")
    ensures |url| + |token| - q in Ends(text, token) && |url| + |token| - q !in Alone(text, url)
  {
    var n, k := |url|, |token|;
    forall j | 0 <= j < k ensures token[j] == text[n - q + j] { SecondTokenAt(text, url, stem, token, q, j); }
    assert text[n + k - q] == '/';
  }

  // text is two URLs, the second starting q before the end of the first.
  ghost predicate Twice(text: string, url: string, q: int) {
    0 < q < |url| && |text| == 2 * |url| - q && EndsAt(text, url, |url|) && EndsAt(text, url, |text|)
  }

  lemma TwiceText(url: string, stem: string, token: string, q: int)
    requires LastSegment(url, stem, token) && RunsInto(url, token, q)
    ensures Twice(url + url[q..], url, q)
  {
    PrefixEnds(url, url[q..]);
    SecondUrlEnds(url + url[q..], url, stem, token, q);
  }

  lemma PrefixEnds(url: string, more: string)
    ensures EndsAt(url + more, url, |url|)
  {
  }

  lemma SecondUrlEnds(text: string, url: string, stem: string, token: string, q: int)
    requires url == stem + token && 0 < q < |token| && Shared(token, url, q) && text == url + url[q..]
    ensures EndsAt(text, url, |text|)
  {
    forall j | 0 <= j < |url| ensures url[j] == text[|url| - q + j] { SecondUrlAt(url, stem, token, q, j); }
  }

  lemma SecondUrlAt(url: string, stem: string, token: string, q: int, j: nat)
    requires url == stem + token && 0 < q < |token| && j < |url| && Shared(token, url, q)
    ensures url[j] == (url + url[q..])[|url| - q + j]
  {
    if j < q { SharedAt(token, url, q, j); }
  }

  // Both stand alone, and the search misses the second.
  lemma RunMisleads(url: string, stem: string, token: string, q: int) returns (text: string)
    requires LastSegment(url, stem, token) && !Inner(url, token) && RunsInto(url, token, q)
    requires forall r: int :: !OverlapsBy(token, r)
    ensures q < |url| && Met(Ends(text, token), {|url|, 2 * |url| - q}, |token|) && Met(Ends(text, url), {|url|}, |url|)
    ensures Both({|url|}, Alone(text, url)) == 1 && |{|url|, 2 * |url| - q}| == 2 && Ends(text, token) <= Alone(text, url)
  {
    text := url + url[q..];
    TwiceText(url, stem, token, q);
    assert url <= text;
    RunEnds(text, url, stem, token, q);
    StemIsLonger(url, stem, token, q);
    TwoMet(|url|, |text|, |token|);
    UrlsFollow(text, url, stem, token, |text|);
    OneOfBoth(text, url);
  }

  lemma RunEnds(text: string, url: string, stem: string, token: string, q: int)
    requires LastSegment(url, stem, token) && !Inner(url, token) && RunsInto(url, token, q) && Twice(text, url, q) && url <= text
    requires forall r: int :: !OverlapsBy(token, r)
    ensures Ends(text, token) == {|url|, |text|} && {|url|, |text|} <= Alone(text, url)
  {
    RunUrls(text, url, stem, token, q);
    forall e | e in Ends(text, token) ensures e == |url| || e == |text| { OnlyTwo(text, url, token, e); }
    TwoOnly(Ends(text, token), |url|, |text|);
  }

  lemma TwoOnly(all: set<nat>, a: nat, b: nat)
    requires a in all && b in all && forall e :: e in all ==> e == a || e == b
    ensures all == {a, b}
  {
  }

  lemma RunUrls(text: string, url: string, stem: string, token: string, q: int)
    requires LastSegment(url, stem, token) && RunsInto(url, token, q) && Twice(text, url, q)
    ensures |url| in Alone(text, url) && |text| in Alone(text, url) && |url| in Ends(text, token) && |text| in Ends(text, token)
    ensures |url| < |text| && EndDelim(text[|url|])
  {
    UrlHasToken(text, stem, token, |url|);
    UrlHasToken(text, stem, token, |text|);
    assert text[|url|] == url[q];
    assert text[|url| - q - 1] == token[|token| - q - 1];
  }

  lemma TwoMet(n: nat, second: nat, k: nat)
    requires n + k <= second && k > 0
    ensures Met({n, second}, {n, second}, k) && |{n, second}| == 2
  {
  }

  lemma SharedChar(token: string, url: string, q: int, i: nat)
    requires i < q < |token| <= |url| && Shared(token, url, q)
    ensures url[i] in token
  {
    SharedAt(token, url, q, i);
  }

  lemma WholeOverlaps(url: string, token: string, q: int)
    requires url == "" + token && RunsInto(url, token, q)
    ensures OverlapsBy(token, q)
  {
    assert url == token;
  }

  lemma StemIsLonger(url: string, stem: string, token: string, q: int)
    requires LastSegment(url, stem, token) && RunsInto(url, token, q) && forall r: int :: !OverlapsBy(token, r)
    ensures q < |stem|
  {
    if stem == "" { WholeOverlaps(url, token, q); }
    if 0 < |stem| <= q {
      SharedChar(token, url, q, |stem| - 1);
    }
  }

  lemma OnlyTwo(text: string, url: string, token: string, e: nat)
    requires !Inner(url, token) && url <= text && forall r: int :: !OverlapsBy(token, r)
    requires |url| < |text| <= 2 * |url| && EndDelim(text[|url|])
    requires e in Ends(text, token) && |url| in Ends(text, token) && |text| in Ends(text, url)
    ensures e == |url| || e == |text|
  {
    NotBefore(text, url, token, e);
    if |url| < e < |text| {
      NotWithin(text, url, token, e, |text|);
      NotAcross(text, token, |url|, e);
    }
  }

  lemma NotWithin(text: string, url: string, token: string, e: nat, e': nat)
    requires !Inner(url, token) && e in Ends(text, token) && e' in Ends(text, url) && e < e'
    ensures e - |token| < e' - |url|
  {
    if e' - |url| <= e - |token| { TokenBetween(text, url, token, e, e'); }
  }

  lemma NotAcross(text: string, token: string, e: nat, e': nat)
    requires e in Ends(text, token) && e' in Ends(text, token) && e < e' && EndDelim(text[e])
    requires forall r: int :: !OverlapsBy(token, r)
    ensures e + |token| <= e'
  {
    if e' < e + |token| { TokensOverlap(text, token, e, e'); }
  }

  /** Otherwise there is a text for which they do not: a clear URL is exactly one for which the counts always decide. */
  lemma UnclearMisleads(url: string) returns (text: string, metTokens: set<nat>, metUrls: set<nat>)
    requires RevealToken(url) != "" && !Clear(url, RevealToken(url))
    ensures Met(Ends(text, RevealToken(url)), metTokens, |RevealToken(url)|) && Met(Ends(text, url), metUrls, |url|)
    ensures !Decided(text, url, metTokens, metUrls)
  {
    var token, stem := RevealToken(url), url[..LastSlash(url) + 1];
    LastSlashSplits(url);
    if q: int :| OverlapsBy(token, q) {
      text := OverlapMisleads(url, stem, token, q);
      metTokens, metUrls := {|url|}, {|url|};
    } else {
      var q: int :| RunsInto(url, token, q);
      text := RunMisleads(url, stem, token, q);
      metTokens, metUrls := {|url|, 2 * |url| - q}, {|url|};
    }
  }

  // ----- the rule in the text's own terms ------------------------------------------------------------

  // The whole URL ends at e, with white space, an angle bracket or the end of the text on both sides.
  ghost predicate OnItsOwn(text: string, url: string, e: int) {
    && |url| <= e <= |text| && text[e - |url|..e] == url
    && (e == |url| || text[e - |url| - 1] in " \t\r\n<") && (e == |text| || text[e] in " \t\r\n>")
  }

  // Wherever the token stands it is the end of such a URL.
  ghost predicate Complies(text: string, url: string, token: string) {
    forall e :: |token| <= e <= |text| && text[e - |token|..e] == token ==> OnItsOwn(text, url, e)
  }

  lemma EndsIff(text: string, pat: string, e: int)
    ensures e >= 0 ==> (e in Ends(text, pat) <==> |pat| <= e <= |text| && text[e - |pat|..e] == pat)
  {
    if |pat| <= e <= |text| && text[e - |pat|..e] == pat {
      forall j | 0 <= j < |pat| ensures pat[j] == text[e - |pat| + j] { assert text[e - |pat|..e][j] == pat[j]; }
    }
  }

  lemma AloneIff(text: string, url: string, e: nat)
    ensures e in Alone(text, url) <==> OnItsOwn(text, url, e)
  {
    EndsIff(text, url, e);
  }

  lemma CompliesIff(text: string, url: string, token: string)
    ensures Ends(text, token) <= Alone(text, url) <==> Complies(text, url, token)
  {
    forall e: nat ensures e in Ends(text, token) <==> |token| <= e <= |text| && text[e - |token|..e] == token { EndsIff(text, token, e); }
    forall e: nat ensures e in Alone(text, url) <==> OnItsOwn(text, url, e) { AloneIff(text, url, e); }
  }

  /** The token is what follows the last '/', or the whole URL when there is none. */
  lemma TokenIs(url: string, stem: string, token: string)
    requires url == stem + token && '/' !in token && (stem == "" || stem[|stem| - 1] == '/')
    ensures RevealToken(url) == token
  {
    var p := LastSlash(url);
    assert stem != "" ==> url[|stem| - 1] == '/';
    forall q | |stem| <= q < |url| ensures url[q] != '/' { assert url[q] == token[q - |stem|]; }
    assert p == |stem| - 1;
  }

  // ----- the code -------------------------------------------------------------------------------

  // p is the start of the first occurrence, of length k, at or after position i; negative when there is none.
  ghost predicate FirstFrom(all: set<nat>, i: nat, k: nat, p: int) {
    if p < 0 then forall e :: e in all ==> e < i + k
    else i <= p && p + k in all && forall e :: e in all && i + k <= e ==> p + k <= e
  }

  /** strings.Index from position i on; -1 when there is no occurrence. */
  method Index(text: string, pat: string, i: nat) returns (p: int)
    ensures FirstFrom(Ends(text, pat), i, |pat|, p)
    ensures p >= 0 ==> p + |pat| <= |text|
  {
    p := i;
    while p + |pat| <= |text| && text[p..p + |pat|] != pat
      invariant i <= p
      invariant forall e :: e in Ends(text, pat) && i + |pat| <= e ==> p + |pat| <= e
      decreases |text| - p
    {
      p := p + 1;
    }
    if p + |pat| > |text| { p := -1; } else { assert text[p..p + |pat|] == pat; }
  }

  // Everything that ends before i + k has been met or overlaps something met, and i ends the last one.
  ghost predicate MetUpTo(all: set<nat>, met: set<nat>, k: nat, i: nat) {
    && met <= all && Spaced(met, k) && (forall g :: g in met ==> g <= i)
    && (forall e :: e in all && e < i + k ==> e in met || Overlapped(met, e, k))
  }

  lemma MeetNext(all: set<nat>, met: set<nat>, k: nat, i: nat, p: int)
    requires k > 0 && MetUpTo(all, met, k, i) && FirstFrom(all, i, k, p)
    ensures p < 0 ==> Met(all, met, k)
    ensures p >= 0 ==> p + k !in met && MetUpTo(all, met + {p + k}, k, p + k)
  {
    if p >= 0 {
      var met' := met + {p + k};
      forall e | e in all && e < p + k + k ensures e in met' || Overlapped(met', e, k) {
        if e < i + k {
          if e !in met { var g :| g in met && g < e < g + k; assert g in met'; }
        } else if e != p + k {
          assert p + k in met' && p + k < e < p + k + k;
        }
      }
    }
  }

  ghost function Goods(met: set<nat>, good: nat -> bool): nat {
    |set e | e in met && good(e)|
  }

  lemma GoodsAdds(met: set<nat>, good: nat -> bool, e: nat)
    requires e !in met
    ensures Goods(met + {e}, good) == Goods(met, good) + if good(e) then 1 else 0
  {
    var before, added := set x | x in met && good(x), if good(e) then {e} else {};
    assert (set x | x in met + {e} && good(x)) == before + added;
  }

  // Occurrences found left to right without overlap: how many of them are good.
  method CountWhere(text: string, pat: string, good: nat -> bool) returns (n: nat, ghost met: set<nat>)
    requires pat != ""
    ensures n == Goods(met, good) && Met(Ends(text, pat), met, |pat|)
  {
    n, met := 0, {};
    var i := 0;
    var start := Index(text, pat, 0);
    while start >= 0
      invariant i <= |text| && (start >= 0 ==> start + |pat| <= |text|)
      invariant FirstFrom(Ends(text, pat), i, |pat|, start)
      invariant n == Goods(met, good) && MetUpTo(Ends(text, pat), met, |pat|, i)
      decreases |text| - i
    {
      var end := start + |pat|;
      MeetNext(Ends(text, pat), met, |pat|, i, start);
      GoodsAdds(met, good, end);
      if good(end) { n := n + 1; }
      i, met := end, met + {end};
      start := Index(text, pat, i);
    }
    MeetNext(Ends(text, pat), met, |pat|, i, start);
  }

  /** checkText. It compares the two counts; where the URL is clear it accepts a body exactly when every occurrence of
      the token is the last segment of a full reveal URL with a delimiter or the end of the text on both sides. */
  method CheckText(text: string, url: string, token: string)
    returns (accepted: bool, ghost metTokens: set<nat>, ghost metUrls: set<nat>)
    requires token == RevealToken(url)
    ensures token == "" ==> accepted
    ensures token != "" ==> Met(Ends(text, token), metTokens, |token|) && Met(Ends(text, url), metUrls, |url|)
    ensures token != "" ==> (accepted <==> |metTokens| == Both(metUrls, Alone(text, url)))
    ensures token != "" && Clear(url, token) ==> (accepted <==> Complies(text, url, token))
  {
    metTokens, metUrls := {}, {};
    if token == "" { return true, {}, {}; }
    var ok, n;
    var standsAlone, any := (e: nat) => AloneAt(text, url, e), (e: nat) => true;
    ok, metUrls := CountWhere(text, url, standsAlone);
    n, metTokens := CountWhere(text, token, any);
    assert (set e | e in metUrls && standsAlone(e)) == metUrls * Alone(text, url);
    assert (set e | e in metTokens && any(e)) == metTokens;
    if Clear(url, token) { CountsDecideRule(text, url, metTokens, metUrls); }
    CompliesIff(text, url, token);
    accepted := n == ok;
  }
}
