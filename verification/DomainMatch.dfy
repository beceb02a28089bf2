/** The domain allowlist, the elevation lists and the policy they select for an address. */
module DomainMatch {

  datatype Option<T> = None | Some(value: T)

  // ----- names ----------------------------------------------------------------------------

  // The position of the first c, or the length.
  function First(s: string, c: char): (k: nat)
    ensures k <= |s| && (k < |s| ==> s[k] == c) && forall i :: 0 <= i < k ==> s[i] != c
  {
    if s == [] || s[0] == c then 0 else 1 + First(s[1..], c)
  }

  function Split(s: string): (parts: seq<string>)
    ensures parts != []
    decreases |s|
  {
    var k := First(s, '.');
    if k == |s| then [s] else [s[..k]] + Split(s[k + 1..])
  }

  function Join(parts: seq<string>): string
    requires parts != []
  {
    if |parts| == 1 then parts[0] else parts[0] + "." + Join(parts[1..])
  }

  // tail is what follows one of the dots of s.
  ghost predicate DotTail(s: string, p: nat, tail: string) {
    p < |s| && s[p] == '.' && s[p + 1..] == tail
  }

  predicate HasSuffix(s: string, suffix: string) {
    |suffix| <= |s| && s[|s| - |suffix|..] == suffix
  }

  /** A "*.x" row covers the strict descendants of x, any other row its own name. */
  predicate DomainCovers(name: string, domain: string) {
    if "*." <= name then HasSuffix(domain, name[1..]) else domain == name
  }

  lemma {:induction false} SplitAt(s: string, k: nat)
    requires k == First(s, '.') < |s|
    ensures Split(s) == [s[..k]] + Split(s[k + 1..]) && s == s[..k] + "." + s[k + 1..]
  {
    CutAt(s, k);
  }

  lemma CutAt(s: string, k: nat)
    requires k < |s| && s[k] == '.'
    ensures s == s[..k] + "." + s[k + 1..]
  {
  }

  lemma JoinCons(part: string, parts: seq<string>)
    requires parts != []
    ensures Join([part] + parts) == part + "." + Join(parts)
  {
    DropFirst(part, parts);
  }

  lemma {:induction false} JoinSplit(s: string)
    ensures Join(Split(s)) == s
    decreases |s|
  {
    var k := First(s, '.');
    if k < |s| {
      JoinSplit(s[k + 1..]);
      SplitAt(s, k);
      JoinCons(s[..k], Split(s[k + 1..]));
    }
  }

  lemma {:induction false} SplitTail(s: string, k: nat, i: nat)
    requires k == First(s, '.') < |s| && i < |Split(s)|
    ensures |Split(s)| == |Split(s[k + 1..])| + 1 && (i > 0 ==> Split(s)[i..] == Split(s[k + 1..])[i - 1..])
  {
    SplitAt(s, k);
    if i > 0 { DropMore(s[..k], Split(s[k + 1..]), i); }
  }

  lemma DropMore(part: string, parts: seq<string>, i: nat)
    requires 0 < i <= |parts|
    ensures ([part] + parts)[i..] == parts[i - 1..]
  {
  }

  lemma TailOfTail(s: string, k: nat, p: nat)
    requires k < p < |s|
    ensures s[k + 1..][p - k..] == s[p + 1..] && s[k + 1..][p - k - 1] == s[p]
  {
  }

  lemma {:induction false} FirstTail(s: string, k: nat)
    requires k == First(s, '.') < |s|
    ensures |Split(s)| > 1 && Join(Split(s)[1..]) == s[k + 1..]
  {
    SplitAt(s, k);
    JoinSplit(s[k + 1..]);
    DropFirst(s[..k], Split(s[k + 1..]));
  }

  lemma DropFirst(part: string, parts: seq<string>)
    ensures ([part] + parts)[1..] == parts
  {
  }

  lemma TailMoved(s: string, k: nat, q: nat, tail: string)
    requires k < |s| && DotTail(s[k + 1..], q, tail)
    ensures DotTail(s, k + 1 + q, tail)
  {
    TailOfTail(s, k, k + 1 + q);
  }

  lemma {:induction false} LaterParts(s: string, k: nat, i: nat)
    requires k == First(s, '.') && i + 1 < |Split(s)|
    ensures k < |s| && s[k] == '.' && i < |Split(s[k + 1..])| && Split(s)[i + 1..] == Split(s[k + 1..])[i..]
  {
    SplitTail(s, k, i + 1);
  }

  // Joining all but the first parts gives what follows a dot.
  lemma {:induction false} PartsToTail(s: string, i: nat) returns (p: nat)
    requires i + 1 < |Split(s)|
    ensures DotTail(s, p, Join(Split(s)[i + 1..]))
    decreases |s|
  {
    var k := First(s, '.');
    LaterParts(s, k, i);
    if i == 0 {
      FirstTail(s, k);
      p := k;
    } else {
      var q := PartsToTail(s[k + 1..], i - 1);
      p := k + 1 + q;
      TailMoved(s, k, q, Join(Split(s[k + 1..])[i..]));
    }
  }

  lemma {:induction false} LaterTail(s: string, k: nat, p: nat, j: nat)
    requires k == First(s, '.') < p < |s| && j + 1 < |Split(s[k + 1..])|
    requires Join(Split(s[k + 1..])[j + 1..]) == s[k + 1..][p - k..]
    ensures j + 2 < |Split(s)| && Join(Split(s)[j + 2..]) == s[p + 1..]
  {
    TailOfTail(s, k, p);
    SplitAt(s, k);
    DropMore(s[..k], Split(s[k + 1..]), j + 2);
  }

  lemma {:induction false} LaterDot(s: string, k: nat, p: nat)
    requires k == First(s, '.') && p < |s| && s[p] == '.' && p != k
    ensures k < p && s[k + 1..][p - k - 1] == '.'
  {
  }

  lemma {:induction false} TailToParts(s: string, p: nat) returns (i: nat)
    requires p < |s| && s[p] == '.'
    ensures i + 1 < |Split(s)| && Join(Split(s)[i + 1..]) == s[p + 1..]
    decreases |s|
  {
    var k := First(s, '.');
    if p == k {
      i := 0;
      FirstTail(s, k);
    } else {
      LaterDot(s, k, p);
      var j := TailToParts(s[k + 1..], p - k - 1);
      i := j + 1;
      LaterTail(s, k, p, j);
    }
  }

  // ----- the most specific row ------------------------------------------------------------

  // The names looked up for a domain, in order: itself, then its ancestors as wildcards.
  function CandidatesOf(d: string): seq<string> {
    if d == "" then [] else [d] + Wildcards(Split(d), |Split(d)| - 1)
  }

  function Wildcards(parts: seq<string>, n: nat): (w: seq<string>)
    requires n < |parts|
    ensures |w| == n && forall i :: 0 <= i < n ==> w[i] == "*." + Join(parts[i + 1..])
  {
    if n == 0 then [] else Wildcards(parts, n - 1) + ["*." + Join(parts[n..])]
  }

  method Candidates(d: string) returns (candidates: seq<string>)
    requires d != ""
    ensures candidates == CandidatesOf(d)
  {
    candidates := [d];
    var parts := Split(d);
    for i := 0 to |parts| - 1
      invariant candidates == [d] + Wildcards(parts, i)
    {
      candidates := candidates + ["*." + Join(parts[i + 1..])];
    }
  }

  lemma CoverGivesTail(name: string, d: string)
    requires "*." <= name && DomainCovers(name, d)
    ensures |name| <= |d| + 1 && DotTail(d, |d| + 1 - |name|, name[2..])
  {
    var p := |d| + 1 - |name|;
    assert d[p..] == name[1..];
    assert d[p..][1..] == d[p + 1..] && name[1..][1..] == name[2..];
  }

  lemma TailGivesCover(name: string, d: string, p: nat)
    requires "*." <= name && DotTail(d, p, name[2..])
    ensures DomainCovers(name, d)
  {
    assert d[p..] == "." + d[p + 1..];
    assert name[1..] == "." + name[2..];
  }

  lemma CoversItself(d: string)
    ensures DomainCovers(d, d)
  {
    if "*." <= d { assert d[|d| - |d[1..]|..] == d[1..]; }
  }

  lemma CandidateCovers(name: string, d: string)
    requires d != "" && name in CandidatesOf(d)
    ensures DomainCovers(name, d)
  {
    var j :| 0 <= j < |CandidatesOf(d)| && CandidatesOf(d)[j] == name;
    if j > 0 {
      var p := PartsToTail(d, j - 1);
      TailGivesCover(name, d, p);
    } else {
      CoversItself(d);
    }
  }

  lemma {:induction false} CandidateAt(d: string, i: nat)
    requires d != "" && i + 1 < |Split(d)|
    ensures "*." + Join(Split(d)[i + 1..]) in CandidatesOf(d)
  {
    assert CandidatesOf(d)[i + 1] == "*." + Join(Split(d)[i + 1..]);
  }

  lemma {:induction false} TailIsCandidate(tail: string, d: string, p: nat)
    requires d != "" && DotTail(d, p, tail)
    ensures "*." + tail in CandidatesOf(d)
  {
    var i := TailToParts(d, p);
    CandidateAt(d, i);
  }

  lemma {:induction false} CoveredIsCandidate(name: string, d: string)
    requires d != "" && DomainCovers(name, d)
    ensures name in CandidatesOf(d)
  {
    if "*." <= name {
      CoverGivesTail(name, d);
      TailIsCandidate(name[2..], d, |d| + 1 - |name|);
      StarBack(name);
    } else {
      ItselfIsCandidate(d);
    }
  }

  lemma StarBack(name: string)
    requires "*." <= name
    ensures name == "*." + name[2..]
  {
  }

  lemma {:induction false} ItselfIsCandidate(d: string)
    requires d != ""
    ensures d in CandidatesOf(d)
  {
    assert CandidatesOf(d)[0] == d;
  }

  /** The two matchers agree: a name covers a domain exactly when it is looked up for it. */
  lemma CoversIffCandidate(name: string, d: string)
    ensures name in CandidatesOf(d) <==> d != "" && DomainCovers(name, d)
  {
    if d != "" {
      if DomainCovers(name, d) { CoveredIsCandidate(name, d); }
      if name in CandidatesOf(d) { CandidateCovers(name, d); }
    }
  }

  datatype Row = Row(id: int, active: bool)
  type Domains = map<string, Row>

  // name is the first of the candidates that has a row.
  ghost predicate Governs(table: Domains, d: string, name: string) {
    && name in table && DomainCovers(name, d)
    && forall other :: other in table && DomainCovers(other, d) ==> AtLeastAsSpecific(name, other, d)
  }

  // An exact row comes before every wildcard, a deeper wildcard before a shallower one.
  predicate AtLeastAsSpecific(name: string, other: string, d: string) {
    name == d || (other != d && |other| <= |name|)
  }

  lemma FirstGoverns(table: Domains, d: string, i: nat)
    requires d != "" && i < |CandidatesOf(d)| && CandidatesOf(d)[i] in table
    requires forall k :: 0 <= k < i ==> CandidatesOf(d)[k] !in table
    ensures Governs(table, d, CandidatesOf(d)[i])
  {
    var c := CandidatesOf(d)[i];
    CoversIffCandidate(c, d);
    forall other | other in table && DomainCovers(other, d) ensures AtLeastAsSpecific(c, other, d) {
      CoversIffCandidate(other, d);
      var k :| 0 <= k < |CandidatesOf(d)| && CandidatesOf(d)[k] == other;
      CandidatesShrink(d, i, k);
    }
  }

  lemma NoneCovers(table: Domains, d: string)
    requires d != "" && forall k :: 0 <= k < |CandidatesOf(d)| ==> CandidatesOf(d)[k] !in table
    ensures forall n :: n in table ==> !DomainCovers(n, d)
  {
    forall n | n in table ensures !DomainCovers(n, d) { CoversIffCandidate(n, d); }
  }

  method MostSpecific(table: Domains, d: string) returns (row: Option<Row>, ghost name: string)
    ensures row.Some? <==> d != "" && exists n :: n in table && DomainCovers(n, d)
    ensures row.Some? ==> Governs(table, d, name) && row.value == table[name]
  {
    name := "";
    if d == "" { return None, ""; }
    var candidates := Candidates(d);
    for i := 0 to |candidates|
      invariant forall k :: 0 <= k < i ==> candidates[k] !in table
    {
      var c := candidates[i];
      if c in table {
        FirstGoverns(table, d, i);
        return Some(table[c]), c;
      }
    }
    NoneCovers(table, d);
    return None, "";
  }

  lemma {:induction false} JoinShrinks(parts: seq<string>, i: nat, k: nat)
    requires i <= k < |parts|
    ensures |Join(parts[k..])| <= |Join(parts[i..])|
    decreases k - i
  {
    if i < k {
      JoinShrinks(parts, i + 1, k);
      assert parts[i..][1..] == parts[i + 1..];
    }
  }

  lemma CandidateTail(d: string, j: nat) returns (p: nat, tail: string)
    requires d != "" && 0 < j < |CandidatesOf(d)|
    ensures CandidatesOf(d)[j] == "*." + tail && DotTail(d, p, tail) && tail == Join(Split(d)[j..])
  {
    p := PartsToTail(d, j - 1);
    tail := Join(Split(d)[j..]);
  }

  lemma CandidatesShrink(d: string, i: nat, k: nat)
    requires d != "" && i <= k < |CandidatesOf(d)|
    ensures AtLeastAsSpecific(CandidatesOf(d)[i], CandidatesOf(d)[k], d)
  {
    if i > 0 {
      var p, tail := CandidateTail(d, i);
      var q, shorter := CandidateTail(d, k);
      JoinShrinks(Split(d), i, k);
      WildcardOrder(d, p, tail, q, shorter);
    }
  }

  lemma WildcardOrder(d: string, p: nat, tail: string, q: nat, shorter: string)
    requires DotTail(d, p, tail) && DotTail(d, q, shorter) && |shorter| <= |tail|
    ensures AtLeastAsSpecific("*." + tail, "*." + shorter, d)
  {
    if "*." + shorter == d { assert d[0] == '*'; }
  }

  lemma GovernsUnique(table: Domains, d: string, name: string, other: string)
    requires Governs(table, d, name) && Governs(table, d, other)
    ensures name == other
  {
    if name != d && other != d {
      CoverGivesTail(name, d);
      CoverGivesTail(other, d);
      assert name == "*." + name[2..] && other == "*." + other[2..];
    }
  }

  /** For a new request a disabled row is terminal: nothing broader takes over. */
  method FindMatching(table: Domains, d: string) returns (row: Option<Row>, ghost name: string)
    ensures row.Some? ==> d != "" && Governs(table, d, name) && row.value == table[name] && row.value.active
    ensures row.None? ==> d == "" || forall n :: Governs(table, d, n) ==> !table[n].active
  {
    row, name := MostSpecific(table, d);
    if row.Some? && !row.value.active {
      forall n | Governs(table, d, n) ensures n == name { GovernsUnique(table, d, n, name); }
      row := None;
    }
  }

  // ----- elevations -----------------------------------------------------------------------

  // The position of the last c, or -1.
  function Last(s: string, c: char): (k: int)
    ensures -1 <= k < |s| && (k >= 0 ==> s[k] == c) && forall i :: k < i < |s| ==> s[i] != c
  {
    if s == [] then -1 else if s[|s| - 1] == c then |s| - 1 else Last(s[..|s| - 1], c)
  }

  // The address without its sub-address part.
  function BaseOf(email: string): string {
    var at := Last(email, '@');
    if at <= 0 then email
    else
      var plus := First(email[..at], '+');
      if 0 < plus < at then email[..plus] + email[at..] else email
  }

  function DomainPart(email: string): string {
    email[Last(email, '@') + 1..]
  }

  lemma LastIs(s: string, c: char, k: nat)
    requires k < |s| && s[k] == c && forall i :: k < i < |s| ==> s[i] != c
    ensures Last(s, c) == k
  {
  }

  lemma FirstNone(s: string, c: char)
    requires c !in s
    ensures First(s, c) == |s|
  {
  }

  lemma NoEarlier(email: string, at: nat, plus: nat)
    requires at < |email| && plus == First(email[..at], '+') < at
    ensures '+' !in email[..plus]
  {
    forall i | 0 <= i < plus ensures email[..plus][i] != '+' { assert email[..at][i] != '+'; }
  }

  datatype Elevation = Elevation(email: string, level: nat)

  // The highest level listed for any of the addresses, 0 if there is none.
  function MaxLevel(rows: seq<Elevation>, emails: set<string>): (level: nat)
    ensures forall i :: 0 <= i < |rows| && rows[i].email in emails ==> rows[i].level <= level
    ensures level == 0 || exists i :: 0 <= i < |rows| && rows[i].email in emails && rows[i].level == level
  {
    if rows == [] then 0
    else
      var rest, row := MaxLevel(rows[..|rows| - 1], emails), rows[|rows| - 1];
      if row.email in emails && row.level > rest then row.level else rest
  }

  function LookupEmail(rows: seq<Elevation>, email: string): nat {
    MaxLevel(rows, {email, BaseOf(email)})
  }

  // ----- sub-addresses in plain strings ---------------------------------------------------------

  // email is a sub-address of owner: p+tag@d belongs to p@d.
  ghost predicate SubOf(email: string, owner: string, p: string, tag: string, d: string) {
    && p != "" && '+' !in p && '@' !in d
    && email == p + "+" + tag + "@" + d && owner == p + "@" + d
  }

  // owner is the address itself or the one it is a sub-address of.
  ghost predicate Belongs(email: string, owner: string) {
    email == owner || exists p, tag, d :: SubOf(email, owner, p, tag, d)
  }

  lemma SubHasBase(email: string, owner: string, p: string, tag: string, d: string)
    requires SubOf(email, owner, p, tag, d)
    ensures BaseOf(email) == owner
  {
    var local := p + "+" + tag;
    LocalPart(email, local, d);
    FirstPlus(p, tag);
    assert email[..|p|] == p && email[|local|..] == "@" + d;
    assert p + ("@" + d) == p + "@" + d;
  }

  lemma LocalPart(email: string, local: string, d: string)
    requires email == local + "@" + d && '@' !in d
    ensures Last(email, '@') == |local| && email[..|local|] == local && email[|local| + 1..] == d
  {
    forall i | |local| < i < |email| ensures email[i] != '@' { assert email[i] == d[i - |local| - 1]; }
    LastIs(email, '@', |local|);
  }

  lemma {:induction false} FirstIs(s: string, c: char, k: nat)
    requires k < |s| && s[k] == c && forall i :: 0 <= i < k ==> s[i] != c
    ensures First(s, c) == k
  {
    assert First(s, c) <= |s|;
  }

  lemma FirstPlus(p: string, tag: string)
    requires '+' !in p
    ensures First(p + "+" + tag, '+') == |p|
  {
    forall i | 0 <= i < |p| ensures (p + "+" + tag)[i] != '+' { assert (p + "+" + tag)[i] == p[i]; }
    FirstIs(p + "+" + tag, '+', |p|);
  }

  lemma Reassembled(email: string, plus: nat, at: nat)
    requires plus < at < |email| && email[plus] == '+' && email[at] == '@'
    ensures email == email[..plus] + "+" + email[plus + 1..at] + "@" + email[at + 1..]
    ensures email[..plus] + email[at..] == email[..plus] + "@" + email[at + 1..]
  {
    assert email[at..] == "@" + email[at + 1..];
  }

  // A base other than the address itself makes it a sub-address.
  lemma BaseIsOwner(email: string)
    ensures Belongs(email, BaseOf(email))
  {
    var at := Last(email, '@');
    if at > 0 && 0 < First(email[..at], '+') < at {
      var plus := First(email[..at], '+');
      var p, tag, d := email[..plus], email[plus + 1..at], email[at + 1..];
      NoEarlier(email, at, plus);
      Reassembled(email, plus, at);
      assert SubOf(email, BaseOf(email), p, tag, d);
    }
  }

  /** The addresses whose rows count for an address are exactly those it belongs to. */
  lemma OwnersAre(email: string, owner: string)
    ensures Belongs(email, owner) <==> owner in {email, BaseOf(email)}
  {
    BaseIsOwner(email);
    if p, tag, d :| SubOf(email, owner, p, tag, d) { SubHasBase(email, owner, p, tag, d); }
  }

  // The highest level listed for an address the given one belongs to, 0 if there is none.
  ghost predicate Highest(rows: seq<Elevation>, email: string, level: nat) {
    && (forall r :: r in rows && Belongs(email, r.email) ==> r.level <= level)
    && (level == 0 || exists r :: r in rows && Belongs(email, r.email) && r.level == level)
  }

  lemma LookupIsHighest(rows: seq<Elevation>, email: string)
    ensures Highest(rows, email, LookupEmail(rows, email))
  {
    forall r | r in rows && Belongs(email, r.email) ensures r.level <= LookupEmail(rows, email) { OwnersAre(email, r.email); }
    if LookupEmail(rows, email) > 0 {
      var i :| 0 <= i < |rows| && rows[i].email in {email, BaseOf(email)} && rows[i].level == LookupEmail(rows, email);
      OwnersAre(email, rows[i].email);
    }
  }

  /** Whatever tag is put behind a local part, the address has at least every level listed for the address without it. */
  lemma SubAddressNoLower(rows: seq<Elevation>, p: string, tag: string, d: string)
    requires p != "" && '+' !in p && '@' !in d
    ensures forall r :: r in rows && r.email == p + "@" + d ==> r.level <= LookupEmail(rows, p + "+" + tag + "@" + d)
    ensures LookupEmail(rows, p + "@" + d) <= LookupEmail(rows, p + "+" + tag + "@" + d)
  {
    var sub, owner := p + "+" + tag + "@" + d, p + "@" + d;
    assert SubOf(sub, owner, p, tag, d);
    LookupIsHighest(rows, sub);
    LookupIsHighest(rows, owner);
    OnlyItself(p, d);
    forall r | r in rows && Belongs(owner, r.email) ensures r.email == owner { OwnersAre(owner, r.email); }
  }

  lemma OnlyItself(local: string, d: string)
    requires '@' !in d && (local == "" || local[0] == '+' || '+' !in local)
    ensures BaseOf(local + "@" + d) == local + "@" + d
  {
    LocalPart(local + "@" + d, local, d);
    if '+' !in local { FirstNone(local, '+'); }
  }

  /** The address a sub-address belongs to belongs to no other. */
  lemma OwnerIsStable(email: string, owner: string, p: string, tag: string, d: string, other: string)
    requires SubOf(email, owner, p, tag, d)
    ensures Belongs(owner, other) <==> other == owner
  {
    OnlyItself(p, d);
    OwnersAre(owner, other);
  }

  /** An address with no '+', or with one in front, has only its own rows. */
  lemma PlainHasOwnRows(rows: seq<Elevation>, local: string, d: string, level: nat)
    requires '@' !in d && (local == "" || local[0] == '+' || '+' !in local)
    requires forall r :: r in rows && r.email == local + "@" + d ==> r.level <= level
    ensures LookupEmail(rows, local + "@" + d) <= level
  {
    OnlyItself(local, d);
    LookupIsHighest(rows, local + "@" + d);
    forall r | r in rows && Belongs(local + "@" + d, r.email) ensures r.email == local + "@" + d {
      OwnersAre(local + "@" + d, r.email);
    }
  }

  // ----- the policy -----------------------------------------------------------------------

  datatype Policy = Policy(domainId: int, level: nat, active: bool)

  // The stores; a store that is down answers with an error.
  datatype Stores = Stores(
    domains: Domains, domainsDown: bool,
    elevations: Option<seq<Elevation>>, elevationsDown: bool,
    policies: map<(int, nat), Policy>, policiesDown: bool)

  datatype Resolution = NoPolicy | Failed | Found(policy: Policy)

  // B1 is what an address has that is on no list.
  function LevelOf(db: Stores, email: string): nat {
    if db.elevations.None? || LookupEmail(db.elevations.value, email) == 0 then 1
    else LookupEmail(db.elevations.value, email)
  }

  // The level of an address: the highest listed, or B1.
  ghost predicate HasLevel(db: Stores, email: string, level: nat) {
    if db.elevations.None? || Highest(db.elevations.value, email, 0) then level == 1
    else level > 0 && Highest(db.elevations.value, email, level)
  }

  lemma LevelIs(db: Stores, email: string, level: nat)
    ensures HasLevel(db, email, level) <==> level == LevelOf(db, email)
  {
    if db.elevations.Some? { LookupIsHighest(db.elevations.value, email); }
  }

  // A local part in front of the last '@', and a domain behind it.
  ghost predicate SplitsAt(email: string, local: string, d: string) {
    email == local + "@" + d && '@' !in d && local != "" && d != ""
  }

  lemma SplitOf(email: string, local: string, d: string)
    requires SplitsAt(email, local, d)
    ensures Last(email, '@') == |local| > 0 && DomainPart(email) == d != ""
  {
    LocalPart(email, local, d);
  }

  lemma HasSplit(email: string)
    requires Last(email, '@') > 0 && DomainPart(email) != ""
    ensures SplitsAt(email, email[..Last(email, '@')], DomainPart(email))
  {
    var at := Last(email, '@');
    assert email == email[..at] + "@" + email[at + 1..];
  }

  // A row called name governs the domain of the address and can be used.
  ghost predicate Admits(db: Stores, email: string, issued: bool, name: string) {
    exists local, d :: SplitsAt(email, local, d) && Governs(db.domains, d, name) && (issued || db.domains[name].active)
  }

  // The row called name and the address's level select an active policy.
  ghost predicate Selects(db: Stores, email: string, issued: bool, name: string, level: nat) {
    && Admits(db, email, issued, name) && name in db.domains && HasLevel(db, email, level)
    && (db.domains[name].id, level) in db.policies && db.policies[(db.domains[name].id, level)].active
  }

  // Where an answer takes a store that is down.
  ghost predicate Unanswerable(db: Stores, email: string, issued: bool) {
    || (db.domainsDown && exists local, d :: SplitsAt(email, local, d))
    || (((db.elevations.Some? && db.elevationsDown) || db.policiesDown) && exists name :: Admits(db, email, issued, name))
  }

  // The governing row of the address's domain.
  method FindDomain(table: Domains, d: string, issued: bool) returns (row: Option<Row>, ghost name: string)
    ensures row.Some? ==> Governs(table, d, name) && row.value == table[name] && (issued || row.value.active)
    ensures row.None? ==> d == "" || forall n :: Governs(table, d, n) ==> !issued && !table[n].active
  {
    if issued {
      row, name := MostSpecific(table, d);
    } else {
      row, name := FindMatching(table, d);
    }
  }

  method FindLevel(db: Stores, email: string) returns (level: Option<nat>)
    ensures level == if db.elevations.Some? && db.elevationsDown then None else Some(LevelOf(db, email))
  {
    level := Some(1);
    if db.elevations.Some? {
      if db.elevationsDown { return None; }
      var found := LookupEmail(db.elevations.value, email);
      if found > 0 { level := Some(found); }
    }
  }

  lemma AdmitsIff(db: Stores, email: string, issued: bool, name: string)
    requires Last(email, '@') > 0 && DomainPart(email) != ""
    ensures Admits(db, email, issued, name) <==>
              Governs(db.domains, DomainPart(email), name) && (issued || db.domains[name].active)
  {
    HasSplit(email);
    if local, d :| SplitsAt(email, local, d) && Governs(db.domains, d, name) && (issued || db.domains[name].active) {
      SplitOf(email, local, d);
    }
  }

  // The row found, if any, is the only one that admits the address.
  lemma AdmitsOnly(db: Stores, email: string, issued: bool, dom: Option<Row>, name: string)
    requires Last(email, '@') > 0 && DomainPart(email) != ""
    requires dom.Some? ==> Governs(db.domains, DomainPart(email), name) && (issued || db.domains[name].active)
    requires dom.None? ==> forall n :: Governs(db.domains, DomainPart(email), n) ==> !issued && !db.domains[n].active
    ensures forall n :: Admits(db, email, issued, n) <==> dom.Some? && n == name
  {
    forall n ensures Admits(db, email, issued, n) <==> dom.Some? && n == name {
      AdmitsIff(db, email, issued, n);
      if dom.Some? && Governs(db.domains, DomainPart(email), n) { GovernsUnique(db.domains, DomainPart(email), n, name); }
    }
  }

  lemma NotAnAddress(email: string)
    requires Last(email, '@') <= 0 || DomainPart(email) == ""
    ensures forall local, d :: !SplitsAt(email, local, d)
  {
    forall local, d ensures !SplitsAt(email, local, d) { if SplitsAt(email, local, d) { SplitOf(email, local, d); } }
  }

  /**
   * The active policy of the row that governs the address's domain, at the address's level; no policy exactly when none
   * is selected; and an error exactly when the answer takes a store that is down, so that none reads as a lower level.
   */
  method Resolve(db: Stores, email: string, issued: bool) returns (r: Resolution, ghost name: string, ghost level: nat)
    ensures r.Found? ==> Selects(db, email, issued, name, level) && r.policy == db.policies[(db.domains[name].id, level)]
    ensures r.NoPolicy? ==> forall n, l :: !Selects(db, email, issued, n, l)
    ensures r.Failed? <==> Unanswerable(db, email, issued)
  {
    name, level := "", LevelOf(db, email);
    LevelIs(db, email, level);
    var at := Last(email, '@');
    if at <= 0 || at + 1 >= |email| {
      NotAnAddress(email);
      return NoPolicy, "", level;
    }
    HasSplit(email);
    if db.domainsDown { return Failed, "", level; }
    var dom: Option<Row>;
    dom, name := FindDomain(db.domains, DomainPart(email), issued);
    AdmitsOnly(db, email, issued, dom, name);
    if dom.None? { return NoPolicy, name, level; }
    var found := FindLevel(db, email);
    assert Admits(db, email, issued, name);
    if found.None? || db.policiesDown { return Failed, name, level; }
    var key := (dom.value.id, found.value);
    if key in db.policies && db.policies[key].active { return Found(db.policies[key]), name, level; }
    forall l: nat | HasLevel(db, email, l) ensures l == level { LevelIs(db, email, l); }
    return NoPolicy, name, level;
  }
}
