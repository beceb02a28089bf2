/** Things that work once: reveal tokens, TOTP time steps and recovery codes, under any interleaving of the
    statements of racing requests. */
module SingleUse {

  // ===== reveal tokens ====================================================================

  datatype TokenRow = TokenRow(expires: int, consumed: bool)

  // A Consume call between its SELECT and its UPDATE, with the clock reading it compares.
  datatype Call = Call(token: nat, now: int)

  // won: the calls that returned the token, in order.
  datatype Tokens = Tokens(rows: map<nat, TokenRow>, calls: map<nat, Call>, won: seq<Call>)

  datatype TokenStep =
    | Issue(token: nat, expires: int)
    | Select(call: nat, token: nat, now: int)
    | Update(call: nat)

  // A fresh token never has the digest of an earlier one.
  ghost predicate TokenEnabled(w: Tokens, s: TokenStep) {
    match s
    case Issue(token, _) => token !in w.rows
    case Select(call, _, _) => call !in w.calls
    case Update(call) => call in w.calls
  }

  ghost function TokenNext(w: Tokens, s: TokenStep): Tokens
    requires TokenEnabled(w, s)
  {
    match s
    case Issue(token, expires) => w.(rows := w.rows[token := TokenRow(expires, false)])
    case Select(call, token, now) =>
      // ErrNotFound, ErrConsumed and ErrExpired end the call here.
      if token !in w.rows || w.rows[token].consumed || now >= w.rows[token].expires then w
      else w.(calls := w.calls[call := Call(token, now)])
    case Update(call) =>
      var c := w.calls[call];
      if c.token !in w.rows || w.rows[c.token].consumed then w.(calls := w.calls - {call})  // lost the race
      else Tokens(w.rows[c.token := w.rows[c.token].(consumed := true)], w.calls - {call}, w.won + [c])
  }

  ghost predicate InTime(w: Tokens, c: Call) {
    c.token in w.rows && c.now < w.rows[c.token].expires
  }

  ghost predicate Won(w: Tokens, token: nat) {
    exists i :: 0 <= i < |w.won| && w.won[i].token == token
  }

  ghost predicate TokensOk(w: Tokens) {
    && (forall c :: c in w.calls ==> InTime(w, w.calls[c]))
    && (forall i :: 0 <= i < |w.won| ==> InTime(w, w.won[i]))
    && (forall i, j :: 0 <= i < j < |w.won| ==> w.won[i].token != w.won[j].token)
    && (forall t :: t in w.rows ==> (w.rows[t].consumed <==> Won(w, t)))
  }

  lemma TokenStepOk(w: Tokens, s: TokenStep)
    requires TokensOk(w) && TokenEnabled(w, s)
    ensures TokensOk(TokenNext(w, s))
  {
    var w' := TokenNext(w, s);
    match s
    case Issue(token, expires) =>
      forall t | t in w'.rows ensures w'.rows[t].consumed <==> Won(w', t) {
        if Won(w', t) { var i :| 0 <= i < |w'.won| && w'.won[i].token == t; assert Won(w, t) && InTime(w, w.won[i]); }
      }
    case Select(_, _, _) =>
      forall t | t in w'.rows ensures w'.rows[t].consumed <==> Won(w', t) { assert Won(w', t) <==> Won(w, t); }
    case Update(call) => UpdateOk(w, call);
  }

  lemma UpdateOk(w: Tokens, call: nat)
    requires TokensOk(w) && call in w.calls
    ensures TokensOk(TokenNext(w, Update(call)))
  {
    var w', c := TokenNext(w, Update(call)), w.calls[call];
    if w'.rows == w.rows {
      forall t | t in w'.rows ensures w'.rows[t].consumed <==> Won(w', t) { assert Won(w', t) <==> Won(w, t); }
    } else {
      assert !Won(w, c.token);
      assert w'.won[|w.won|].token == c.token;
      forall t | t in w'.rows ensures w'.rows[t].consumed <==> Won(w', t) {
        if t != c.token {
          if i :| 0 <= i < |w.won| && w.won[i].token == t { assert w'.won[i].token == t; }
          assert Won(w', t) <==> Won(w, t);
        }
      }
    }
  }

  ghost predicate TokenRun(w: Tokens, steps: seq<TokenStep>, w': Tokens)
    decreases |steps|
  {
    if steps == [] then w == w' else TokenEnabled(w, steps[0]) && TokenRun(TokenNext(w, steps[0]), steps[1..], w')
  }

  lemma {:induction false} TokenRunOk(w: Tokens, steps: seq<TokenStep>, w': Tokens)
    requires TokensOk(w) && TokenRun(w, steps, w')
    ensures TokensOk(w')
    decreases |steps|
  {
    if steps != [] {
      TokenStepOk(w, steps[0]);
      TokenRunOk(TokenNext(w, steps[0]), steps[1..], w');
    }
  }

  /** Each reveal token is consumed by at most one call, on a clock reading before its expiry, and a consumed row
      has exactly one winner. */
  lemma TokenSingleUse(steps: seq<TokenStep>, w: Tokens)
    requires TokenRun(Tokens(map[], map[], []), steps, w)
    ensures forall i, j :: 0 <= i < j < |w.won| ==> w.won[i].token != w.won[j].token
    ensures forall i :: 0 <= i < |w.won| ==> w.won[i].token in w.rows && w.won[i].now < w.rows[w.won[i].token].expires
    ensures forall t :: t in w.rows && w.rows[t].consumed ==> exists i :: 0 <= i < |w.won| && w.won[i].token == t
  {
    TokenRunOk(Tokens(map[], map[], []), steps, w);
    forall i | 0 <= i < |w.won| ensures w.won[i].token in w.rows && w.won[i].now < w.rows[w.won[i].token].expires {
      assert InTime(w, w.won[i]);
    }
    forall t | t in w.rows && w.rows[t].consumed ensures exists i :: 0 <= i < |w.won| && w.won[i].token == t {
      assert Won(w, t);
    }
  }

  /** A call that nobody overtakes consumes the token exactly when it exists, is unconsumed and not expired; otherwise
      nothing changes. */
  lemma ConsumeAlone(w: Tokens, call: nat, token: nat, now: int)
    requires call !in w.calls
    ensures TokenEnabled(w, Select(call, token, now))
    ensures var w1 := TokenNext(w, Select(call, token, now));
            if token in w.rows && !w.rows[token].consumed && now < w.rows[token].expires
            then && TokenEnabled(w1, Update(call))
                 && TokenNext(w1, Update(call))
                    == Tokens(w.rows[token := TokenRow(w.rows[token].expires, true)], w.calls, w.won + [Call(token, now)])
            else w1 == w
  {
    assert w.calls[call := Call(token, now)] - {call} == w.calls;
  }

  /** An issued token is there, unconsumed until its expiry, and no other row changes. */
  lemma IssueStores(w: Tokens, token: nat, expires: int)
    requires token !in w.rows
    ensures TokenEnabled(w, Issue(token, expires))
    ensures TokenNext(w, Issue(token, expires)) == Tokens(w.rows[token := TokenRow(expires, false)], w.calls, w.won)
  {
  }

  /** Of the calls that have selected a token the first to update wins, and every later one leaves rows and winners. */
  lemma FirstUpdateWins(w: Tokens, call: nat)
    requires TokensOk(w) && TokenEnabled(w, Update(call))
    ensures var w', c := TokenNext(w, Update(call)), w.calls[call];
            && w'.rows[c.token].consumed && w'.calls == w.calls - {call}
            && (if w.rows[c.token].consumed then w'.rows == w.rows && w'.won == w.won else w'.won == w.won + [c])
  {
    assert InTime(w, w.calls[call]);
  }

  // ===== TOTP steps =========================================================================

  /** totp.VerifyStep: the least time step of the drift window whose code is the one given. */
  method VerifyStep(code: int -> string, want: string, unix: nat) returns (step: int, ok: bool)
    ensures ok <==> |want| == 6 && exists s :: unix / 30 - 1 <= s <= unix / 30 + 1 && code(s) == want
    ensures ok ==> unix / 30 - 1 <= step <= unix / 30 + 1 && code(step) == want
    ensures ok ==> forall s :: unix / 30 - 1 <= s < step ==> code(s) != want
  {
    if |want| != 6 { return 0, false; }
    var now := unix / 30;
    for delta := -1 to 2
      invariant forall s :: now - 1 <= s < now + delta ==> code(s) != want
    {
      if code(now + delta) == want { return now + delta, true; }
    }
    return 0, false;
  }

  datatype TotpStep = UseStep(step: int) | Enroll

  // totp_last_step after a run, and the steps accepted since the last enrolment.
  datatype Totp = Totp(last: int, accepted: seq<int>)

  ghost function TotpNext(t: Totp, s: TotpStep): Totp {
    match s
    case UseStep(step) => if t.last < step then Totp(step, t.accepted + [step]) else t
    case Enroll => Totp(0, [])
  }

  ghost function TotpRun(t: Totp, steps: seq<TotpStep>): Totp
    decreases |steps|
  {
    if steps == [] then t else TotpRun(TotpNext(t, steps[0]), steps[1..])
  }

  ghost predicate Increasing(s: seq<int>, last: int) {
    (forall i :: 0 <= i < |s| ==> s[i] <= last) && forall i, j :: 0 <= i < j < |s| ==> s[i] < s[j]
  }

  /** Accepted time steps strictly increase between enrolments, so no code is accepted twice for one step
      (section 5.2 of RFC 6238). */
  lemma {:induction false} TotpStepsIncrease(t: Totp, steps: seq<TotpStep>)
    requires Increasing(t.accepted, t.last)
    ensures Increasing(TotpRun(t, steps).accepted, TotpRun(t, steps).last)
    decreases |steps|
  {
    if steps != [] { TotpStepsIncrease(TotpNext(t, steps[0]), steps[1..]); }
  }

  /** The last step kept is the highest one used since the enrolment, so the next one is accepted exactly when it is
      higher than all of them. */
  lemma {:induction false} TotpKeepsHighest(t: Totp, steps: seq<TotpStep>)
    requires forall i :: 0 <= i < |steps| ==> steps[i].UseStep?
    ensures var last := TotpRun(t, steps).last;
            && t.last <= last && (forall i :: 0 <= i < |steps| ==> steps[i].step <= last)
            && (last == t.last || exists i :: 0 <= i < |steps| && steps[i].step == last)
    decreases |steps|
  {
    if steps != [] {
      TotpKeepsHighest(TotpNext(t, steps[0]), steps[1..]);
      var last := TotpRun(t, steps).last;
      forall i | 0 <= i < |steps| ensures steps[i].step <= last { if i > 0 { assert steps[i] == steps[1..][i - 1]; } }
      if last != TotpNext(t, steps[0]).last {
        var i :| 0 <= i < |steps[1..]| && steps[1..][i].step == last;
        assert steps[i + 1].step == last;
      }
    }
  }

  lemma TotpAcceptsIff(t: Totp, step: int)
    ensures TotpNext(t, UseStep(step)).accepted == if step > t.last then t.accepted + [step] else t.accepted
    ensures TotpNext(t, Enroll) == Totp(0, [])
  {
  }

  // ===== recovery codes ======================================================================

  /** totp.ConsumeRecovery: the list without the first code that matches. */
  method ConsumeRecovery(codes: seq<string>, code: string, matches: (string, string) -> bool) returns (next: seq<string>, ok: bool)
    ensures ok <==> exists i :: 0 <= i < |codes| && matches(codes[i], code)
    ensures ok ==> Spends(codes, code, matches, next)
    ensures !ok ==> next == codes
  {
    for i := 0 to |codes|
      invariant forall j :: 0 <= j < i ==> !matches(codes[j], code)
    {
      if matches(codes[i], code) {
        assert SpendsAt(codes, code, matches, codes[..i] + codes[i + 1..], i);
        return codes[..i] + codes[i + 1..], true;
      }
    }
    return codes, false;
  }

  ghost predicate SpendsAt(codes: seq<string>, code: string, matches: (string, string) -> bool, next: seq<string>, i: int) {
    && 0 <= i < |codes| && matches(codes[i], code) && next == codes[..i] + codes[i + 1..]
    && forall j :: 0 <= j < i ==> !matches(codes[j], code)
  }

  ghost predicate Spends(codes: seq<string>, code: string, matches: (string, string) -> bool, next: seq<string>) {
    exists i :: SpendsAt(codes, code, matches, next, i)
  }

  // A list of codes sealed under a fresh ciphertext.
  datatype Blob = Blob(id: nat, codes: seq<string>)

  // A request between reading the row and its compare-and-swap: what it read, which code it takes out and
  // the list it sealed to put in its place.
  datatype Swap = Swap(read: nat, at: nat, next: Blob)

  // stored: the row's ciphertext, if any. sealed: the highest ciphertext so far. spent: codes accepted since
  // the last enrolment.
  datatype Vault = Vault(stored: seq<Blob>, sealed: nat, contents: map<nat, seq<string>>, swaps: map<nat, Swap>, spent: seq<string>)

  datatype VaultStep =
    | EnrollCodes(codes: seq<string>)
    | Reset
    | Read(request: nat, at: nat)
    | CompareAndSwap(request: nat)

  ghost predicate VaultEnabled(v: Vault, s: VaultStep) {
    match s
    case EnrollCodes(_) => true
    case Reset => true
    case Read(request, at) => |v.stored| == 1 && at < |v.stored[0].codes| && request !in v.swaps
    case CompareAndSwap(request) => request in v.swaps
  }

  ghost function Without(codes: seq<string>, at: nat): seq<string>
    requires at < |codes|
  {
    codes[..at] + codes[at + 1..]
  }

  ghost function VaultNext(v: Vault, s: VaultStep): Vault
    requires VaultEnabled(v, s)
  {
    var fresh_ := v.sealed + 1;
    match s
    case EnrollCodes(codes) =>
      v.(stored := [Blob(fresh_, codes)], sealed := fresh_, contents := v.contents[fresh_ := codes], spent := [])
    case Reset => v.(stored := [], spent := [])
    case Read(request, at) =>
      var next := Without(v.stored[0].codes, at);
      v.(sealed := fresh_, contents := v.contents[fresh_ := next],
         swaps := v.swaps[request := Swap(v.stored[0].id, at, Blob(fresh_, next))])
    case CompareAndSwap(request) =>
      var w := v.swaps[request];
      if |v.stored| == 1 && v.stored[0].id == w.read && w.at < |v.stored[0].codes|
      then v.(stored := [w.next], swaps := v.swaps - {request}, spent := v.spent + [v.stored[0].codes[w.at]])
      else v.(swaps := v.swaps - {request})
  }

  /** A request that nobody overtakes spends the code it picked and stores the list without it. */
  lemma SpendAlone(v: Vault, request: nat, at: nat)
    requires |v.stored| == 1 && at < |v.stored[0].codes| && request !in v.swaps
    ensures VaultEnabled(v, Read(request, at))
    ensures var v1 := VaultNext(v, Read(request, at));
            && v1.stored == v.stored && v1.spent == v.spent && VaultEnabled(v1, CompareAndSwap(request))
            && var v2 := VaultNext(v1, CompareAndSwap(request));
               && v2.spent == v.spent + [v.stored[0].codes[at]] && |v2.stored| == 1
               && v2.stored[0].codes == v.stored[0].codes[..at] + v.stored[0].codes[at + 1..] && v2.swaps == v.swaps
  {
    var v1 := VaultNext(v, Read(request, at));
    assert v1.swaps - {request} == v.swaps;
  }

  /** One that was overtaken, by another request, an enrolment or a reset, changes neither. */
  lemma OvertakenSpendsNothing(v: Vault, request: nat)
    requires VaultEnabled(v, CompareAndSwap(request)) && (|v.stored| != 1 || v.stored[0].id != v.swaps[request].read)
    ensures var v' := VaultNext(v, CompareAndSwap(request));
            v'.spent == v.spent && v'.stored == v.stored && v'.swaps == v.swaps - {request}
  {
  }

  lemma EnrollStarts(v: Vault, codes: seq<string>)
    ensures VaultEnabled(v, EnrollCodes(codes)) && VaultEnabled(v, Reset)
    ensures var v' := VaultNext(v, EnrollCodes(codes));
            |v'.stored| == 1 && v'.stored[0].codes == codes && v'.spent == []
    ensures VaultNext(v, Reset).stored == [] && VaultNext(v, Reset).spent == []
  {
  }

  // What a ciphertext opens to, and what a request took out of the list it read, are fixed by the ciphertext.
  ghost predicate SwapOk(v: Vault, w: Swap) {
    && w.next.id in v.contents && v.contents[w.next.id] == w.next.codes
    && w.read in v.contents && w.at < |v.contents[w.read]| && w.next.codes == Without(v.contents[w.read], w.at)
  }

  ghost predicate VaultOk(v: Vault, enrolled: seq<string>) {
    && |v.stored| <= 1 && (forall id :: id in v.contents ==> id <= v.sealed)
    && (|v.stored| == 1 ==> v.stored[0].id in v.contents && v.contents[v.stored[0].id] == v.stored[0].codes)
    && (forall r :: r in v.swaps ==> SwapOk(v, v.swaps[r]))
    && (|v.stored| == 1 ==> multiset(v.spent) + multiset(v.stored[0].codes) == multiset(enrolled))
  }

  lemma WithoutMultiset(codes: seq<string>, at: nat)
    requires at < |codes|
    ensures multiset(Without(codes, at)) + multiset{codes[at]} == multiset(codes)
  {
    assert codes == codes[..at] + [codes[at]] + codes[at + 1..];
  }

  // The codes of the last enrolment.
  ghost function Enrolled(s: VaultStep, before: seq<string>): seq<string> {
    if s.EnrollCodes? then s.codes else before
  }

  // Sealing one more list changes nothing about the ciphertexts there are.
  lemma SealKeeps(v: Vault, v': Vault, codes: seq<string>)
    requires forall id :: id in v.contents ==> id <= v.sealed
    requires v'.sealed == v.sealed + 1 && v'.contents == v.contents[v.sealed + 1 := codes]
    ensures forall id :: id in v'.contents ==> id <= v'.sealed
    ensures forall id :: id in v.contents ==> id in v'.contents && v'.contents[id] == v.contents[id]
  {
  }

  lemma SwapKept(v: Vault, v': Vault, w: Swap)
    requires SwapOk(v, w) && forall id :: id in v.contents ==> id in v'.contents && v'.contents[id] == v.contents[id]
    ensures SwapOk(v', w)
  {
  }

  lemma EnrollOk(v: Vault, codes: seq<string>, enrolled: seq<string>)
    requires VaultOk(v, enrolled)
    ensures VaultOk(VaultNext(v, EnrollCodes(codes)), codes)
  {
    var v' := VaultNext(v, EnrollCodes(codes));
    SealKeeps(v, v', codes);
    forall r | r in v'.swaps ensures SwapOk(v', v'.swaps[r]) { SwapKept(v, v', v.swaps[r]); }
  }

  lemma ReadOk(v: Vault, request: nat, at: nat, enrolled: seq<string>)
    requires VaultOk(v, enrolled) && VaultEnabled(v, Read(request, at))
    ensures VaultOk(VaultNext(v, Read(request, at)), enrolled)
  {
    var v' := VaultNext(v, Read(request, at));
    SealKeeps(v, v', Without(v.stored[0].codes, at));
    forall r | r in v'.swaps ensures SwapOk(v', v'.swaps[r]) {
      if r != request { SwapKept(v, v', v.swaps[r]); }
    }
  }

  lemma SpentAdds(spent: seq<string>, codes: seq<string>, at: nat, enrolled: seq<string>)
    requires at < |codes| && multiset(spent) + multiset(codes) == multiset(enrolled)
    ensures multiset(spent + [codes[at]]) + multiset(Without(codes, at)) == multiset(enrolled)
  {
    WithoutMultiset(codes, at);
  }

  lemma SwapIsSpend(v: Vault, request: nat, enrolled: seq<string>)
    requires VaultOk(v, enrolled) && VaultEnabled(v, CompareAndSwap(request))
    ensures VaultOk(VaultNext(v, CompareAndSwap(request)), enrolled)
  {
    var v', w := VaultNext(v, CompareAndSwap(request)), v.swaps[request];
    assert SwapOk(v, w);
    if |v.stored| == 1 && v.stored[0].id == w.read {
      SpentAdds(v.spent, v.stored[0].codes, w.at, enrolled);
    }
    forall r | r in v'.swaps ensures SwapOk(v', v'.swaps[r]) { SwapKept(v, v', v.swaps[r]); }
  }

  lemma VaultStepOk(v: Vault, s: VaultStep, enrolled: seq<string>)
    requires VaultOk(v, enrolled) && VaultEnabled(v, s)
    ensures VaultOk(VaultNext(v, s), Enrolled(s, enrolled))
  {
    match s
    case EnrollCodes(codes) => EnrollOk(v, codes, enrolled);
    case Reset => forall r | r in v.swaps ensures SwapOk(VaultNext(v, s), v.swaps[r]) { SwapKept(v, VaultNext(v, s), v.swaps[r]); }
    case Read(request, at) => ReadOk(v, request, at, enrolled);
    case CompareAndSwap(request) => SwapIsSpend(v, request, enrolled);
  }

  ghost predicate VaultRun(v: Vault, steps: seq<VaultStep>, enrolled: seq<string>, v': Vault, enrolled': seq<string>)
    decreases |steps|
  {
    if steps == [] then v == v' && enrolled == enrolled'
    else VaultEnabled(v, steps[0]) && VaultRun(VaultNext(v, steps[0]), steps[1..], Enrolled(steps[0], enrolled), v', enrolled')
  }

  lemma {:induction false} VaultRunOk(v: Vault, steps: seq<VaultStep>, enrolled: seq<string>, v': Vault, enrolled': seq<string>)
    requires VaultOk(v, enrolled) && VaultRun(v, steps, enrolled, v', enrolled')
    ensures VaultOk(v', enrolled')
    decreases |steps|
  {
    if steps != [] {
      VaultStepOk(v, steps[0], enrolled);
      VaultRunOk(VaultNext(v, steps[0]), steps[1..], Enrolled(steps[0], enrolled), v', enrolled');
    }
  }

  /** Given a fresh ciphertext per Seal, the codes spent since the last enrolment together with the codes still
      stored are exactly the codes enrolled: each one is spent at most once, whoever races. */
  lemma RecoverySingleUse(steps: seq<VaultStep>, v: Vault, enrolled: seq<string>)
    requires VaultRun(Vault([], 0, map[], map[], []), steps, [], v, enrolled) && |v.stored| == 1
    ensures multiset(v.spent) + multiset(v.stored[0].codes) == multiset(enrolled)
    ensures (forall i, j :: 0 <= i < j < |enrolled| ==> enrolled[i] != enrolled[j]) ==>
              forall i, j :: 0 <= i < j < |v.spent| ==> v.spent[i] != v.spent[j]
  {
    VaultRunOk(Vault([], 0, map[], map[], []), steps, [], v, enrolled);
    if forall i, j :: 0 <= i < j < |enrolled| ==> enrolled[i] != enrolled[j] {
      forall i, j | 0 <= i < j < |v.spent| ensures v.spent[i] != v.spent[j] {
        OnceEach(enrolled, v.spent[i]);
        if v.spent[i] == v.spent[j] { TwiceAtLeast(v.spent, i, j); }
      }
    }
  }

  lemma {:induction false} OnceEach(s: seq<string>, x: string)
    requires forall i, j :: 0 <= i < j < |s| ==> s[i] != s[j]
    ensures multiset(s)[x] <= 1
    decreases |s|
  {
    if s != [] {
      var n := |s| - 1;
      OnceEach(s[..n], x);
      assert s == s[..n] + [s[n]];
      if s[n] == x { assert x !in s[..n]; }
    }
  }

  lemma TwiceAtLeast(s: seq<string>, i: int, j: int)
    requires 0 <= i < j < |s| && s[i] == s[j]
    ensures multiset(s)[s[i]] >= 2
  {
    assert s == s[..j] + [s[j]] + s[j + 1..];
    assert s[i] in s[..j];
  }
}
