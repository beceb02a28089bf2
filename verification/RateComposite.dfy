/** The per-email and per-IP limiters together: one request alone, and any number of them interleaved. */
module RateComposite {
  import opened RateLimit

  datatype Reason = Neither | ByEmail | ByIp
  datatype Decision = Decision(allowed: bool, reason: Reason)

  // A missing limiter, a limit that is not positive and an empty key all switch a side off.
  predicate On(c: Config, key: string) {
    c.limit > 0 && key != ""
  }

  // ----- one request alone ----------------------------------------------------------------

  // A look changes no window from then on.
  lemma LookKeepsWindow(c: Config, m: Buckets, key: string, t: int, k: string, later: int)
    requires t <= later
    ensures InWindow(c, AfterInspect(c, m, key, t), k, later) == InWindow(c, m, k, later)
  {
    TrimTwice(Bucket(m, key), t - c.window, later - c.window);
  }

  // The two sides of one request: which of them are on, their settings and keys, and whether one limiter is both.
  datatype Sides = Sides(shared: bool, ipOn: bool, emailOn: bool, ci: Config, ce: Config, ipKey: string, emailKey: string) {
    ghost predicate Valid() { (ipOn ==> ci.limit > 0) && (emailOn ==> ce.limit > 0) && (shared ==> ci == ce) }
    // Both sides count on one bucket.
    predicate OneBucket() { shared && ipOn && emailOn && ipKey == emailKey }
  }

  datatype Stores = Stores(ip: Buckets, email: Buckets)

  function PutIp(x: Sides, s: Stores, m: Buckets): Stores {
    if x.shared then Stores(m, m) else s.(ip := m)
  }

  function PutEmail(x: Sides, s: Stores, m: Buckets): Stores {
    if x.shared then Stores(m, m) else s.(email := m)
  }

  function Looks(x: Sides, s: Stores, t0: int, t1: int): Stores {
    var s1 := if x.ipOn then PutIp(x, s, AfterInspect(x.ci, s.ip, x.ipKey, t0)) else s;
    if x.emailOn then PutEmail(x, s1, AfterInspect(x.ce, s1.email, x.emailKey, t1)) else s1
  }

  function TakesIp(x: Sides, s: Stores, t2: int): Stores {
    if x.ipOn then PutIp(x, s, AfterAllow(x.ci, s.ip, x.ipKey, t2)) else s
  }

  function TakesEmail(x: Sides, s: Stores, t3: int): Stores {
    if x.emailOn then PutEmail(x, s, AfterAllow(x.ce, s.email, x.emailKey, t3)) else s
  }

  datatype Checked = Checked(d: Decision, s: Stores)

  // What the four calls of a request do when nothing comes in between.
  function Checks(x: Sides, s: Stores, t0: int, t1: int, t2: int, t3: int): Checked {
    var s1 := if x.ipOn then PutIp(x, s, AfterInspect(x.ci, s.ip, x.ipKey, t0)) else s;
    var s2 := Looks(x, s, t0, t1);
    var s3 := TakesIp(x, s2, t2);
    if x.ipOn && !Admits(x.ci, s.ip, x.ipKey, t0) then Checked(Decision(false, ByIp), s1)
    else if x.emailOn && !Admits(x.ce, s1.email, x.emailKey, t1) then Checked(Decision(false, ByEmail), s2)
    else if x.ipOn && !Admits(x.ci, s2.ip, x.ipKey, t2) then Checked(Decision(false, ByIp), s3)
    else if x.emailOn && !Admits(x.ce, s3.email, x.emailKey, t3) then Checked(Decision(false, ByEmail), TakesEmail(x, s3, t3))
    else Checked(Decision(true, Neither), TakesEmail(x, s3, t3))
  }

  ghost predicate Sound(x: Sides, s: Stores) {
    x.Valid() && (x.shared ==> s.ip == s.email)
  }

  // Every window of both limiters from time t on is the same.
  ghost predicate SameWindows(x: Sides, s: Stores, s': Stores, t: int) {
    forall k, later :: t <= later ==> WindowKept(x, s, s', k, later)
  }

  ghost predicate WindowKept(x: Sides, s: Stores, s': Stores, k: string, later: int) {
    InWindow(x.ci, s'.ip, k, later) == InWindow(x.ci, s.ip, k, later) && InWindow(x.ce, s'.email, k, later) == InWindow(x.ce, s.email, k, later)
  }

  lemma IpLookKept(x: Sides, s: Stores, t0: int)
    requires Sound(x, s)
    ensures var s1 := if x.ipOn then PutIp(x, s, AfterInspect(x.ci, s.ip, x.ipKey, t0)) else s;
            Sound(x, s1) && SameWindows(x, s, s1, t0)
  {
    var s1 := if x.ipOn then PutIp(x, s, AfterInspect(x.ci, s.ip, x.ipKey, t0)) else s;
    forall k, later | t0 <= later ensures WindowKept(x, s, s1, k, later) { LookKeepsWindow(x.ci, s.ip, x.ipKey, t0, k, later); }
  }

  lemma EmailLookKept(x: Sides, s: Stores, t1: int)
    requires Sound(x, s)
    ensures var s1 := if x.emailOn then PutEmail(x, s, AfterInspect(x.ce, s.email, x.emailKey, t1)) else s;
            Sound(x, s1) && SameWindows(x, s, s1, t1)
  {
    var s1 := if x.emailOn then PutEmail(x, s, AfterInspect(x.ce, s.email, x.emailKey, t1)) else s;
    forall k, later | t1 <= later ensures WindowKept(x, s, s1, k, later) { LookKeepsWindow(x.ce, s.email, x.emailKey, t1, k, later); }
  }

  lemma LooksKept(x: Sides, s: Stores, t0: int, t1: int)
    requires Sound(x, s) && t0 <= t1
    ensures Sound(x, Looks(x, s, t0, t1)) && SameWindows(x, s, Looks(x, s, t0, t1), t1)
  {
    var s1 := if x.ipOn then PutIp(x, s, AfterInspect(x.ci, s.ip, x.ipKey, t0)) else s;
    var s2 := Looks(x, s, t0, t1);
    IpLookKept(x, s, t0);
    EmailLookKept(x, s1, t1);
    forall k, later | t1 <= later ensures WindowKept(x, s, s2, k, later) {
      assert WindowKept(x, s, s1, k, later) && WindowKept(x, s1, s2, k, later);
    }
  }

  // A slot seen is a slot later: windows only shrink.
  lemma StillAdmits(c: Config, m: Buckets, key: string, t: int, later: int)
    requires t <= later && Admits(c, m, key, t)
    ensures Admits(c, m, key, later)
  {
    TrimTwice(Bucket(m, key), t - c.window, later - c.window);
  }

  // The email side finds the slot it saw taken: by the IP side, on the same bucket.
  ghost predicate Late(x: Sides, s: Stores, t2: int, t3: int) {
    x.OneBucket() && !Admits(x.ci, AfterAllow(x.ci, s.ip, x.ipKey, t2), x.ipKey, t3)
  }

  lemma IpTaken(x: Sides, s: Stores, t0: int, t1: int, t2: int, t3: int)
    requires Sound(x, s) && t0 <= t1 <= t2 <= t3
    requires x.ipOn ==> Admits(x.ci, s.ip, x.ipKey, t0)
    requires x.emailOn ==> Admits(x.ce, s.email, x.emailKey, t1)
    ensures var s2 := Looks(x, s, t0, t1); var s3 := TakesIp(x, s2, t2);
            && (x.ipOn ==> Admits(x.ci, s2.ip, x.ipKey, t2) && Bucket(s3.ip, x.ipKey) == InWindow(x.ci, s.ip, x.ipKey, t2) + [t2])
            && (x.emailOn && !x.OneBucket() ==> InWindow(x.ce, s3.email, x.emailKey, t3) == InWindow(x.ce, s.email, x.emailKey, t3))
  {
    var s2 := Looks(x, s, t0, t1);
    LooksKept(x, s, t0, t1);
    assert WindowKept(x, s, s2, x.ipKey, t2) && WindowKept(x, s, s2, x.emailKey, t3);
    if x.ipOn { StillAdmits(x.ci, s.ip, x.ipKey, t0, t2); }
  }

  /** The decision of a request alone: by its IP exactly when that has no slot at the first look, else by its email
      exactly when that has none at the second, or when both count on one bucket with no second slot. */
  lemma CheckDecides(x: Sides, s: Stores, t0: int, t1: int, t2: int, t3: int)
    requires Sound(x, s) && t0 <= t1 <= t2 <= t3
    ensures var d := Checks(x, s, t0, t1, t2, t3).d;
            && (d.allowed <==> d.reason == Neither)
            && (d.reason == ByIp <==> x.ipOn && !Admits(x.ci, s.ip, x.ipKey, t0))
            && (d.reason == ByEmail <==>
                  d.reason != ByIp && x.emailOn && (!Admits(x.ce, s.email, x.emailKey, t1) || Late(x, s, t2, t3)))
  {
    IpLookKept(x, s, t0);
    var s1 := if x.ipOn then PutIp(x, s, AfterInspect(x.ci, s.ip, x.ipKey, t0)) else s;
    assert WindowKept(x, s, s1, x.emailKey, t1);
    if (x.ipOn ==> Admits(x.ci, s.ip, x.ipKey, t0)) && (x.emailOn ==> Admits(x.ce, s.email, x.emailKey, t1)) {
      IpTaken(x, s, t0, t1, t2, t3);
      if x.emailOn { EmailTakes(x, s, t0, t1, t2, t3); }
    }
  }

  // After the IP side has taken its slot the email side is admitted, unless it is late.
  lemma EmailTakes(x: Sides, s: Stores, t0: int, t1: int, t2: int, t3: int)
    requires Sound(x, s) && t0 <= t1 <= t2 <= t3
    requires x.ipOn ==> Admits(x.ci, s.ip, x.ipKey, t0)
    requires x.emailOn && Admits(x.ce, s.email, x.emailKey, t1)
    ensures Admits(x.ce, TakesIp(x, Looks(x, s, t0, t1), t2).email, x.emailKey, t3) <==> !Late(x, s, t2, t3)
  {
    IpTaken(x, s, t0, t1, t2, t3);
    StillAdmits(x.ce, s.email, x.emailKey, t1, t3);
    if x.OneBucket() { StillAdmits(x.ci, s.ip, x.ipKey, t0, t2); }
  }

  /** A request alone that either look refuses leaves every window of both limiters as it was. */
  lemma RefusalChargesNothing(x: Sides, s: Stores, t0: int, t1: int, t2: int, t3: int)
    requires Sound(x, s) && t0 <= t1 <= t2 <= t3
    requires (x.ipOn && !Admits(x.ci, s.ip, x.ipKey, t0)) || (x.emailOn && !Admits(x.ce, s.email, x.emailKey, t1))
    ensures !Checks(x, s, t0, t1, t2, t3).d.allowed && SameWindows(x, s, Checks(x, s, t0, t1, t2, t3).s, t1)
  {
    CheckDecides(x, s, t0, t1, t2, t3);
    IpLookKept(x, s, t0);
    LooksKept(x, s, t0, t1);
    var s1 := if x.ipOn then PutIp(x, s, AfterInspect(x.ci, s.ip, x.ipKey, t0)) else s;
    forall k, later | t1 <= later ensures WindowKept(x, s, s1, k, later) {}
    assert WindowKept(x, s, s1, x.emailKey, t1);
  }

  /** One that neither look refuses is charged on each side that is on, and allowed unless it is late. */
  lemma AllowedIsCharged(x: Sides, s: Stores, t0: int, t1: int, t2: int, t3: int)
    requires Sound(x, s) && t0 <= t1 <= t2 <= t3
    requires x.ipOn ==> Admits(x.ci, s.ip, x.ipKey, t0)
    requires x.emailOn ==> Admits(x.ce, s.email, x.emailKey, t1)
    ensures var r := Checks(x, s, t0, t1, t2, t3);
            && (r.d.allowed <==> !Late(x, s, t2, t3))
            && (x.ipOn && !x.OneBucket() ==> Bucket(r.s.ip, x.ipKey) == InWindow(x.ci, s.ip, x.ipKey, t2) + [t2])
            && (x.emailOn && !x.OneBucket() ==> Bucket(r.s.email, x.emailKey) == InWindow(x.ce, s.email, x.emailKey, t3) + [t3])
            && (x.OneBucket() ==> Bucket(r.s.ip, x.ipKey) == Trim(InWindow(x.ci, s.ip, x.ipKey, t2) + [t2], t3 - x.ci.window)
                                                          + if r.d.allowed then [t3] else [])
  {
    IpLookKept(x, s, t0);
    var s1 := if x.ipOn then PutIp(x, s, AfterInspect(x.ci, s.ip, x.ipKey, t0)) else s;
    assert WindowKept(x, s, s1, x.emailKey, t1);
    IpTaken(x, s, t0, t1, t2, t3);
    if x.emailOn { EmailTakes(x, s, t0, t1, t2, t3); }
  }

  class Composite {
    const email: Limiter?
    const ip: Limiter?

    constructor (email: Limiter?, ip: Limiter?)
      ensures this.email == email && this.ip == ip
    {
      this.email, this.ip := email, ip;
    }

    function Of(emailKey: string, ipKey: string): (x: Sides)
      ensures x.Valid()
    {
      var none := Config(0, 0);
      Sides(email != null && email == ip, ip != null && On(ip.c, ipKey), email != null && On(email.c, emailKey),
            if ip == null then none else ip.c, if email == null then none else email.c, ipKey, emailKey)
    }

    function Contents(): Stores
      reads ip, email
    {
      Stores(if ip == null then map[] else ip.buckets, if email == null then map[] else email.buckets)
    }

    /** Check with nothing in between, the clock read at t0, t1, t2 and t3. */
    method Check(emailKey: string, ipKey: string, t0: int, t1: int, t2: int, t3: int) returns (d: Decision)
      modifies email, ip
      ensures Checked(d, Contents()) == Checks(Of(emailKey, ipKey), old(Contents()), t0, t1, t2, t3)
    {
      var ipOn := ip != null && ipKey != "" && ip.c.limit > 0;
      var emailOn := email != null && emailKey != "" && email.c.limit > 0;
      if ipOn {
        var _, remaining, _ := ip.Inspect(ipKey, t0);
        if remaining == 0 { return Decision(false, ByIp); }
      }
      if emailOn {
        var _, remaining, _ := email.Inspect(emailKey, t1);
        if remaining == 0 { return Decision(false, ByEmail); }
      }
      if ipOn {
        var ok := ip.Allow(ipKey, t2);
        if !ok { return Decision(false, ByIp); }
      }
      if emailOn {
        var ok := email.Allow(emailKey, t3);
        if !ok { return Decision(false, ByEmail); }
      }
      return Decision(true, Neither);
    }
  }
}
