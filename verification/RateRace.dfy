/** Requests through both limiters, their locked calls interleaved in any order. */
module RateRace {
  import opened RateLimit
  import opened RateComposite

  datatype Setup = Setup(email: Config, ip: Config)

  // How far a request has come: it looks at its IP, looks at its email, takes its IP slot, takes its email slot.
  datatype Stage = Arrived | IpSeen | EmailSeen | IpTaken | Done(d: Decision)
  datatype Request = Request(email: string, ip: string, stage: Stage)

  // The buckets and requests; the logs list, in order, the requests for which an event was recorded.
  datatype System = System(email: Buckets, ip: Buckets, requests: seq<Request>, emailLog: seq<nat>, ipLog: seq<nat>)

  datatype Event = Arrive(email: string, ip: string, now: int) | Act(i: nat, now: int) | SweepEmail(now: int) | SweepIp(now: int)

  function Move(s: System, i: nat, stage: Stage): System
    requires i < |s.requests|
  {
    s.(requests := s.requests[i := s.requests[i].(stage := stage)])
  }

  function LookIp(setup: Setup, s: System, i: nat, now: int): System
    requires i < |s.requests|
  {
    var key := s.requests[i].ip;
    if !On(setup.ip, key) then Move(s, i, IpSeen)
    else
      var t := s.(ip := AfterInspect(setup.ip, s.ip, key, now));
      Move(t, i, if Admits(setup.ip, s.ip, key, now) then IpSeen else Done(Decision(false, ByIp)))
  }

  function LookEmail(setup: Setup, s: System, i: nat, now: int): System
    requires i < |s.requests|
  {
    var key := s.requests[i].email;
    if !On(setup.email, key) then Move(s, i, EmailSeen)
    else
      var t := s.(email := AfterInspect(setup.email, s.email, key, now));
      Move(t, i, if Admits(setup.email, s.email, key, now) then EmailSeen else Done(Decision(false, ByEmail)))
  }

  function TakeIp(setup: Setup, s: System, i: nat, now: int): System
    requires i < |s.requests|
  {
    var key := s.requests[i].ip;
    if !On(setup.ip, key) then Move(s, i, IpTaken)
    else
      var t := s.(ip := AfterAllow(setup.ip, s.ip, key, now));
      if Admits(setup.ip, s.ip, key, now) then Move(t.(ipLog := s.ipLog + [i]), i, IpTaken)
      else Move(t, i, Done(Decision(false, ByIp)))
  }

  function TakeEmail(setup: Setup, s: System, i: nat, now: int): System
    requires i < |s.requests|
  {
    var key := s.requests[i].email;
    if !On(setup.email, key) then Move(s, i, Done(Decision(true, Neither)))
    else
      var t := s.(email := AfterAllow(setup.email, s.email, key, now));
      if Admits(setup.email, s.email, key, now)
      then Move(t.(emailLog := s.emailLog + [i]), i, Done(Decision(true, Neither)))
      else Move(t, i, Done(Decision(false, ByEmail)))
  }

  function Step(setup: Setup, s: System, e: Event): System {
    match e
    case Arrive(email, ip, _) => s.(requests := s.requests + [Request(email, ip, Arrived)])
    case SweepEmail(now) => s.(email := AfterSweep(setup.email, s.email, now))
    case SweepIp(now) => s.(ip := AfterSweep(setup.ip, s.ip, now))
    case Act(i, now) =>
      if i >= |s.requests| then s
      else match s.requests[i].stage
        case Arrived => LookIp(setup, s, i, now)
        case IpSeen => LookEmail(setup, s, i, now)
        case EmailSeen => TakeIp(setup, s, i, now)
        case IpTaken => TakeEmail(setup, s, i, now)
        case Done(_) => s
  }

  const START := System(map[], map[], [], [], [])

  function Run(setup: Setup, events: seq<Event>): System {
    if events == [] then START else Step(setup, Run(setup, events[..|events| - 1]), events[|events| - 1])
  }

  // ----- who is charged -------------------------------------------------------------------

  predicate Allowed(r: Request) {
    r.stage.Done? && r.stage.d.allowed
  }

  // A request refused at its second look at the email: its IP slot is already taken.
  predicate MayHoldIp(r: Request) {
    r.stage == IpTaken || Allowed(r) || r.stage == Done(Decision(false, ByEmail))
  }

  ghost predicate Settled(setup: Setup, s: System, i: nat)
    requires i < |s.requests|
  {
    var r := s.requests[i];
    && (i in s.emailLog <==> Allowed(r) && On(setup.email, r.email))
    && (i in s.ipLog ==> MayHoldIp(r) && On(setup.ip, r.ip))
    && ((r.stage == IpTaken || Allowed(r)) && On(setup.ip, r.ip) ==> i in s.ipLog)
  }

  ghost predicate NoRepeats(log: seq<nat>, n: nat) {
    (forall k :: 0 <= k < |log| ==> log[k] < n) && forall j, k :: 0 <= j < k < |log| ==> log[j] != log[k]
  }

  ghost predicate Inv(setup: Setup, s: System) {
    && (forall i :: 0 <= i < |s.requests| ==> Settled(setup, s, i))
    && NoRepeats(s.emailLog, |s.requests|) && NoRepeats(s.ipLog, |s.requests|)
  }

  // A step by request i that leaves the logs of all others alone.
  lemma OthersSettled(setup: Setup, s: System, t: System, i: nat)
    requires Inv(setup, s) && i < |s.requests| == |t.requests|
    requires forall k :: 0 <= k < |s.requests| && k != i ==> t.requests[k] == s.requests[k]
    requires t.emailLog == s.emailLog || t.emailLog == s.emailLog + [i]
    requires t.ipLog == s.ipLog || t.ipLog == s.ipLog + [i]
    requires Settled(setup, t, i) && NoRepeats(t.emailLog, |s.requests|) && NoRepeats(t.ipLog, |s.requests|)
    ensures Inv(setup, t)
  {
    forall k | 0 <= k < |t.requests| ensures Settled(setup, t, k) {
      if k != i { assert Settled(setup, s, k); }
    }
  }

  lemma FreshEntry(log: seq<nat>, n: nat, i: nat)
    requires NoRepeats(log, n) && i < n && i !in log
    ensures NoRepeats(log + [i], n)
  {
  }

  lemma LooksKeepInv(setup: Setup, s: System, i: nat, now: int)
    requires Inv(setup, s) && i < |s.requests|
    ensures s.requests[i].stage == Arrived ==> Inv(setup, LookIp(setup, s, i, now))
    ensures s.requests[i].stage == IpSeen ==> Inv(setup, LookEmail(setup, s, i, now))
  {
    assert Settled(setup, s, i);
    if s.requests[i].stage == Arrived { OthersSettled(setup, s, LookIp(setup, s, i, now), i); }
    if s.requests[i].stage == IpSeen { OthersSettled(setup, s, LookEmail(setup, s, i, now), i); }
  }

  lemma TakeIpKeepsInv(setup: Setup, s: System, i: nat, now: int)
    requires Inv(setup, s) && i < |s.requests| && s.requests[i].stage == EmailSeen
    ensures Inv(setup, TakeIp(setup, s, i, now))
  {
    assert Settled(setup, s, i);
    FreshEntry(s.ipLog, |s.requests|, i);
    OthersSettled(setup, s, TakeIp(setup, s, i, now), i);
  }

  lemma TakeEmailKeepsInv(setup: Setup, s: System, i: nat, now: int)
    requires Inv(setup, s) && i < |s.requests| && s.requests[i].stage == IpTaken
    ensures Inv(setup, TakeEmail(setup, s, i, now))
  {
    assert Settled(setup, s, i);
    FreshEntry(s.emailLog, |s.requests|, i);
    OthersSettled(setup, s, TakeEmail(setup, s, i, now), i);
  }

  lemma ArriveKeepsInv(setup: Setup, s: System, e: Event)
    requires Inv(setup, s) && e.Arrive?
    ensures Inv(setup, Step(setup, s, e))
  {
    var t := Step(setup, s, e);
    forall k | 0 <= k < |t.requests| ensures Settled(setup, t, k) {
      if k < |s.requests| { assert Settled(setup, s, k); }
    }
  }

  lemma SweepKeepsInv(setup: Setup, s: System, t: System)
    requires Inv(setup, s) && t.requests == s.requests && t.emailLog == s.emailLog && t.ipLog == s.ipLog
    ensures Inv(setup, t)
  {
    forall k | 0 <= k < |t.requests| ensures Settled(setup, t, k) { assert Settled(setup, s, k); }
  }

  lemma StepKeepsInv(setup: Setup, s: System, e: Event)
    requires Inv(setup, s)
    ensures Inv(setup, Step(setup, s, e))
  {
    match e
    case Arrive(_, _, _) => ArriveKeepsInv(setup, s, e);
    case SweepEmail(_) => SweepKeepsInv(setup, s, Step(setup, s, e));
    case SweepIp(_) => SweepKeepsInv(setup, s, Step(setup, s, e));
    case Act(i, now) =>
      if i < |s.requests| {
        LooksKeepInv(setup, s, i, now);
        if s.requests[i].stage == EmailSeen { TakeIpKeepsInv(setup, s, i, now); }
        if s.requests[i].stage == IpTaken { TakeEmailKeepsInv(setup, s, i, now); }
      }
  }

  lemma {:induction false} RunKeepsInv(setup: Setup, events: seq<Event>)
    ensures Inv(setup, Run(setup, events))
  {
    if events != [] {
      RunKeepsInv(setup, events[..|events| - 1]);
      StepKeepsInv(setup, Run(setup, events[..|events| - 1]), events[|events| - 1]);
    }
  }

  /** However the requests interleave, an email slot is charged by allowed requests and by no other, each once. */
  lemma EmailChargedByAllowedOnly(setup: Setup, events: seq<Event>, i: nat)
    requires i < |Run(setup, events).requests|
    ensures var s := Run(setup, events);
            && NoRepeats(s.emailLog, |s.requests|) && NoRepeats(s.ipLog, |s.requests|)
            && (i in s.emailLog <==> Allowed(s.requests[i]) && On(setup.email, s.requests[i].email))
            && (Allowed(s.requests[i]) && On(setup.ip, s.requests[i].ip) ==> i in s.ipLog)
            && (s.requests[i].stage == Done(Decision(false, ByIp)) ==> i !in s.ipLog)
  {
    RunKeepsInv(setup, events);
    assert Settled(setup, Run(setup, events), i);
  }

  // ----- what the logs record -------------------------------------------------------------

  // Step k records an event for this email key.
  ghost predicate Charges(setup: Setup, s: System, e: Event, key: string) {
    && e.Act? && e.i < |s.requests| && s.requests[e.i].stage == IpTaken && s.requests[e.i].email == key
    && On(setup.email, key) && Admits(setup.email, s.email, key, e.now)
  }

  /** A step records an event in an email's bucket exactly when it logs the acting request; else it at most trims. */
  lemma BucketsFollowLog(setup: Setup, s: System, e: Event, key: string)
    requires setup.email.limit > 0
    ensures Charges(setup, s, e, key) ==>
              && Step(setup, s, e).emailLog == s.emailLog + [e.i]
              && Bucket(Step(setup, s, e).email, key) == InWindow(setup.email, s.email, key, e.now) + [e.now]
    ensures !Charges(setup, s, e, key) ==>
              || Bucket(Step(setup, s, e).email, key) == Bucket(s.email, key)
              || Bucket(Step(setup, s, e).email, key) == InWindow(setup.email, s.email, key, e.now)
    ensures Step(setup, s, e).emailLog == s.emailLog || exists k :: Charges(setup, s, e, k)
  {
    if e.Act? && e.i < |s.requests| && s.requests[e.i].stage == IpTaken {
      if Step(setup, s, e).emailLog != s.emailLog { assert Charges(setup, s, e, s.requests[e.i].email); }
    }
  }

  // ----- a refused request that holds an IP slot ------------------------------------------

  ghost predicate RefusedWithIp(s: System, i: nat) {
    i < |s.requests| && s.requests[i].stage.Done? && !s.requests[i].stage.d.allowed && i in s.ipLog
  }

  // In state s event e is request i coming to take its email slot, its IP slot taken, and finding none.
  ghost predicate FindsEmailFull(setup: Setup, s: System, e: Event, i: nat) {
    && e.Act? && e.i == i < |s.requests| && s.requests[i].stage == IpTaken && i in s.ipLog
    && On(setup.email, s.requests[i].email) && !Admits(setup.email, s.email, s.requests[i].email, e.now)
  }

  ghost predicate LateAt(setup: Setup, events: seq<Event>, j: nat, i: nat) {
    j < |events| && FindsEmailFull(setup, Run(setup, events[..j]), events[j], i)
  }

  lemma StepRefuses(setup: Setup, s: System, e: Event, i: nat)
    requires Inv(setup, s)
    ensures RefusedWithIp(Step(setup, s, e), i) <==> RefusedWithIp(s, i) || FindsEmailFull(setup, s, e, i)
  {
    if i < |s.requests| { assert Settled(setup, s, i); }
    if e.Act? && e.i < |s.requests| { OtherLogs(setup, s, e, i); }
    if e.Arrive? { ArriveRefuses(setup, s, e, i); }
  }

  lemma ArriveRefuses(setup: Setup, s: System, e: Event, i: nat)
    requires e.Arrive?
    ensures RefusedWithIp(Step(setup, s, e), i) <==> RefusedWithIp(s, i)
  {
  }

  lemma OtherLogs(setup: Setup, s: System, e: Event, i: nat)
    requires e.Act? && e.i < |s.requests|
    ensures i != e.i ==> (i in Step(setup, s, e).ipLog <==> i in s.ipLog)
    ensures i != e.i && i < |s.requests| ==> Step(setup, s, e).requests[i] == s.requests[i]
    ensures |Step(setup, s, e).requests| == |s.requests|
    ensures i in s.ipLog ==> i in Step(setup, s, e).ipLog
  {
  }

  lemma LateAtFront(setup: Setup, events: seq<Event>, front: seq<Event>, j: nat, i: nat)
    requires j <= |front| && |events| == |front| + 1 && front == events[..|front|]
    ensures LateAt(setup, events, j, i) <==>
              LateAt(setup, front, j, i) || (j == |front| && FindsEmailFull(setup, Run(setup, front), events[j], i))
  {
    assert front[..j] == events[..j];
    assert front[..|front|] == front;
  }

  lemma LateExtends(setup: Setup, events: seq<Event>, front: seq<Event>, i: nat)
    requires |events| == |front| + 1 && front == events[..|front|]
    ensures (exists j :: LateAt(setup, events, j, i)) <==>
              (exists j :: LateAt(setup, front, j, i)) || FindsEmailFull(setup, Run(setup, front), events[|front|], i)
  {
    if j :| LateAt(setup, events, j, i) { LateAtFront(setup, events, front, j, i); }
    if j :| LateAt(setup, front, j, i) { LateAtFront(setup, events, front, j, i); }
    LateAtFront(setup, events, front, |front|, i);
  }

  /** A refused request holds an IP slot exactly when, that slot taken, it found its email full. */
  lemma {:induction false} RefusedWithIpIff(setup: Setup, events: seq<Event>, i: nat)
    ensures RefusedWithIp(Run(setup, events), i) <==> exists j :: LateAt(setup, events, j, i)
  {
    if events != [] {
      var front := events[..|events| - 1];
      RefusedWithIpIff(setup, front, i);
      RunKeepsInv(setup, front);
      StepRefuses(setup, Run(setup, front), events[|events| - 1], i);
      LateExtends(setup, events, front, i);
    }
  }

  // ----- that takes another request for the same email in between --------------------------

  ghost predicate Before(events: seq<Event>, n: nat, now: int) {
    n <= |events| && forall k :: 0 <= k < n ==> events[k].now <= now
  }

  // How many of the key's events will be in the window at a later time.
  function Room(c: Config, m: Buckets, key: string, now: int): nat {
    |InWindow(c, m, key, now)|
  }

  lemma StepKeepsRoom(setup: Setup, s: System, e: Event, key: string, now: int)
    requires setup.email.limit > 0 && e.now <= now && !Charges(setup, s, e, key)
    ensures Room(setup.email, Step(setup, s, e).email, key, now) == Room(setup.email, s.email, key, now)
  {
    BucketsFollowLog(setup, s, e, key);
    TrimTwice(Bucket(s.email, key), e.now - setup.email.window, now - setup.email.window);
  }

  ghost predicate ChargesAt(setup: Setup, events: seq<Event>, k: nat, key: string) {
    k < |events| && Charges(setup, Run(setup, events[..k]), events[k], key)
  }

  lemma RunStep(setup: Setup, events: seq<Event>, n: nat)
    requires n < |events|
    ensures Run(setup, events[..n + 1]) == Step(setup, Run(setup, events[..n]), events[n])
  {
    assert events[..n + 1][..n] == events[..n];
  }

  lemma {:induction false} RoomStays(setup: Setup, events: seq<Event>, a: nat, b: nat, key: string, now: int)
    requires setup.email.limit > 0 && a <= b && Before(events, b, now)
    requires forall k :: a <= k < b ==> !ChargesAt(setup, events, k, key)
    ensures Room(setup.email, Run(setup, events[..b]).email, key, now) == Room(setup.email, Run(setup, events[..a]).email, key, now)
    decreases b - a
  {
    if a < b {
      RoomStays(setup, events, a, b - 1, key, now);
      RunStep(setup, events, b - 1);
      assert !ChargesAt(setup, events, b - 1, key);
      StepKeepsRoom(setup, Run(setup, events[..b - 1]), events[b - 1], key, now);
    }
  }

  // Event a is request i looking at its email and finding room.
  ghost predicate FindsRoom(setup: Setup, s: System, e: Event, i: nat) {
    && e.Act? && e.i == i < |s.requests| && s.requests[i].stage == IpSeen
    && Admits(setup.email, s.email, s.requests[i].email, e.now)
  }

  // A request keeps its email, and its decision once it has one.
  ghost predicate Kept(s: System, t: System, i: nat) {
    && i < |s.requests| <= |t.requests| && t.requests[i].email == s.requests[i].email
    && (s.requests[i].stage.Done? ==> t.requests[i].stage == s.requests[i].stage)
  }

  lemma MoveKeeps(setup: Setup, s: System, e: Event)
    requires e.Act? && e.i < |s.requests|
    ensures Kept(s, Step(setup, s, e), e.i)
  {
  }

  lemma StepKeeps(setup: Setup, s: System, e: Event, i: nat)
    requires i < |s.requests|
    ensures Kept(s, Step(setup, s, e), i)
  {
    if e.Act? && e.i < |s.requests| {
      MoveKeeps(setup, s, e);
      OtherLogs(setup, s, e, i);
    }
  }

  lemma KeptOnwards(s: System, t: System, u: System, i: nat)
    requires Kept(s, t, i) && Kept(t, u, i)
    ensures Kept(s, u, i)
  {
  }

  lemma {:induction false} OneEventKeeps(setup: Setup, events: seq<Event>, n: nat, i: nat)
    requires n < |events| && i < |Run(setup, events[..n]).requests|
    ensures Kept(Run(setup, events[..n]), Run(setup, events[..n + 1]), i)
  {
    RunStep(setup, events, n);
    StepKeeps(setup, Run(setup, events[..n]), events[n], i);
  }

  // The states of a run, one after each number of events.
  ghost function States(setup: Setup, events: seq<Event>): (states: seq<System>)
    ensures |states| == |events| + 1
  {
    seq(|events| + 1, n requires 0 <= n <= |events| => Run(setup, events[..n]))
  }

  ghost predicate KeptAt(states: seq<System>, k: nat, i: nat) {
    k + 1 < |states| && i < |states[k].requests| ==> Kept(states[k], states[k + 1], i)
  }

  lemma StateKept(setup: Setup, events: seq<Event>, k: nat, i: nat)
    requires k < |events|
    ensures KeptAt(States(setup, events), k, i)
  {
    if i < |Run(setup, events[..k]).requests| { OneEventKeeps(setup, events, k, i); }
  }

  lemma {:induction false} KeptAlong(states: seq<System>, a: nat, b: nat, i: nat)
    requires a <= b < |states| && i < |states[a].requests| && forall k: nat :: a <= k < b ==> KeptAt(states, k, i)
    ensures Kept(states[a], states[b], i)
    decreases b - a
  {
    if a < b {
      KeptAlong(states, a, b - 1, i);
      assert KeptAt(states, b - 1, i);
      KeptOnwards(states[a], states[b - 1], states[b], i);
    }
  }

  lemma StatesKept(setup: Setup, events: seq<Event>, states: seq<System>, a: nat, b: nat, i: nat)
    requires states == States(setup, events) && a <= b <= |events| && i < |states[a].requests|
    ensures Kept(states[a], states[b], i)
  {
    forall k: nat | a <= k < b ensures KeptAt(states, k, i) { StateKept(setup, events, k, i); }
    KeptAlong(states, a, b, i);
  }

  lemma RunKeeps(setup: Setup, events: seq<Event>, a: nat, b: nat, i: nat)
    requires a <= b <= |events| && i < |Run(setup, events[..a]).requests|
    ensures Kept(Run(setup, events[..a]), Run(setup, events[..b]), i)
  {
    StatesKept(setup, events, States(setup, events), a, b, i);
  }

  lemma ChargeIsDone(setup: Setup, s: System, e: Event, key: string)
    requires Charges(setup, s, e, key)
    ensures e.i < |Step(setup, s, e).requests| && Step(setup, s, e).requests[e.i].stage.Done?
  {
  }

  /**
   * With an ordered clock, a request that saw room for its email and later finds it full has been
   * overtaken: in between, another request was charged for the same email.
   */
  lemma OvertakenInBetween(setup: Setup, events: seq<Event>, a: nat, b: nat, i: nat, key: string) returns (k: nat)
    requires a < b && LateAt(setup, events, b, i) && FindsRoom(setup, Run(setup, events[..a]), events[a], i)
    requires Before(events, b, events[b].now) && key == Run(setup, events[..a]).requests[i].email
    ensures a <= k < b && ChargesAt(setup, events, k, key) && events[k].i != i
  {
    RunKeeps(setup, events, a, b, i);
    k := SomeCharge(setup, events, a, b, i, key);
    if events[k].i == i { ChargedIsDone(setup, events, k, b, key); }
  }

  lemma ChargedIsDone(setup: Setup, events: seq<Event>, k: nat, b: nat, key: string)
    requires k < b <= |events| && ChargesAt(setup, events, k, key)
    ensures var s := Run(setup, events[..b]); events[k].i < |s.requests| && s.requests[events[k].i].stage.Done?
  {
    RunStep(setup, events, k);
    ChargeIsDone(setup, Run(setup, events[..k]), events[k], key);
    RunKeeps(setup, events, k + 1, b, events[k].i);
  }

  lemma SomeCharge(setup: Setup, events: seq<Event>, a: nat, b: nat, i: nat, key: string) returns (k: nat)
    requires a < b && LateAt(setup, events, b, i) && FindsRoom(setup, Run(setup, events[..a]), events[a], i)
    requires Before(events, b, events[b].now)
    requires key == Run(setup, events[..a]).requests[i].email == Run(setup, events[..b]).requests[i].email
    ensures a <= k < b && ChargesAt(setup, events, k, key)
  {
    var c, now := setup.email, events[b].now;
    if forall k :: a <= k < b ==> !ChargesAt(setup, events, k, key) {
      RoomStays(setup, events, a, b, key, now);
      RoomShrinks(c, Run(setup, events[..a]).email, key, events[a].now, now);
      assert false;
    }
    k :| a <= k < b && ChargesAt(setup, events, k, key);
  }

  lemma RoomShrinks(c: Config, m: Buckets, key: string, t: int, now: int)
    requires t <= now
    ensures Room(c, m, key, now) <= Room(c, m, key, t)
  {
    TrimTwice(Bucket(m, key), t - c.window, now - c.window);
  }

  // ----- and it happens -------------------------------------------------------------------

  lemma Snoc(setup: Setup, events: seq<Event>, e: Event)
    ensures Run(setup, events + [e]) == Step(setup, Run(setup, events), e)
  {
    assert (events + [e])[..|events|] == events;
  }

  const ONE_EACH := Setup(Config(1, HOUR), Config(1, HOUR))

  // One more event of a run.
  lemma Next(events: seq<Event>, s: System, e: Event, t: System) returns (longer: seq<Event>)
    requires Run(ONE_EACH, events) == s && Step(ONE_EACH, s, e) == t
    ensures Run(ONE_EACH, longer) == t
  {
    Snoc(ONE_EACH, events, e);
    longer := events + [e];
  }

  function WithLast(s: System, ip: string, stage: Stage): System {
    s.(requests := s.requests + [Request("m", ip, stage)])
  }

  lemma Sees(s: System, ip: string)
    requires ip != "" && Bucket(s.ip, ip) == [] && Bucket(s.email, "m") == []
    ensures Step(ONE_EACH, WithLast(s, ip, Arrived), Act(|s.requests|, 0)) == WithLast(s.(ip := s.ip[ip := []]), ip, IpSeen)
    ensures Step(ONE_EACH, WithLast(s, ip, IpSeen), Act(|s.requests|, 0)) == WithLast(s.(email := s.email["m" := []]), ip, EmailSeen)
  {
  }

  lemma Takes(s: System, ip: string)
    requires ip != "" && Bucket(s.ip, ip) == []
    ensures Step(ONE_EACH, WithLast(s, ip, EmailSeen), Act(|s.requests|, 0))
         == WithLast(s.(ip := s.ip[ip := [0]], ipLog := s.ipLog + [|s.requests|]), ip, IpTaken)
  {
    assert [] + [0] == [0];
  }

  // A request that comes to the point of taking its email slot.
  lemma Comes(events: seq<Event>, s: System, ip: string) returns (longer: seq<Event>, t: System)
    requires Run(ONE_EACH, events) == s && ip != "" && ip !in s.ip && Bucket(s.email, "m") == []
    ensures Run(ONE_EACH, longer) == WithLast(t, ip, IpTaken) && t.requests == s.requests
    ensures Bucket(t.email, "m") == [] && t.ip.Keys == s.ip.Keys + {ip} && t.ipLog == s.ipLog + [|s.requests|]
  {
    var act := Act(|s.requests|, 0);
    longer := Next(events, s, Arrive("m", ip, 0), WithLast(s, ip, Arrived));
    Sees(s, ip);
    t := s.(ip := s.ip[ip := []]);
    longer := Next(longer, WithLast(s, ip, Arrived), act, WithLast(t, ip, IpSeen));
    Sees(t, ip);
    var u := t.(email := t.email["m" := []]);
    longer := Next(longer, WithLast(t, ip, IpSeen), act, WithLast(u, ip, EmailSeen));
    Takes(u, ip);
    t := u.(ip := u.ip[ip := [0]], ipLog := u.ipLog + [|s.requests|]);
    longer := Next(longer, WithLast(u, ip, EmailSeen), act, WithLast(t, ip, IpTaken));
  }

  lemma Finishes(events: seq<Event>, s: System, i: nat) returns (longer: seq<Event>, t: System)
    requires Run(ONE_EACH, events) == s && i < |s.requests| && s.requests[i].stage == IpTaken
    requires s.requests[i].email == "m" && (Bucket(s.email, "m") == [] || Bucket(s.email, "m") == [0])
    ensures Run(ONE_EACH, longer) == t && Bucket(t.email, "m") == [0] && t.ipLog == s.ipLog
    ensures |t.requests| == |s.requests| && t.requests == s.requests[i := t.requests[i]]
    ensures t.requests[i].stage.Done? && (t.requests[i].stage.d.allowed <==> Bucket(s.email, "m") == [])
  {
    t := TakeEmail(ONE_EACH, s, i, 0);
    longer := Next(events, s, Act(i, 0), t);
  }

  /** Two requests for one email with one slot left: the slower one is refused and its IP is charged all the same. */
  lemma RefusedYetCharged() returns (events: seq<Event>)
    ensures RefusedWithIp(Run(ONE_EACH, events), 1)
  {
    var s: System;
    events, s := Comes([], START, "p");
    events, s := Comes(events, WithLast(s, "p", IpTaken), "q");
    events, s := Finishes(events, WithLast(s, "q", IpTaken), 0);
    events, s := Finishes(events, s, 1);
    assert s.ipLog == [0, 1];
  }

  // ----- a request alone --------------------------------------------------------------------

  // Four turns of request i with nothing in between.
  function Turns(setup: Setup, s: System, i: nat, t0: int, t1: int, t2: int, t3: int): System {
    Step(setup, Step(setup, Step(setup, Step(setup, s, Act(i, t0)), Act(i, t1)), Act(i, t2)), Act(i, t3))
  }

  function SidesOf(setup: Setup, r: Request): Sides {
    Sides(false, On(setup.ip, r.ip), On(setup.email, r.email), setup.ip, setup.email, r.ip, r.email)
  }

  /** With nothing in between the turns of a request decide and charge as one Check of two limiters does. */
  lemma AloneIsCheck(setup: Setup, s: System, i: nat, t0: int, t1: int, t2: int, t3: int)
    requires i < |s.requests| && s.requests[i].stage.Arrived?
    ensures var c := Checks(SidesOf(setup, s.requests[i]), Stores(s.ip, s.email), t0, t1, t2, t3);
            var s' := Turns(setup, s, i, t0, t1, t2, t3);
            && s'.requests == s.requests[i := s.requests[i].(stage := Done(c.d))]
            && Stores(s'.ip, s'.email) == c.s
  {
    var s1 := Step(setup, s, Act(i, t0));
    var s2 := Step(setup, s1, Act(i, t1));
    var s3 := Step(setup, s2, Act(i, t2));
    LookIpIs(setup, s, i, t0);
    if s1.requests[i].stage.IpSeen? {
      LookEmailIs(setup, s1, i, t1);
      if s2.requests[i].stage.EmailSeen? {
        TakeIpIs(setup, s2, i, t2);
        if s3.requests[i].stage.IpTaken? { TakeEmailIs(setup, s3, i, t3); }
      }
    }
  }

  /** A sweep of one side leaves the other and all requests alone, and changes no window of its own side from then on;
      an arrival only adds a request. */
  lemma OthersLeftAlone(setup: Setup, s: System, now: int, key: string, later: int, email: string, ip: string)
    requires now <= later
    ensures Step(setup, s, SweepEmail(now)) == s.(email := Step(setup, s, SweepEmail(now)).email)
    ensures Step(setup, s, SweepIp(now)) == s.(ip := Step(setup, s, SweepIp(now)).ip)
    ensures InWindow(setup.email, Step(setup, s, SweepEmail(now)).email, key, later) == InWindow(setup.email, s.email, key, later)
    ensures InWindow(setup.ip, Step(setup, s, SweepIp(now)).ip, key, later) == InWindow(setup.ip, s.ip, key, later)
    ensures forall k :: k in s.email && InWindow(setup.email, s.email, k, now) == [] ==> k !in Step(setup, s, SweepEmail(now)).email
    ensures forall k :: k in s.ip && InWindow(setup.ip, s.ip, k, now) == [] ==> k !in Step(setup, s, SweepIp(now)).ip
    ensures Step(setup, s, Arrive(email, ip, now)) == s.(requests := s.requests + [Request(email, ip, Arrived)])
  {
    TrimTwice(Bucket(s.email, key), now - setup.email.window, later - setup.email.window);
    TrimTwice(Bucket(s.ip, key), now - setup.ip.window, later - setup.ip.window);
  }

  lemma LookIpIs(setup: Setup, s: System, i: nat, t: int)
    requires i < |s.requests| && s.requests[i].stage.Arrived?
    ensures var r, s' := s.requests[i], Step(setup, s, Act(i, t));
            && s'.email == s.email && s'.ip == (if On(setup.ip, r.ip) then AfterInspect(setup.ip, s.ip, r.ip, t) else s.ip)
            && s'.requests == s.requests[i := r.(stage := if On(setup.ip, r.ip) && !Admits(setup.ip, s.ip, r.ip, t)
                                                          then Done(Decision(false, ByIp)) else IpSeen)]
  {
  }

  lemma LookEmailIs(setup: Setup, s: System, i: nat, t: int)
    requires i < |s.requests| && s.requests[i].stage.IpSeen?
    ensures var r, s' := s.requests[i], Step(setup, s, Act(i, t));
            && s'.ip == s.ip && s'.email == (if On(setup.email, r.email) then AfterInspect(setup.email, s.email, r.email, t) else s.email)
            && s'.requests == s.requests[i := r.(stage := if On(setup.email, r.email) && !Admits(setup.email, s.email, r.email, t)
                                                          then Done(Decision(false, ByEmail)) else EmailSeen)]
  {
  }

  lemma TakeIpIs(setup: Setup, s: System, i: nat, t: int)
    requires i < |s.requests| && s.requests[i].stage.EmailSeen?
    ensures var r, s' := s.requests[i], Step(setup, s, Act(i, t));
            && s'.email == s.email && s'.ip == (if On(setup.ip, r.ip) then AfterAllow(setup.ip, s.ip, r.ip, t) else s.ip)
            && s'.requests == s.requests[i := r.(stage := if On(setup.ip, r.ip) && !Admits(setup.ip, s.ip, r.ip, t)
                                                          then Done(Decision(false, ByIp)) else IpTaken)]
  {
  }

  lemma TakeEmailIs(setup: Setup, s: System, i: nat, t: int)
    requires i < |s.requests| && s.requests[i].stage.IpTaken?
    ensures var r, s' := s.requests[i], Step(setup, s, Act(i, t));
            && s'.ip == s.ip && s'.email == (if On(setup.email, r.email) then AfterAllow(setup.email, s.email, r.email, t) else s.email)
            && s'.requests == s.requests[i := r.(stage := if On(setup.email, r.email) && !Admits(setup.email, s.email, r.email, t)
                                                          then Done(Decision(false, ByEmail)) else Done(Decision(true, Neither)))]
  {
  }
}
