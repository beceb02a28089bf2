/** The sliding-window limiter: timestamps per key, trimmed from the front and appended at the back. */
module RateLimit {
  type Buckets = map<string, seq<int>>

  datatype Config = Config(limit: int, window: int)

  // ----- one bucket -----------------------------------------------------------------------

  // What is left of a bucket once the timestamps before cutoff are dropped from its front.
  function Trim(bucket: seq<int>, cutoff: int): seq<int> {
    if bucket != [] && bucket[0] < cutoff then Trim(bucket[1..], cutoff) else bucket
  }

  /** The scan for the first timestamp to keep. */
  method Keep(bucket: seq<int>, cutoff: int) returns (keep: nat)
    ensures keep <= |bucket| && bucket[keep..] == Trim(bucket, cutoff)
  {
    keep := 0;
    while keep < |bucket| && bucket[keep] < cutoff
      invariant keep <= |bucket| && Trim(bucket[keep..], cutoff) == Trim(bucket, cutoff)
    {
      assert bucket[keep..][1..] == bucket[keep + 1..];
      keep := keep + 1;
    }
  }

  // Trimming drops a front part that is before the cutoff and stops at the first timestamp that is not.
  lemma {:induction false} TrimShape(bucket: seq<int>, cutoff: int) returns (j: nat)
    ensures j <= |bucket| && Trim(bucket, cutoff) == bucket[j..]
    ensures forall i :: 0 <= i < j ==> bucket[i] < cutoff
    ensures j < |bucket| ==> bucket[j] >= cutoff
  {
    if bucket != [] && bucket[0] < cutoff {
      var k := TrimShape(bucket[1..], cutoff);
      j := k + 1;
      assert bucket[1..][k..] == bucket[j..];
      forall i | 0 <= i < j ensures bucket[i] < cutoff { if i > 0 { assert bucket[1..][i - 1] < cutoff; } }
    } else {
      j := 0;
    }
  }

  lemma {:induction false} TrimTwice(bucket: seq<int>, early: int, late: int)
    requires early <= late
    ensures Trim(Trim(bucket, early), late) == Trim(bucket, late)
    ensures |Trim(bucket, late)| <= |Trim(bucket, early)| <= |bucket|
    decreases |bucket|
  {
    if bucket != [] {
      TrimTwice(bucket[1..], early, late);
    }
  }

  // ----- all buckets ----------------------------------------------------------------------

  function Bucket(m: Buckets, key: string): seq<int> {
    if key in m then m[key] else []
  }

  function InWindow(c: Config, m: Buckets, key: string, now: int): seq<int> {
    Trim(Bucket(m, key), now - c.window)
  }

  predicate Admits(c: Config, m: Buckets, key: string, now: int) {
    c.limit <= 0 || |InWindow(c, m, key, now)| < c.limit
  }

  function AfterAllow(c: Config, m: Buckets, key: string, now: int): Buckets {
    if c.limit <= 0 then m
    else if Admits(c, m, key, now) then m[key := InWindow(c, m, key, now) + [now]]
    else m[key := InWindow(c, m, key, now)]
  }

  function AfterInspect(c: Config, m: Buckets, key: string, now: int): Buckets {
    m[key := InWindow(c, m, key, now)]
  }

  function AfterSweep(c: Config, m: Buckets, now: int): Buckets {
    map k | k in m && Trim(m[k], now - c.window) != [] :: Trim(m[k], now - c.window)
  }

  const HOUR := 3_600_000_000_000

  datatype Option<T> = None | Some(value: T)

  class Limiter {
    const c: Config
    var buckets: Buckets

    constructor (limit: int, window: int)
      ensures c == Config(limit, if window <= 0 then HOUR else window) && buckets == map[]
    {
      c := Config(limit, if window <= 0 then HOUR else window);
      buckets := map[];
    }

    method Allow(key: string, now: int) returns (ok: bool)
      modifies this
      ensures ok == Admits(c, old(buckets), key, now)
      ensures buckets == AfterAllow(c, old(buckets), key, now)
    {
      if c.limit <= 0 { return true; }
      var cutoff := now - c.window;
      var bucket := if key in buckets then buckets[key] else [];
      var keep := Keep(bucket, cutoff);
      if keep > 0 {
        bucket := bucket[keep..];
      }
      if |bucket| >= c.limit {
        buckets := buckets[key := bucket];
        return false;
      }
      bucket := bucket + [now];
      buckets := buckets[key := bucket];
      return true;
    }

    method Inspect(key: string, now: int) returns (count: nat, remaining: nat, resetAt: Option<int>)
      modifies this
      ensures buckets == AfterInspect(c, old(buckets), key, now)
      ensures count == |InWindow(c, old(buckets), key, now)|
      ensures c.limit > 0 ==> (remaining == 0 <==> !Admits(c, old(buckets), key, now))
      ensures remaining == if c.limit > count then c.limit - count else 0
      ensures resetAt == if count > 0 then Some(InWindow(c, old(buckets), key, now)[0] + c.window) else None
    {
      var bucket := if key in buckets then buckets[key] else [];
      var keep := Keep(bucket, now - c.window);
      bucket := bucket[keep..];
      buckets := buckets[key := bucket];
      count := |bucket|;
      var left := c.limit - count;
      remaining := if left < 0 then 0 else left;
      resetAt := if count > 0 then Some(bucket[0] + c.window) else None;
    }

    method Sweep(now: int) returns (dropped: nat)
      modifies this
      ensures buckets == AfterSweep(c, old(buckets), now)
      ensures dropped == |old(buckets)| - |buckets|
    {
      var todo := buckets.Keys;
      dropped := 0;
      ghost var was := buckets;
      while todo != {}
        invariant todo <= was.Keys && Midway(c, was, now, todo, buckets) && dropped == |was| - |buckets|
        decreases todo
      {
        var k :| k in todo;
        assert VisitedOk(c, was, now, todo, buckets, k);
        var bucket := buckets[k];
        var keep := Keep(bucket, now - c.window);
        bucket := bucket[keep..];
        MidwayOn(c, was, now, todo, k, buckets, bucket);
        if bucket == [] {
          buckets := buckets - {k};
          dropped := dropped + 1;
        } else {
          buckets := buckets[k := bucket];
        }
        todo := todo - {k};
      }
      MidwayEnds(c, was, now, buckets);
    }
  }

  // Midway through a sweep a key in todo is still to be visited, and any other has been.
  ghost predicate VisitedOk(c: Config, was: Buckets, now: int, todo: set<string>, buckets: Buckets, k: string)
    requires k in was
  {
    if k in todo then k in buckets && buckets[k] == was[k]
    else if k in buckets then buckets[k] == Trim(was[k], now - c.window) != []
    else Trim(was[k], now - c.window) == []
  }

  ghost predicate Midway(c: Config, was: Buckets, now: int, todo: set<string>, buckets: Buckets) {
    buckets.Keys <= was.Keys && forall k :: k in was ==> VisitedOk(c, was, now, todo, buckets, k)
  }

  lemma MidwayOn(c: Config, was: Buckets, now: int, todo: set<string>, k: string, buckets: Buckets, bucket: seq<int>)
    requires Midway(c, was, now, todo, buckets) && k in todo && k in was && bucket == Trim(was[k], now - c.window)
    ensures bucket == [] ==> Midway(c, was, now, todo - {k}, buckets - {k}) && |buckets - {k}| == |buckets| - 1
    ensures bucket != [] ==> Midway(c, was, now, todo - {k}, buckets[k := bucket]) && |buckets[k := bucket]| == |buckets|
  {
    assert VisitedOk(c, was, now, todo, buckets, k);
    var after := if bucket == [] then buckets - {k} else buckets[k := bucket];
    forall x | x in was ensures VisitedOk(c, was, now, todo - {k}, after, x) { assert VisitedOk(c, was, now, todo, buckets, x); }
    assert (buckets - {k}).Keys == buckets.Keys - {k};
    assert buckets[k := bucket].Keys == buckets.Keys;
  }

  lemma MidwayEnds(c: Config, was: Buckets, now: int, buckets: Buckets)
    requires Midway(c, was, now, {}, buckets)
    ensures buckets == AfterSweep(c, was, now)
  {
    forall k | k in was ensures k in buckets <==> k in AfterSweep(c, was, now) { assert VisitedOk(c, was, now, {}, buckets, k); }
    forall k | k in buckets ensures buckets[k] == AfterSweep(c, was, now)[k] { assert VisitedOk(c, was, now, {}, buckets, k); }
  }

  /** A limit that is not positive is none: every event is allowed and nothing is recorded. */
  lemma NoLimit(c: Config, m: Buckets, key: string, now: int)
    requires c.limit <= 0
    ensures Admits(c, m, key, now) && AfterAllow(c, m, key, now) == m
  {
  }

  /** At the cap, the next slot opens strictly after the reported reset time, and not before. */
  lemma ResetTimeIsExact(c: Config, m: Buckets, key: string, now: int, later: int)
    requires c.limit > 0 && now <= later && |InWindow(c, m, key, now)| == c.limit
    ensures Admits(c, AfterInspect(c, m, key, now), key, later) <==> later > InWindow(c, m, key, now)[0] + c.window
  {
    var bucket := InWindow(c, m, key, now);
    if bucket[0] < later - c.window { TrimTwice(bucket[1..], later - c.window, later - c.window); }
  }

  // ----- every run ------------------------------------------------------------------------

  datatype Op = Allow(key: string, now: int) | Inspect(key: string, now: int) | Sweep(now: int)

  function After(c: Config, m: Buckets, op: Op): Buckets {
    match op
    case Allow(key, now) => AfterAllow(c, m, key, now)
    case Inspect(key, now) => AfterInspect(c, m, key, now)
    case Sweep(now) => AfterSweep(c, m, now)
  }

  function Run(c: Config, ops: seq<Op>): Buckets {
    if ops == [] then map[] else After(c, Run(c, ops[..|ops| - 1]), ops[|ops| - 1])
  }

  // How many of the recorded events are not before cutoff.
  function Recent(log: seq<int>, cutoff: int): nat {
    if log == [] then 0
    else Recent(log[..|log| - 1], cutoff) + if log[|log| - 1] >= cutoff then 1 else 0
  }

  // The reference limiter: it forgets nothing, and admits an event when fewer than limit are recent.
  function LogStep(c: Config, log: seq<int>, op: Op, key: string): seq<int> {
    if op.Allow? && op.key == key && Recent(log, op.now - c.window) < c.limit then log + [op.now] else log
  }

  function Log(c: Config, ops: seq<Op>, key: string): seq<int> {
    if ops == [] then [] else LogStep(c, Log(c, ops[..|ops| - 1], key), ops[|ops| - 1], key)
  }

  ghost predicate Ordered(times: seq<int>) {
    forall i, j :: 0 <= i < j < |times| ==> times[i] <= times[j]
  }

  ghost predicate ClockOrdered(ops: seq<Op>) {
    forall i, j :: 0 <= i < j < |ops| ==> ops[i].now <= ops[j].now
  }

  // The bucket is the end of the log, and what it lacks is out of the window.
  ghost predicate Represents(c: Config, bucket: seq<int>, log: seq<int>, now: int) {
    && Ordered(log) && (forall i :: 0 <= i < |log| ==> log[i] <= now)
    && |bucket| <= |log| && bucket == log[|log| - |bucket|..]
    && forall i :: 0 <= i < |log| - |bucket| ==> log[i] < now - c.window
  }

  lemma {:induction false} RecentSplit(log: seq<int>, cutoff: int, j: nat)
    requires j <= |log| && (forall i :: 0 <= i < j ==> log[i] < cutoff) && (forall i :: j <= i < |log| ==> log[i] >= cutoff)
    ensures Recent(log, cutoff) == |log| - j
  {
    if log != [] {
      RecentSplit(log[..|log| - 1], cutoff, if j == |log| then j - 1 else j);
    }
  }

  lemma SuffixAt(log: seq<int>, lead: nat, bucket: seq<int>, i: nat)
    requires lead <= |log| && bucket == log[lead..] && i < |log|
    ensures i >= lead ==> log[i] == bucket[i - lead]
  {
  }

  // Trimming a representing bucket keeps it representing, and leaves just the recent events.
  lemma TrimRepresents(c: Config, bucket: seq<int>, log: seq<int>, before: int, now: int)
    requires Represents(c, bucket, log, before) && before <= now
    ensures Represents(c, Trim(bucket, now - c.window), log, now)
    ensures Recent(log, now - c.window) == |Trim(bucket, now - c.window)|
  {
    var cutoff, lead := now - c.window, |log| - |bucket|;
    var j := TrimShape(bucket, cutoff);
    forall i | 0 <= i < lead + j ensures log[i] < cutoff { SuffixAt(log, lead, bucket, i); }
    forall i | lead + j <= i < |log| ensures log[i] >= cutoff { SuffixAt(log, lead, bucket, lead + j); }
    RecentSplit(log, cutoff, lead + j);
    assert bucket[j..] == log[lead + j..];
  }

  lemma AppendRepresents(c: Config, bucket: seq<int>, log: seq<int>, now: int)
    requires Represents(c, bucket, log, now)
    ensures Represents(c, bucket + [now], log + [now], now)
  {
    var lead := |log| - |bucket|;
    assert (log + [now])[lead..] == log[lead..] + [now];
  }

  lemma SweptBucket(c: Config, m: Buckets, now: int, key: string)
    ensures Bucket(AfterSweep(c, m, now), key) == InWindow(c, m, key, now)
  {
  }

  lemma AllowRepresents(c: Config, m: Buckets, log: seq<int>, op: Op, key: string)
    requires c.limit > 0 && op.Allow? && op.key == key
    requires Represents(c, InWindow(c, m, key, op.now), log, op.now)
    requires Recent(log, op.now - c.window) == |InWindow(c, m, key, op.now)|
    ensures Represents(c, Bucket(AfterAllow(c, m, key, op.now), key), LogStep(c, log, op, key), op.now)
  {
    AllowedBucket(c, m, key, op.now);
    if Admits(c, m, key, op.now) { AppendRepresents(c, InWindow(c, m, key, op.now), log, op.now); }
  }

  lemma AllowedBucket(c: Config, m: Buckets, key: string, now: int)
    requires c.limit > 0
    ensures Bucket(AfterAllow(c, m, key, now), key)
         == InWindow(c, m, key, now) + if Admits(c, m, key, now) then [now] else []
  {
  }

  lemma OtherRepresents(c: Config, m: Buckets, log: seq<int>, op: Op, key: string, before: int)
    requires before <= op.now && Represents(c, Bucket(m, key), log, before) && !op.Sweep? && op.key != key
    ensures Represents(c, Bucket(After(c, m, op), key), LogStep(c, log, op, key), op.now)
  {
    StillRepresents(c, Bucket(m, key), log, before, op.now);
  }

  lemma OpRepresents(c: Config, m: Buckets, log: seq<int>, op: Op, key: string, before: int)
    requires c.limit > 0 && before <= op.now && Represents(c, Bucket(m, key), log, before)
    ensures Represents(c, Bucket(After(c, m, op), key), LogStep(c, log, op, key), op.now)
  {
    TrimRepresents(c, Bucket(m, key), log, before, op.now);
    if op.Sweep? {
      SweptBucket(c, m, op.now, key);
    } else if op.key != key {
      OtherRepresents(c, m, log, op, key, before);
    } else if op.Allow? {
      AllowRepresents(c, m, log, op, key);
    }
  }

  lemma StillRepresents(c: Config, bucket: seq<int>, log: seq<int>, before: int, now: int)
    requires Represents(c, bucket, log, before) && before <= now
    ensures Represents(c, bucket, log, now)
  {
  }

  lemma {:induction false} RunRepresents(c: Config, ops: seq<Op>, key: string, now: int)
    requires c.limit > 0 && ClockOrdered(ops) && (ops != [] ==> ops[|ops| - 1].now <= now)
    ensures Represents(c, Bucket(Run(c, ops), key), Log(c, ops, key), now)
  {
    if ops != [] {
      var op, front := ops[|ops| - 1], ops[..|ops| - 1];
      RunRepresents(c, front, key, op.now);
      OpRepresents(c, Run(c, front), Log(c, front, key), op, key, op.now);
      StillRepresents(c, Bucket(Run(c, ops), key), Log(c, ops, key), op.now, now);
    }
  }

  lemma AnswerOf(c: Config, m: Buckets, log: seq<int>, key: string, now: int)
    requires c.limit > 0 && Represents(c, Bucket(m, key), log, now)
    ensures Admits(c, m, key, now) <==> Recent(log, now - c.window) < c.limit
  {
    TrimRepresents(c, Bucket(m, key), log, now, now);
  }

  /** On every run with an ordered clock the trimming limiter answers as the one that forgets nothing. */
  lemma AnswersAsReference(c: Config, ops: seq<Op>, key: string, now: int)
    requires c.limit > 0 && ClockOrdered(ops) && (ops != [] ==> ops[|ops| - 1].now <= now)
    ensures Admits(c, Run(c, ops), key, now) <==> Recent(Log(c, ops, key), now - c.window) < c.limit
  {
    RunRepresents(c, ops, key, now);
    AnswerOf(c, Run(c, ops), Log(c, ops, key), key, now);
  }

  // With fewer than limit recent events, the event limit places back is out of the window.
  lemma FewRecent(c: Config, log: seq<int>, now: int)
    requires c.limit > 0 && Ordered(log) && Recent(log, now - c.window) < c.limit <= |log|
    ensures now - log[|log| - c.limit] > c.window
  {
    var j := FirstRecent(log, now - c.window);
    RecentSplit(log, now - c.window, j);
  }

  lemma FirstRecent(log: seq<int>, cutoff: int) returns (j: nat)
    requires Ordered(log)
    ensures j <= |log| && (forall i :: 0 <= i < j ==> log[i] < cutoff) && (forall i :: j <= i < |log| ==> log[i] >= cutoff)
  {
    j := TrimShape(log, cutoff);
  }

  /** Two allowed events of a key that are limit places apart are more than the window apart. */
  lemma {:induction false} AllowedAreSpaced(c: Config, ops: seq<Op>, key: string, i: nat)
    requires c.limit > 0 && ClockOrdered(ops) && i + c.limit < |Log(c, ops, key)|
    ensures Log(c, ops, key)[i + c.limit] - Log(c, ops, key)[i] > c.window
  {
    var op, front := ops[|ops| - 1], ops[..|ops| - 1];
    if i + c.limit < |Log(c, front, key)| { AllowedAreSpaced(c, front, key, i); }
    RunRepresents(c, front, key, op.now);
    SpacedNext(c, Log(c, front, key), op, key, i);
  }

  lemma SpacedNext(c: Config, log: seq<int>, op: Op, key: string, i: nat)
    requires c.limit > 0 && Ordered(log) && i + c.limit < |LogStep(c, log, op, key)|
    requires i + c.limit < |log| ==> log[i + c.limit] - log[i] > c.window
    ensures LogStep(c, log, op, key)[i + c.limit] - LogStep(c, log, op, key)[i] > c.window
  {
    if i + c.limit >= |log| { FewRecent(c, log, op.now); }
  }

  // The calls of Allow for one key.
  function Own(ops: seq<Op>, key: string): seq<Op> {
    if ops == [] then []
    else
      var own, op := Own(ops[..|ops| - 1], key), ops[|ops| - 1];
      if op.Allow? && op.key == key then own + [op] else own
  }

  lemma {:induction false} LogOfOwn(c: Config, ops: seq<Op>, key: string)
    ensures Log(c, Own(ops, key), key) == Log(c, ops, key)
  {
    if ops != [] {
      LogOfOwn(c, ops[..|ops| - 1], key);
      var own, op := Own(ops[..|ops| - 1], key), ops[|ops| - 1];
      assert (own + [op])[..|own|] == own;
    }
  }

  /** Calls of Inspect, of Sweep and for other keys change no later answer, wherever they come. */
  lemma OnlyOwnAllowsMatter(c: Config, ops: seq<Op>, others: seq<Op>, key: string, now: int)
    requires c.limit > 0 && ClockOrdered(ops) && ClockOrdered(others) && Own(ops, key) == Own(others, key)
    requires (ops != [] ==> ops[|ops| - 1].now <= now) && (others != [] ==> others[|others| - 1].now <= now)
    ensures Admits(c, Run(c, ops), key, now) <==> Admits(c, Run(c, others), key, now)
  {
    AnswersAsReference(c, ops, key, now);
    AnswersAsReference(c, others, key, now);
    LogOfOwn(c, ops, key);
    LogOfOwn(c, others, key);
  }
}
