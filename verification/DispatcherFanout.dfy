/** The whole dispatcher: intake lanes, the router that takes from them, and the sinks with their filters, which come
    and go as the router refreshes its list before it hands an event on. */
module DispatcherFanout {
  import opened Dispatcher

  // RScan is the router receiving, so many lanes polled; Refresh is it bringing its sinks up to date with an event in
  // hand; Route is it handing the event to the sinks in turn.
  datatype Router = RScan(polled: nat) | Refresh(ev: Event, lane: nat) | Route(ev: Event, lane: nat, next: nat)

  type Filter = string -> bool

  // since and until are history: how many events of each lane had been routed when the sink came and when it went.
  datatype Sink = Sink(filter: Filter, worker: Worker, since: seq<nat>, until: Option<seq<nat>>)

  // delivered, failed and drops, one for each lane, are the counters all goroutines share; unnoted counts the drops
  // that a Push or the router is about to add to drops; builds is history, the sinks that could not be built.
  datatype System = System(
    bufSize: nat, intake: seq<Lane>, router: Router, sinks: seq<Sink>,
    delivered: int, failed: int, drops: seq<nat>, unnoted: seq<nat>, builds: nat)

  datatype Move =
    | Push(ev: Event)
    | PollIntake
    | WakeRouter(lane: nat)
    | AddSink(filter: Filter)
    | FailBuild
    | Retire(sink: nat)
    | StartRouting
    | RouteOn
    | Work(sink: nat, action: Action)
    | NoteDrop(lane: nat)

  function Initial(bufSize: nat): System {
    System(bufSize, Fresh(bufSize).lanes, RScan(0), [], 0, 0, [0, 0, 0], [0, 0, 0], 0)
  }

  // ----- moves ----------------------------------------------------------------------------

  ghost predicate Shaped(s: System) {
    && |s.intake| == LANES && (forall j :: 0 <= j < |s.sinks| ==> |s.sinks[j].worker.lanes| == LANES)
    && (!s.router.RScan? ==> s.router.lane < LANES) && (s.router.Route? ==> s.router.next <= |s.sinks|)
  }

  function PushStep(s: System, ev: Event): System
    requires |s.intake| == LANES
  {
    var l := LaneIndex(ev.eventType);
    var full := |s.intake[l].queue| >= s.intake[l].cap;
    s.(intake := s.intake[l := Offered(s.intake[l], ev)], unnoted := if full then OneMore(s.unnoted, l) else s.unnoted)
  }

  function OneMore(counts: seq<nat>, l: nat): seq<nat> {
    if l < |counts| then counts[l := counts[l] + 1] else counts
  }

  // noteDrop's addition. The router may get ahead of its own one here, which only adds runs.
  function NoteDropStep(s: System, l: nat): System {
    if l < |s.unnoted| && s.unnoted[l] > 0
    then s.(unnoted := s.unnoted[l := s.unnoted[l] - 1], drops := OneMore(s.drops, l)) else s
  }

  function TakeIntake(s: System, l: nat): System
    requires l < |s.intake| && s.intake[l].queue != []
  {
    var lane := s.intake[l];
    s.(intake := s.intake[l := lane.(queue := lane.queue[1..])], router := Refresh(lane.queue[0], l))
  }

  function PollIntakeStep(s: System): System
    requires |s.intake| == LANES
  {
    if s.router.RScan? && s.router.polled < LANES then
      if s.intake[s.router.polled].queue != [] then TakeIntake(s, s.router.polled)
      else s.(router := RScan(s.router.polled + 1))
    else s
  }

  function WakeRouterStep(s: System, l: nat): System
    requires |s.intake| == LANES
  {
    if s.router.RScan? && s.router.polled == LANES && l < LANES && s.intake[l].queue != [] then TakeIntake(s, l) else s
  }

  // How many events of each lane have been routed.
  function Routed(s: System): seq<nat> {
    seq(|s.intake|, l requires 0 <= l < |s.intake| => |s.intake[l].handled|)
  }

  function AddStep(s: System, filter: Filter): System {
    if s.router.Refresh? then s.(sinks := s.sinks + [Sink(filter, Fresh(s.bufSize), Routed(s), None)]) else s
  }

  function FailBuildStep(s: System): System {
    if s.router.Refresh? then s.(failed := s.failed + 1, builds := s.builds + 1) else s
  }

  function RetireStep(s: System, j: nat): System {
    if s.router.Refresh? && j < |s.sinks| && s.sinks[j].until.None?
    then s.(sinks := s.sinks[j := s.sinks[j].(until := Some(Routed(s)))]) else s
  }

  function StartRoutingStep(s: System): System {
    if s.router.Refresh? then s.(router := Route(s.router.ev, s.router.lane, 0)) else s
  }

  function PutWorker(s: System, j: nat, w: Worker): System
    requires j < |s.sinks|
  {
    s.(sinks := s.sinks[j := s.sinks[j].(worker := w)])
  }

  // The router at sink j = s.router.next; retired sinks are not on its list.
  function HandTo(s: System, j: nat): System
    requires s.router.Route? && s.router.lane < LANES && j < |s.sinks| && |s.sinks[j].worker.lanes| == LANES
  {
    var Route(ev, l, _) := s.router;
    var w := s.sinks[j].worker;
    if s.sinks[j].until.Some? || !s.sinks[j].filter(ev.eventType) then s.(router := Route(ev, l, j + 1))
    else if w.dropping.Some? then
      PutWorker(s, j, CountDropStep(w)).(router := Route(ev, l, j + 1), unnoted := OneMore(s.unnoted, w.dropping.value))
    else
      var v := OfferTo(w, ev, l);
      PutWorker(s, j, v).(router := Route(ev, l, if v.dropping.Some? then j else j + 1))
  }

  function RouteOnStep(s: System): System
    requires Shaped(s)
  {
    if !s.router.Route? then s
    else if s.router.next < |s.sinks| then HandTo(s, s.router.next)
    else
      var l := s.router.lane;
      s.(intake := s.intake[l := s.intake[l].(handled := s.intake[l].handled + [s.router.ev])], router := RScan(0))
  }

  function WorkStep(s: System, j: nat, a: Action): System
    requires j < |s.sinks| ==> |s.sinks[j].worker.lanes| == LANES
  {
    if j < |s.sinks| && !a.Offer? && !a.CountDrop? then
      var w := s.sinks[j].worker;
      var v := Step(w, a);
      PutWorker(s, j, v).(delivered := s.delivered + v.delivered - w.delivered, failed := s.failed + v.failed - w.failed)
    else s
  }

  function Next(s: System, m: Move): System
    requires Shaped(s)
  {
    match m
    case Push(ev) => PushStep(s, ev)
    case PollIntake => PollIntakeStep(s)
    case WakeRouter(l) => WakeRouterStep(s, l)
    case AddSink(filter) => AddStep(s, filter)
    case FailBuild => FailBuildStep(s)
    case Retire(j) => RetireStep(s, j)
    case StartRouting => StartRoutingStep(s)
    case RouteOn => RouteOnStep(s)
    case Work(j, a) => WorkStep(s, j, a)
    case NoteDrop(l) => NoteDropStep(s, l)
  }

  // ----- what every interleaving keeps ----------------------------------------------------

  // The events a filter lets through.
  function Wanted(filter: Filter, events: seq<Event>): seq<Event> {
    if events == [] then []
    else
      var last := events[|events| - 1];
      Wanted(filter, events[..|events| - 1]) + if filter(last.eventType) then [last] else []
  }

  lemma WantedOne(filter: Filter, events: seq<Event>, ev: Event)
    ensures Wanted(filter, events + [ev]) == Wanted(filter, events) + if filter(ev.eventType) then [ev] else []
  {
    assert (events + [ev])[..|events|] == events;
  }

  lemma WantedSplitOne(filter: Filter, a: seq<Event>, b: seq<Event>, ev: Event)
    requires Wanted(filter, a + b) == Wanted(filter, a) + Wanted(filter, b)
    ensures Wanted(filter, a + (b + [ev])) == Wanted(filter, a) + Wanted(filter, b + [ev])
  {
    WantedOne(filter, a + b, ev);
    WantedOne(filter, b, ev);
    Regroup(a, b, [ev]);
    Regroup(Wanted(filter, a), Wanted(filter, b), if filter(ev.eventType) then [ev] else []);
  }

  lemma Regroup(a: seq<Event>, b: seq<Event>, c: seq<Event>)
    ensures a + (b + c) == (a + b) + c
  {
  }

  lemma {:induction false} WantedSplit(filter: Filter, a: seq<Event>, b: seq<Event>)
    ensures Wanted(filter, a + b) == Wanted(filter, a) + Wanted(filter, b)
    decreases |b|
  {
    if b == [] {
      assert a + b == a;
    } else {
      var n := |b| - 1;
      WantedSplit(filter, a, b[..n]);
      WantedSplitOne(filter, a, b[..n], b[n]);
      assert b == b[..n] + [b[n]];
    }
  }

  function RouterHand(s: System, l: nat): seq<Event> {
    if !s.router.RScan? && s.router.lane == l then [s.router.ev] else []
  }

  // The event in the router's hand, once sink j has been offered it or passed over.
  function PassedOn(s: System, j: nat, l: nat): seq<Event>
    requires j < |s.sinks|
  {
    if s.router.Route? && s.router.lane == l && (s.router.next > j || (s.router.next == j && s.sinks[j].worker.dropping.Some?))
    then [s.router.ev] else []
  }

  ghost predicate IntakeOk(lane: Lane, inHand: seq<Event>) {
    && lane.accepted == lane.handled + inHand + lane.queue && |lane.queue| <= lane.cap
    && Merges(lane.offered, lane.accepted, lane.dropped)
  }

  // since and until are within what has been routed.
  ghost predicate SpanOk(k: Sink, l: nat, routed: nat) {
    && l < |k.since| && k.since[l] <= routed
    && (k.until.Some? ==> l < |k.until.value| && k.since[l] <= k.until.value[l] <= routed)
  }

  // The events of lane l that came by while the sink was on the list.
  ghost function CameBy(k: Sink, l: nat, handled: seq<Event>, passedOn: seq<Event>): seq<Event>
    requires SpanOk(k, l, |handled|)
  {
    if k.until.Some? then handled[k.since[l]..k.until.value[l]] else handled[k.since[l]..] + passedOn
  }

  ghost predicate LinkOk(s: System, j: nat, l: nat)
    requires j < |s.sinks| && l < |s.intake| && |s.sinks[j].worker.lanes| == |s.intake|
  {
    var k := s.sinks[j];
    && SpanOk(k, l, |s.intake[l].handled|)
    && k.worker.lanes[l].offered == Wanted(k.filter, CameBy(k, l, s.intake[l].handled, PassedOn(s, j, l)))
  }

  ghost predicate DropOk(s: System, j: nat)
    requires j < |s.sinks|
  {
    s.sinks[j].worker.dropping.Some? ==>
      s.router.Route? && s.router.next == j && s.sinks[j].filter(s.router.ev.eventType) && s.sinks[j].until.None?
  }

  ghost predicate SinkOk(s: System, j: nat)
    requires j < |s.sinks| && |s.intake| == LANES
  {
    Dispatcher.Inv(s.sinks[j].worker) && (forall l :: 0 <= l < LANES ==> LinkOk(s, j, l)) && DropOk(s, j)
  }

  ghost predicate IntakesOk(s: System)
    requires |s.intake| == LANES
  {
    forall l :: 0 <= l < LANES ==> IntakeOk(s.intake[l], RouterHand(s, l))
  }

  ghost predicate AllOk(s: System) {
    Shaped(s) && IntakesOk(s) && forall j :: 0 <= j < |s.sinks| ==> SinkOk(s, j)
  }

  // A move that leaves a sink, what was routed and what was passed on to it alone.
  lemma SinkKept(s: System, t: System, j: nat)
    requires j < |s.sinks| && j < |t.sinks| && |s.intake| == |t.intake| == LANES && SinkOk(s, j) && t.sinks[j] == s.sinks[j]
    requires forall l :: 0 <= l < LANES ==> t.intake[l].handled == s.intake[l].handled && PassedOn(t, j, l) == PassedOn(s, j, l)
    requires DropOk(t, j)
    ensures SinkOk(t, j)
  {
    forall l | 0 <= l < LANES ensures LinkOk(t, j, l) { assert LinkOk(s, j, l); }
  }

  lemma PushKeeps(s: System, ev: Event)
    requires AllOk(s)
    ensures AllOk(PushStep(s, ev))
  {
    var t, k := PushStep(s, ev), LaneIndex(ev.eventType);
    PushIntake(s.intake[k], RouterHand(s, k), ev);
    forall l | 0 <= l < LANES ensures IntakeOk(t.intake[l], RouterHand(t, l)) { assert IntakeOk(s.intake[l], RouterHand(s, l)); }
    forall j | 0 <= j < |t.sinks| ensures SinkOk(t, j) { assert SinkOk(s, j); SinkKept(s, t, j); }
  }

  lemma PushIntake(lane: Lane, inHand: seq<Event>, ev: Event)
    requires IntakeOk(lane, inHand)
    ensures IntakeOk(Offered(lane, ev), inHand)
  {
    MergesMore(lane.offered, lane.accepted, lane.dropped, ev);
    assert lane.handled + inHand + (lane.queue + [ev]) == lane.accepted + [ev];
  }

  lemma TakeKeeps(s: System, k: nat)
    requires AllOk(s) && s.router.RScan? && k < LANES && s.intake[k].queue != []
    ensures AllOk(TakeIntake(s, k))
  {
    var t := TakeIntake(s, k);
    forall l | 0 <= l < LANES ensures IntakeOk(t.intake[l], RouterHand(t, l)) { assert IntakeOk(s.intake[l], RouterHand(s, l)); }
    forall j | 0 <= j < |t.sinks| ensures SinkOk(t, j) { assert SinkOk(s, j); SinkKept(s, t, j); }
  }

  // The router goes on without handing anything to anyone.
  lemma RouterKeeps(s: System, r: Router)
    requires AllOk(s) && !s.router.Route?
    requires if s.router.RScan? then r.RScan? else r == Route(s.router.ev, s.router.lane, 0)
    ensures AllOk(s.(router := r))
  {
    var t := s.(router := r);
    forall l | 0 <= l < LANES ensures IntakeOk(t.intake[l], RouterHand(t, l)) { assert IntakeOk(s.intake[l], RouterHand(s, l)); }
    forall j | 0 <= j < |t.sinks| ensures SinkOk(t, j) { assert SinkOk(s, j); SinkKept(s, t, j); }
  }

  // ----- sinks come and go ------------------------------------------------------------------

  lemma AddedSink(s: System, filter: Filter)
    requires AllOk(s) && s.router.Refresh?
    ensures SinkOk(AddStep(s, filter), |s.sinks|)
  {
    var t, j := AddStep(s, filter), |s.sinks|;
    RunKeepsInv(s.bufSize, []);
    forall l | 0 <= l < LANES ensures LinkOk(t, j, l) {
      assert t.intake[l].handled[|s.intake[l].handled|..] + PassedOn(t, j, l) == [];
    }
  }

  lemma OldSink(s: System, filter: Filter, j: nat)
    requires AllOk(s) && s.router.Refresh? && j < |s.sinks|
    ensures SinkOk(AddStep(s, filter), j)
  {
    assert SinkOk(s, j);
    SinkKept(s, AddStep(s, filter), j);
  }

  lemma AddKeeps(s: System, filter: Filter)
    requires AllOk(s)
    ensures AllOk(AddStep(s, filter))
  {
    if s.router.Refresh? {
      var t := AddStep(s, filter);
      AddedSink(s, filter);
      forall j | 0 <= j < |t.sinks| ensures SinkOk(t, j) { if j < |s.sinks| { OldSink(s, filter, j); } }
      forall l | 0 <= l < LANES ensures IntakeOk(t.intake[l], RouterHand(t, l)) { assert IntakeOk(s.intake[l], RouterHand(s, l)); }
    }
  }

  lemma RetiredSink(s: System, j: nat)
    requires AllOk(s) && s.router.Refresh? && j < |s.sinks| && s.sinks[j].until.None?
    ensures SinkOk(RetireStep(s, j), j)
  {
    var t := RetireStep(s, j);
    assert SinkOk(s, j);
    forall l | 0 <= l < LANES ensures LinkOk(t, j, l) {
      assert LinkOk(s, j, l);
      var handled, from := s.intake[l].handled, s.sinks[j].since[l];
      assert handled[from..] + [] == handled[from..|handled|];
    }
  }

  lemma RetireKeeps(s: System, k: nat)
    requires AllOk(s)
    ensures AllOk(RetireStep(s, k))
  {
    var t := RetireStep(s, k);
    if t != s {
      RetiredSink(s, k);
      forall l | 0 <= l < LANES ensures IntakeOk(t.intake[l], RouterHand(t, l)) { assert IntakeOk(s.intake[l], RouterHand(s, l)); }
      forall j | 0 <= j < |t.sinks| ensures SinkOk(t, j) {
        if j != k { assert SinkOk(s, j); SinkKept(s, t, j); }
      }
    }
  }

  // ----- handing on -------------------------------------------------------------------------

  // What handing on does to lane l of the sink at hand.
  lemma HandedLane(s: System, j: nat, l: nat)
    requires j < |s.sinks| && |s.sinks[j].worker.lanes| == LANES && l < LANES && DropOk(s, j)
    requires s.router.Route? && s.router.lane < LANES && s.router.next == j && s.sinks[j].until.None?
    ensures var t, k := HandTo(s, j), s.sinks[j];
            && t.intake == s.intake && |t.sinks| == |s.sinks| && t.sinks[j] == k.(worker := t.sinks[j].worker)
            && |t.sinks[j].worker.lanes| == LANES
            && t.sinks[j].worker.lanes[l].offered == k.worker.lanes[l].offered +
              (if k.filter(s.router.ev.eventType) && k.worker.dropping.None? && s.router.lane == l then [s.router.ev] else [])
            && PassedOn(t, j, l) == RouterHand(s, l)
            && PassedOn(s, j, l) == if k.worker.dropping.Some? then RouterHand(s, l) else []
  {
  }

  lemma HandedLink(s: System, j: nat, l: nat)
    requires j < |s.sinks| && |s.intake| == |s.sinks[j].worker.lanes| == LANES && l < LANES && LinkOk(s, j, l) && DropOk(s, j)
    requires s.router.Route? && s.router.lane < LANES && s.router.next == j && s.sinks[j].until.None?
    ensures LinkOk(HandTo(s, j), j, l)
  {
    HandedLane(s, j, l);
    var k, seen := s.sinks[j], s.intake[l].handled[s.sinks[j].since[l]..];
    LinkedBy(k.filter, seen, s.router.ev, k.worker.lanes[l].offered);
  }

  lemma LinkedBy(filter: Filter, seen: seq<Event>, ev: Event, offered: seq<Event>)
    ensures Wanted(filter, seen + [ev]) == Wanted(filter, seen) + if filter(ev.eventType) then [ev] else []
    ensures seen + [] == seen && offered + [] == offered
  {
    WantedOne(filter, seen, ev);
  }

  lemma HandedInv(s: System, j: nat)
    requires j < |s.sinks| && Dispatcher.Inv(s.sinks[j].worker) && s.router.Route? && s.router.lane < LANES
    ensures Dispatcher.Inv(HandTo(s, j).sinks[j].worker)
  {
    if s.sinks[j].worker.dropping.Some? { CountDropKeepsInv(s.sinks[j].worker); }
    OfferKeepsInv(s.sinks[j].worker, s.router.ev, s.router.lane);
  }

  lemma HandedSink(s: System, j: nat)
    requires j < |s.sinks| && |s.intake| == LANES && SinkOk(s, j)
    requires s.router.Route? && s.router.lane < LANES && s.router.next == j
    ensures SinkOk(HandTo(s, j), j)
  {
    var t := HandTo(s, j);
    HandedInv(s, j);
    forall l | 0 <= l < LANES ensures LinkOk(t, j, l) {
      assert LinkOk(s, j, l);
      if s.sinks[j].until.None? { HandedLink(s, j, l); }
    }
  }

  lemma HandKeeps(s: System, j: nat)
    requires AllOk(s) && s.router.Route? && s.router.next == j < |s.sinks|
    ensures AllOk(HandTo(s, j))
  {
    var t := HandTo(s, j);
    assert SinkOk(s, j);
    HandedSink(s, j);
    forall i | 0 <= i < |t.sinks| ensures SinkOk(t, i) {
      assert SinkOk(s, i);
      if i != j { SinkKept(s, t, i); }
    }
    forall l | 0 <= l < LANES ensures IntakeOk(t.intake[l], RouterHand(t, l)) { assert IntakeOk(s.intake[l], RouterHand(s, l)); }
  }

  // An event in hand and the same event routed come by alike.
  lemma CameByRouted(k: Sink, l: nat, handled: seq<Event>, ev: Event)
    requires SpanOk(k, l, |handled|)
    ensures SpanOk(k, l, |handled + [ev]|) && CameBy(k, l, handled + [ev], []) == CameBy(k, l, handled, [ev])
  {
    if k.until.Some? {
      assert (handled + [ev])[k.since[l]..k.until.value[l]] == handled[k.since[l]..k.until.value[l]];
    } else {
      assert (handled + [ev])[k.since[l]..] == handled[k.since[l]..] + [ev];
    }
  }

  lemma FinishedLink(s: System, j: nat, l: nat)
    requires AllOk(s) && s.router.Route? && s.router.next == |s.sinks| && j < |s.sinks| && l < LANES
    ensures LinkOk(RouteOnStep(s), j, l)
  {
    assert SinkOk(s, j) && LinkOk(s, j, l);
    if l == s.router.lane { CameByRouted(s.sinks[j], l, s.intake[l].handled, s.router.ev); }
  }

  lemma FinishKeeps(s: System)
    requires AllOk(s) && s.router.Route? && s.router.next == |s.sinks|
    ensures AllOk(RouteOnStep(s))
  {
    var t := RouteOnStep(s);
    forall j | 0 <= j < |t.sinks| ensures SinkOk(t, j) {
      assert SinkOk(s, j);
      forall l | 0 <= l < LANES ensures LinkOk(t, j, l) { FinishedLink(s, j, l); }
    }
    forall l | 0 <= l < LANES ensures IntakeOk(t.intake[l], RouterHand(t, l)) { assert IntakeOk(s.intake[l], RouterHand(s, l)); }
  }

  // ----- working ------------------------------------------------------------------------------

  // What the worker itself does touches neither what its lanes were offered nor a drop being counted.
  lemma WorkOffers(w: Worker, a: Action, l: nat)
    requires |w.lanes| == LANES && l < LANES && !a.Offer? && !a.CountDrop?
    ensures Step(w, a).lanes[l].offered == w.lanes[l].offered && Step(w, a).dropping == w.dropping
  {
  }

  lemma WorkedSink(s: System, j: nat, a: Action)
    requires AllOk(s) && j < |s.sinks| && !a.Offer? && !a.CountDrop?
    ensures SinkOk(WorkStep(s, j, a), j)
  {
    var t := WorkStep(s, j, a);
    assert SinkOk(s, j);
    StepKeepsInv(s.sinks[j].worker, a);
    WorkOffers(s.sinks[j].worker, a, 0);
    forall l | 0 <= l < LANES ensures LinkOk(t, j, l) {
      assert LinkOk(s, j, l);
      WorkOffers(s.sinks[j].worker, a, l);
    }
  }

  lemma WorkKeeps(s: System, j: nat, a: Action)
    requires AllOk(s) && j < |s.sinks| && !a.Offer? && !a.CountDrop?
    ensures AllOk(WorkStep(s, j, a))
  {
    var t := WorkStep(s, j, a);
    WorkedSink(s, j, a);
    forall i | 0 <= i < |t.sinks| ensures SinkOk(t, i) {
      assert SinkOk(s, i);
      if i != j { SinkKept(s, t, i); }
    }
    forall l | 0 <= l < LANES ensures IntakeOk(t.intake[l], RouterHand(t, l)) { assert IntakeOk(s.intake[l], RouterHand(s, l)); }
  }

  // ----- runs -----------------------------------------------------------------------------------

  lemma PollKeeps(s: System)
    requires AllOk(s)
    ensures AllOk(PollIntakeStep(s))
  {
    if s.router.RScan? && s.router.polled < LANES {
      if s.intake[s.router.polled].queue != [] {
        TakeKeeps(s, s.router.polled);
      } else {
        RouterKeeps(s, RScan(s.router.polled + 1));
      }
    }
  }

  lemma WakeKeeps(s: System, l: nat)
    requires AllOk(s)
    ensures AllOk(WakeRouterStep(s, l))
  {
    if s.router.RScan? && l < LANES && s.intake[l].queue != [] { TakeKeeps(s, l); }
  }

  lemma RouteKeeps(s: System)
    requires AllOk(s)
    ensures AllOk(RouteOnStep(s))
  {
    if s.router.Route? && s.router.next < |s.sinks| { HandKeeps(s, s.router.next); }
    if s.router.Route? && s.router.next == |s.sinks| { FinishKeeps(s); }
  }

  // Only the counters differ.
  lemma CountKeeps(s: System, t: System)
    requires AllOk(s) && t == s.(failed := t.failed, builds := t.builds, drops := t.drops, unnoted := t.unnoted)
    ensures AllOk(t)
  {
    forall l | 0 <= l < LANES ensures IntakeOk(t.intake[l], RouterHand(t, l)) { assert IntakeOk(s.intake[l], RouterHand(s, l)); }
    forall j | 0 <= j < |t.sinks| ensures SinkOk(t, j) { assert SinkOk(s, j); SinkKept(s, t, j); }
  }

  lemma NextKeeps(s: System, m: Move)
    requires AllOk(s)
    ensures AllOk(Next(s, m))
  {
    match m
    case Push(ev) => PushKeeps(s, ev);
    case PollIntake => PollKeeps(s);
    case WakeRouter(l) => WakeKeeps(s, l);
    case AddSink(filter) => AddKeeps(s, filter);
    case FailBuild => CountKeeps(s, FailBuildStep(s));
    case Retire(j) => RetireKeeps(s, j);
    case StartRouting => if s.router.Refresh? { RouterKeeps(s, Route(s.router.ev, s.router.lane, 0)); }
    case RouteOn => RouteKeeps(s);
    case Work(j, a) => if j < |s.sinks| && !a.Offer? && !a.CountDrop? { WorkKeeps(s, j, a); }
    case NoteDrop(l) => CountKeeps(s, NoteDropStep(s, l));
  }

  ghost predicate Reaches(bufSize: nat, states: seq<System>, moves: seq<Move>) {
    && |states| == |moves| + 1 && states[0] == Initial(bufSize)
    && forall i :: 0 <= i < |moves| ==> Goes(states[i], moves[i], states[i + 1])
  }

  ghost predicate Goes(s: System, m: Move, t: System) {
    Shaped(s) && t == Next(s, m)
  }

  lemma InitialOk(bufSize: nat)
    ensures AllOk(Initial(bufSize))
  {
    forall l | 0 <= l < LANES ensures IntakeOk(Initial(bufSize).intake[l], RouterHand(Initial(bufSize), l)) {}
  }

  lemma {:induction false} AllReachedOk(bufSize: nat, states: seq<System>, moves: seq<Move>, i: nat)
    requires Reaches(bufSize, states, moves) && i < |states|
    ensures AllOk(states[i])
  {
    if i == 0 {
      InitialOk(bufSize);
    } else {
      AllReachedOk(bufSize, states, moves, i - 1);
      assert Goes(states[i - 1], moves[i - 1], states[i]);
      NextKeeps(states[i - 1], moves[i - 1]);
    }
  }

  // ----- from Push to sink --------------------------------------------------------------------

  // The accepted events of lane l that fall to sink j: from when it came to when it went.
  ghost function Due(s: System, j: nat, l: nat): seq<Event>
    requires j < |s.sinks| && l < |s.intake| && SpanOk(s.sinks[j], l, |s.intake[l].accepted|)
  {
    var k, accepted := s.sinks[j], s.intake[l].accepted;
    if k.until.Some? then accepted[k.since[l]..k.until.value[l]] else accepted[k.since[l]..]
  }

  // Those of them it has not been offered yet.
  ghost function Waiting(s: System, j: nat, l: nat): seq<Event>
    requires j < |s.sinks| && l < |s.intake|
  {
    if s.sinks[j].until.Some? then []
    else (if PassedOn(s, j, l) == [] then RouterHand(s, l) else []) + s.intake[l].queue
  }

  lemma DueSplits(s: System, j: nat, l: nat)
    requires j < |s.sinks| && l < |s.intake| && IntakeOk(s.intake[l], RouterHand(s, l))
    requires SpanOk(s.sinks[j], l, |s.intake[l].handled|)
    ensures SpanOk(s.sinks[j], l, |s.intake[l].accepted|)
    ensures Due(s, j, l) == CameBy(s.sinks[j], l, s.intake[l].handled, PassedOn(s, j, l)) + Waiting(s, j, l)
  {
    var k, lane := s.sinks[j], s.intake[l];
    if k.until.Some? {
      assert lane.accepted[k.since[l]..k.until.value[l]] == lane.handled[k.since[l]..k.until.value[l]];
    } else {
      assert lane.accepted[k.since[l]..] == lane.handled[k.since[l]..] + RouterHand(s, l) + lane.queue;
    }
  }

  // What a sink's lane holds of the events that fall to it.
  ghost predicate Accounted(s: System, j: nat, l: nat)
    requires j < |s.sinks| && l < |s.intake| && |s.sinks[j].worker.lanes| == |s.intake|
  {
    var k := s.sinks[j];
    var lane := k.worker.lanes[l];
    && SpanOk(k, l, |s.intake[l].accepted|)
    && Wanted(k.filter, Due(s, j, l)) == lane.offered + Wanted(k.filter, Waiting(s, j, l))
    && Merges(lane.offered, lane.accepted, lane.dropped)
    && lane.accepted == lane.handled + InHand(k.worker, l) + lane.queue
    && |lane.dropped| == lane.pending + Held(k.worker, l) + Told(k.worker.notices, l) + InFlight(k.worker, l)
  }

  lemma OkIsAccounted(s: System, j: nat, l: nat)
    requires AllOk(s) && j < |s.sinks| && l < LANES
    ensures Accounted(s, j, l)
  {
    assert IntakeOk(s.intake[l], RouterHand(s, l)) && SinkOk(s, j) && LinkOk(s, j, l) && LaneOkIn(s.sinks[j].worker, l);
    DueSplits(s, j, l);
    WantedSplit(s.sinks[j].filter, CameBy(s.sinks[j], l, s.intake[l].handled, PassedOn(s, j, l)), Waiting(s, j, l));
  }

  /**
   * From Push to sink, under every interleaving and however sinks come and go: the events of a lane that a sink wants
   * of those accepted while it is on the list are, in push order, those offered to it and those still waiting; and the
   * ones offered are, in order, those it accepted, of which some are handled, one may be in hand and the rest queued,
   * and those dropped at its own full lane.
   */
  lemma EndToEnd(bufSize: nat, states: seq<System>, moves: seq<Move>, i: nat, j: nat, l: nat)
    requires Reaches(bufSize, states, moves) && i < |states| && j < |states[i].sinks| && l < LANES
    ensures Shaped(states[i]) && Accounted(states[i], j, l)
    ensures Merges(states[i].intake[l].offered, states[i].intake[l].accepted, states[i].intake[l].dropped)
  {
    AllReachedOk(bufSize, states, moves, i);
    OkIsAccounted(states[i], j, l);
    assert IntakeOk(states[i].intake[l], RouterHand(states[i], l));
  }

  lemma LastBack<T>(a: seq<T>)
    requires a != []
    ensures multiset(a) == multiset(a[..|a| - 1]) + multiset{a[|a| - 1]}
  {
    assert a == a[..|a| - 1] + [a[|a| - 1]];
  }

  lemma {:induction false} MergesSize<T>(all: seq<T>, a: seq<T>, b: seq<T>)
    requires Merges(all, a, b)
    ensures |all| == |a| + |b| && multiset(all) == multiset(a) + multiset(b)
  {
    if all != [] {
      var n, last := |all| - 1, all[|all| - 1];
      LastBack(all);
      if a != [] && a[|a| - 1] == last && Merges(all[..n], a[..|a| - 1], b) {
        MergesSize(all[..n], a[..|a| - 1], b);
        LastBack(a);
      } else {
        MergesSize(all[..n], a, b[..|b| - 1]);
        LastBack(b);
      }
    }
  }

  // The events of lane l that a sink has handled, has in hand, has queued or has lost.
  function Ends(w: Worker, l: nat): multiset<Event>
    requires l < |w.lanes|
  {
    multiset(w.lanes[l].handled) + multiset(InHand(w, l)) + multiset(w.lanes[l].queue) + multiset(w.lanes[l].dropped)
  }

  /** Counted: nothing a sink wants is lost or doubled between Push and its four possible ends. */
  lemma NothingLost(bufSize: nat, states: seq<System>, moves: seq<Move>, i: nat, j: nat, l: nat)
    requires Reaches(bufSize, states, moves) && i < |states| && j < |states[i].sinks| && l < LANES
    ensures Shaped(states[i]) && SpanOk(states[i].sinks[j], l, |states[i].intake[l].accepted|)
    ensures var s, k := states[i], states[i].sinks[j];
            multiset(Wanted(k.filter, Due(s, j, l))) == Ends(k.worker, l) + multiset(Wanted(k.filter, Waiting(s, j, l)))
  {
    EndToEnd(bufSize, states, moves, i, j, l);
    var lane := states[i].sinks[j].worker.lanes[l];
    MergesSize(lane.offered, lane.accepted, lane.dropped);
  }

  // ----- the shared counters ----------------------------------------------------------------------

  function Sum(sinks: seq<Sink>, f: Worker -> int): int {
    if sinks == [] then 0 else Sum(sinks[..|sinks| - 1], f) + f(sinks[|sinks| - 1].worker)
  }

  lemma {:induction false} SumUpdate(sinks: seq<Sink>, f: Worker -> int, j: nat, k: Sink)
    requires j < |sinks|
    ensures Sum(sinks[j := k], f) == Sum(sinks, f) - f(sinks[j].worker) + f(k.worker)
  {
    var n := |sinks| - 1;
    if j < n {
      SumUpdate(sinks[..n], f, j, k);
      assert sinks[j := k][..n] == sinks[..n][j := k];
    } else {
      assert sinks[j := k][..n] == sinks[..n];
    }
  }

  lemma SumAdd(sinks: seq<Sink>, f: Worker -> int, k: Sink)
    ensures Sum(sinks + [k], f) == Sum(sinks, f) + f(k.worker)
  {
    assert (sinks + [k])[..|sinks|] == sinks;
  }

  const DELIVERED: Worker -> int := (w: Worker) => w.delivered
  const FAILED: Worker -> int := (w: Worker) => w.failed

  ghost predicate Counted(s: System) {
    && s.delivered == Sum(s.sinks, DELIVERED) && s.failed == Sum(s.sinks, FAILED) + s.builds
    && forall j :: 0 <= j < |s.sinks| ==> Totals(s.sinks[j].worker)
  }

  // Replacing one worker changes the sums by the difference.
  lemma OneWorker(s: System, t: System, j: nat, v: Worker)
    requires Counted(s) && j < |s.sinks| && Totals(v) && |t.sinks| == |s.sinks| && t.sinks == s.sinks[j := t.sinks[j]] && t.sinks[j].worker == v
    requires t.delivered == s.delivered + v.delivered - s.sinks[j].worker.delivered
    requires t.failed == s.failed + v.failed - s.sinks[j].worker.failed && t.builds == s.builds
    ensures Counted(t)
  {
    SumUpdate(s.sinks, DELIVERED, j, t.sinks[j]);
    SumUpdate(s.sinks, FAILED, j, t.sinks[j]);
  }

  lemma OfferCounts(w: Worker, ev: Event, l: nat)
    requires |w.lanes| == LANES && l < LANES && Totals(w)
    ensures Totals(OfferTo(w, ev, l)) && Totals(CountDropStep(w))
    ensures OfferTo(w, ev, l).delivered == CountDropStep(w).delivered == w.delivered
    ensures OfferTo(w, ev, l).failed == CountDropStep(w).failed == w.failed
  {
  }

  lemma HandCounts(s: System, j: nat)
    requires AllOk(s) && Counted(s) && s.router.Route? && s.router.next == j < |s.sinks|
    ensures Counted(HandTo(s, j))
  {
    OfferCounts(s.sinks[j].worker, s.router.ev, s.router.lane);
    assert s.sinks[j := s.sinks[j]] == s.sinks;
    OneWorker(s, HandTo(s, j), j, HandTo(s, j).sinks[j].worker);
  }

  lemma WorkCounts(s: System, j: nat, a: Action)
    requires AllOk(s) && Counted(s) && j < |s.sinks| && !a.Offer? && !a.CountDrop?
    ensures Counted(WorkStep(s, j, a))
  {
    assert SinkOk(s, j);
    StepKeepsTotals(s.sinks[j].worker, a);
    OneWorker(s, WorkStep(s, j, a), j, Step(s.sinks[j].worker, a));
  }

  lemma AddCounts(s: System, filter: Filter)
    requires Counted(s)
    ensures Counted(AddStep(s, filter))
  {
    if s.router.Refresh? {
      var k := Sink(filter, Fresh(s.bufSize), Routed(s), None);
      SumAdd(s.sinks, DELIVERED, k);
      SumAdd(s.sinks, FAILED, k);
    }
  }

  lemma RetireCounts(s: System, j: nat)
    requires Counted(s)
    ensures Counted(RetireStep(s, j))
  {
    if RetireStep(s, j) != s { OneWorker(s, RetireStep(s, j), j, s.sinks[j].worker); }
  }

  lemma NextCounts(s: System, m: Move)
    requires AllOk(s) && Counted(s)
    ensures Counted(Next(s, m))
  {
    match m
    case AddSink(filter) => AddCounts(s, filter);
    case Retire(j) => RetireCounts(s, j);
    case RouteOn => if s.router.Route? && s.router.next < |s.sinks| { HandCounts(s, s.router.next); }
    case Work(j, a) => if j < |s.sinks| && !a.Offer? && !a.CountDrop? { WorkCounts(s, j, a); }
    case _ =>
  }

  lemma {:induction false} SumSame(sinks: seq<Sink>, f: Worker -> int, g: Worker -> int)
    requires forall j :: 0 <= j < |sinks| ==> f(sinks[j].worker) == g(sinks[j].worker)
    ensures Sum(sinks, f) == Sum(sinks, g)
  {
    if sinks != [] { SumSame(sinks[..|sinks| - 1], f, g); }
  }

  lemma {:induction false} AllReachedCounted(bufSize: nat, states: seq<System>, moves: seq<Move>, i: nat)
    requires Reaches(bufSize, states, moves) && i < |states|
    ensures Counted(states[i])
  {
    if i > 0 {
      AllReachedCounted(bufSize, states, moves, i - 1);
      AllReachedOk(bufSize, states, moves, i - 1);
      assert Goes(states[i - 1], moves[i - 1], states[i]);
      NextCounts(states[i - 1], moves[i - 1]);
    }
  }

  // The events and notices that went out, and those that did not.
  const TAKEN: Worker -> int := (w: Worker) => if |w.lanes| == LANES then Answered(w, true) + |w.notices| else 0
  const REFUSED: Worker -> int := (w: Worker) => if |w.lanes| == LANES then Answered(w, false) + w.refused else 0

  /** The shared counters: every event and notice a worker tried to deliver is counted once, by its outcome, and so is
      every sink that could not be built. */
  lemma AttemptsCounted(bufSize: nat, states: seq<System>, moves: seq<Move>, i: nat)
    requires Reaches(bufSize, states, moves) && i < |states|
    ensures var s := states[i];
            && s.delivered == Sum(s.sinks, TAKEN) && s.failed == Sum(s.sinks, REFUSED) + s.builds
            && forall j :: 0 <= j < |s.sinks| ==> Totals(s.sinks[j].worker)
  {
    AllReachedCounted(bufSize, states, moves, i);
    SumSame(states[i].sinks, DELIVERED, TAKEN);
    SumSame(states[i].sinks, FAILED, REFUSED);
  }

  // ----- the drop counters ------------------------------------------------------------------------

  function Dropped(w: Worker, l: nat): nat {
    if l < |w.lanes| then |w.lanes[l].dropped| else 0
  }

  // The drops of lane l that the router has added to the sink's pending count.
  function Owed(w: Worker, l: nat): int {
    Dropped(w, l) - InFlight(w, l)
  }

  function DroppedIn(l: nat): Worker -> int {
    (w: Worker) => Dropped(w, l)
  }

  function InFlightIn(l: nat): Worker -> int {
    (w: Worker) => InFlight(w, l)
  }

  function OwedIn(l: nat): Worker -> int {
    (w: Worker) => Owed(w, l)
  }

  ghost predicate NotedIn(s: System, l: nat) {
    && l < |s.intake| && l < |s.drops| && l < |s.unnoted|
    && s.drops[l] + s.unnoted[l] == |s.intake[l].dropped| + Sum(s.sinks, OwedIn(l))
  }

  // Only sink j changed.
  lemma OneSinkNoted(s: System, t: System, j: nat, k: Sink, l: nat)
    requires NotedIn(s, l) && j < |s.sinks| && t.sinks == s.sinks[j := k] && t.drops == s.drops
    requires t.intake == s.intake && |t.unnoted| == |s.unnoted|
    requires t.unnoted[l] == s.unnoted[l] + Owed(k.worker, l) - Owed(s.sinks[j].worker, l)
    ensures NotedIn(t, l)
  {
    SumUpdate(s.sinks, OwedIn(l), j, k);
  }

  lemma OfferOwes(w: Worker, ev: Event, k: nat, l: nat)
    requires |w.lanes| == LANES && k < LANES && l < LANES && w.dropping.None?
    ensures Owed(OfferTo(w, ev, k), l) == Owed(w, l)
  {
  }

  lemma CountDropOwes(w: Worker, l: nat)
    requires |w.lanes| == LANES && l < LANES && w.dropping.Some? && w.dropping.value < LANES
    ensures Owed(CountDropStep(w), l) == Owed(w, l) + if l == w.dropping.value then 1 else 0
  {
  }

  lemma WorkOwes(w: Worker, a: Action, l: nat)
    requires |w.lanes| == LANES && l < LANES && !a.Offer? && !a.CountDrop?
    ensures Owed(Step(w, a), l) == Owed(w, l)
  {
  }

  lemma HandNotes(s: System, j: nat, l: nat)
    requires AllOk(s) && NotedIn(s, l) && s.router.Route? && s.router.next == j < |s.sinks| && l < LANES
    ensures NotedIn(HandTo(s, j), l)
  {
    assert SinkOk(s, j);
    var w := s.sinks[j].worker;
    if w.dropping.Some? { CountDropOwes(w, l); } else { OfferOwes(w, s.router.ev, s.router.lane, l); }
    assert s.sinks[j := s.sinks[j]] == s.sinks;
    OneSinkNoted(s, HandTo(s, j), j, HandTo(s, j).sinks[j], l);
  }

  lemma WorkNotes(s: System, j: nat, a: Action, l: nat)
    requires AllOk(s) && NotedIn(s, l) && j < |s.sinks| && l < LANES && !a.Offer? && !a.CountDrop?
    ensures NotedIn(WorkStep(s, j, a), l)
  {
    assert SinkOk(s, j);
    WorkOwes(s.sinks[j].worker, a, l);
    OneSinkNoted(s, WorkStep(s, j, a), j, WorkStep(s, j, a).sinks[j], l);
  }

  lemma AddNotes(s: System, filter: Filter, l: nat)
    requires NotedIn(s, l) && l < LANES
    ensures NotedIn(AddStep(s, filter), l)
  {
    if s.router.Refresh? {
      FreshOwes(s.bufSize, l);
      OneMoreNoted(s, AddStep(s, filter), Sink(filter, Fresh(s.bufSize), Routed(s), None), l);
    }
  }

  lemma FreshOwes(bufSize: nat, l: nat)
    ensures Owed(Fresh(bufSize), l) == 0
  {
  }

  lemma OneMoreNoted(s: System, t: System, k: Sink, l: nat)
    requires NotedIn(s, l) && t.sinks == s.sinks + [k] && t.intake == s.intake && t.drops == s.drops && t.unnoted == s.unnoted
    requires Owed(k.worker, l) == 0
    ensures NotedIn(t, l)
  {
    SumAdd(s.sinks, OwedIn(l), k);
  }

  lemma RetireNotes(s: System, j: nat, l: nat)
    requires NotedIn(s, l)
    ensures NotedIn(RetireStep(s, j), l)
  {
    if RetireStep(s, j) != s { OneSinkNoted(s, RetireStep(s, j), j, RetireStep(s, j).sinks[j], l); }
  }

  lemma PushNotes(s: System, ev: Event, l: nat)
    requires Shaped(s) && NotedIn(s, l)
    ensures NotedIn(PushStep(s, ev), l)
  {
  }

  lemma RouteNotes(s: System, l: nat)
    requires AllOk(s) && NotedIn(s, l) && l < LANES
    ensures NotedIn(RouteOnStep(s), l)
  {
    if s.router.Route? && s.router.next < |s.sinks| { HandNotes(s, s.router.next, l); }
  }

  lemma NextNotes(s: System, m: Move, l: nat)
    requires AllOk(s) && NotedIn(s, l) && l < LANES
    ensures NotedIn(Next(s, m), l)
  {
    match m
    case Push(ev) => PushNotes(s, ev, l);
    case AddSink(filter) => AddNotes(s, filter, l);
    case Retire(j) => RetireNotes(s, j, l);
    case RouteOn => RouteNotes(s, l);
    case Work(j, a) => if j < |s.sinks| && !a.Offer? && !a.CountDrop? { WorkNotes(s, j, a, l); }
    case _ =>
  }

  lemma InitialNoted(bufSize: nat, l: nat)
    requires l < LANES
    ensures NotedIn(Initial(bufSize), l)
  {
  }

  lemma {:induction false} AllReachedNoted(bufSize: nat, states: seq<System>, moves: seq<Move>, i: nat, l: nat)
    requires Reaches(bufSize, states, moves) && i < |states| && l < LANES
    ensures NotedIn(states[i], l)
  {
    if i == 0 {
      InitialNoted(bufSize, l);
    } else {
      AllReachedNoted(bufSize, states, moves, i - 1, l);
      AllReachedOk(bufSize, states, moves, i - 1);
      assert Goes(states[i - 1], moves[i - 1], states[i]);
      NextNotes(states[i - 1], moves[i - 1], l);
    }
  }

  lemma {:induction false} OwedSum(sinks: seq<Sink>, l: nat)
    ensures Sum(sinks, DroppedIn(l)) == Sum(sinks, OwedIn(l)) + Sum(sinks, InFlightIn(l))
  {
    if sinks != [] { OwedSum(sinks[..|sinks| - 1], l); }
  }

  /**
   * The drop counter of a lane, under every interleaving: each event lost at the full intake lane and each one lost at
   * a sink's full lane is counted once, or is on its way to being counted.
   */
  lemma DropsCounted(bufSize: nat, states: seq<System>, moves: seq<Move>, i: nat, l: nat)
    requires Reaches(bufSize, states, moves) && i < |states| && l < LANES
    ensures var s := states[i];
            && l < |s.intake| && l < |s.drops| && l < |s.unnoted|
            && |s.intake[l].dropped| + Sum(s.sinks, DroppedIn(l)) == s.drops[l] + s.unnoted[l] + Sum(s.sinks, InFlightIn(l))
  {
    AllReachedNoted(bufSize, states, moves, i, l);
    OwedSum(states[i].sinks, l);
  }

  // ----- turns nobody disturbs ---------------------------------------------------------------------

  // What an offer of ev does to a lane: room takes it, a full lane drops it.
  ghost predicate LaneOffered(lane: Lane, ev: Event, lane': Lane, pending: nat) {
    if |lane.queue| < lane.cap
    then lane' == lane.(queue := lane.queue + [ev], offered := lane.offered + [ev], accepted := lane.accepted + [ev])
    else lane' == lane.(offered := lane.offered + [ev], dropped := lane.dropped + [ev], pending := lane.pending + pending)
  }

  /** At the start there are three empty intake lanes of the configured sizes, no sinks and nothing counted. */
  lemma InitialIs(bufSize: nat)
    ensures var s := Initial(bufSize);
            && s.bufSize == bufSize && s.intake == Fresh(bufSize).lanes && s.router == RScan(0) && s.sinks == []
            && s.delivered == s.failed == s.builds == 0 && s.drops == s.unnoted == [0, 0, 0]
  {
  }

  /** A Push goes to the event's own lane and to nothing else; a drop there is about to be noted. */
  lemma PushTurn(s: System, ev: Event)
    requires |s.intake| == LANES == |s.unnoted|
    ensures var l, t := LaneIndex(ev.eventType), PushStep(s, ev);
            && LaneOffered(s.intake[l], ev, t.intake[l], 0)
            && t == s.(intake := s.intake[l := t.intake[l]],
                       unnoted := if |s.intake[l].queue| < s.intake[l].cap then s.unnoted else s.unnoted[l := s.unnoted[l] + 1])
  {
  }

  function PollsIntake(s: System, n: nat): System
    requires |s.intake| == LANES
    ensures |PollsIntake(s, n).intake| == LANES
  {
    if n == 0 then s else PollIntakeStep(PollsIntake(s, n - 1))
  }

  lemma {:induction false} EmptyIntake(s: System, n: nat)
    requires |s.intake| == LANES && s.router == RScan(0) && n <= LANES && forall l :: 0 <= l < n ==> s.intake[l].queue == []
    ensures PollsIntake(s, n) == s.(router := RScan(n))
    decreases n
  {
    if n > 0 { EmptyIntake(s, n - 1); }
  }

  // The head of intake lane l is in the router's hand.
  ghost predicate InRoutersHand(s: System, t: System, l: nat)
    requires l < |s.intake| && s.intake[l].queue != []
  {
    t == s.(router := Refresh(s.intake[l].queue[0], l), intake := s.intake[l := s.intake[l].(queue := s.intake[l].queue[1..])])
  }

  /** Undisturbed the router takes the oldest event of the highest intake lane that has one. */
  lemma RouterTakesHighest(s: System, l: nat)
    requires |s.intake| == LANES && s.router == RScan(0) && l < LANES
    requires s.intake[l].queue != [] && forall k :: 0 <= k < l ==> s.intake[k].queue == []
    ensures InRoutersHand(s, PollsIntake(s, l + 1), l)
  {
    EmptyIntake(s, l);
  }

  /** Waiting with every lane polled it takes from any lane that has an event, and otherwise not at all. */
  lemma RouterWakes(s: System, l: nat)
    requires |s.intake| == LANES && l < LANES && s.router.RScan?
    ensures s.router.polled == LANES && s.intake[l].queue != [] ==> InRoutersHand(s, WakeRouterStep(s, l), l)
    ensures s.router.polled != LANES || s.intake[l].queue == [] ==> WakeRouterStep(s, l) == s
  {
  }

  // The worker after lane l was offered ev and a drop was counted.
  ghost predicate WorkerOffered(w: Worker, w': Worker, l: nat, ev: Event) {
    && l < |w.lanes| == |w'.lanes| && LaneOffered(w.lanes[l], ev, w'.lanes[l], 1)
    && w' == w.(lanes := w.lanes[l := w'.lanes[l]])
  }

  /** The router at a sink: one that is retired or does not want the event is passed over; any other is offered it, and
      the router goes on once it is taken, or dropped and counted. */
  lemma HandTurn(s: System, j: nat)
    requires Shaped(s) && |s.unnoted| == LANES && s.router.Route? && s.router.next == j < |s.sinks| && s.sinks[j].worker.dropping.None?
    ensures var Route(ev, l, _), k, t := s.router, s.sinks[j], RouteOnStep(s);
            if k.until.Some? || !k.filter(ev.eventType) then t == s.(router := Route(ev, l, j + 1))
            else if |k.worker.lanes[l].queue| < k.worker.lanes[l].cap then
              && j < |t.sinks| && WorkerOffered(k.worker, t.sinks[j].worker, l, ev)
              && t == s.(router := Route(ev, l, j + 1), sinks := s.sinks[j := k.(worker := t.sinks[j].worker)])
            else
              && Shaped(t) && var t2 := RouteOnStep(t);
              && j < |t2.sinks| && WorkerOffered(k.worker, t2.sinks[j].worker, l, ev)
              && t2 == s.(router := Route(ev, l, j + 1), sinks := s.sinks[j := k.(worker := t2.sinks[j].worker)],
                          unnoted := s.unnoted[l := s.unnoted[l] + 1])
  {
    var Route(ev, l, _) := s.router;
    var k := s.sinks[j];
    if k.until.None? && k.filter(ev.eventType) && |k.worker.lanes[l].queue| >= k.worker.lanes[l].cap {
      var t := RouteOnStep(s);
      assert t.sinks[j].worker == OfferTo(k.worker, ev, l) && t.sinks[j].worker.dropping == Some(l);
      assert s.sinks[j := t.sinks[j]][j := k.(worker := CountDropStep(t.sinks[j].worker))] == s.sinks[j := k.(worker := CountDropStep(t.sinks[j].worker))];
    }
  }

  /** Past the last sink the event is done with and the router receives again. */
  lemma LastTurn(s: System)
    requires Shaped(s) && s.router.Route? && s.router.next == |s.sinks|
    ensures var l := s.router.lane;
            RouteOnStep(s) == s.(router := RScan(0), intake := s.intake[l := s.intake[l].(handled := s.intake[l].handled + [s.router.ev])])
  {
  }

  /** Only with an event in hand does the list of sinks change: a new sink starts with empty lanes of the configured
      size, one that cannot be built is counted as a failure, and a retired one only leaves the list. */
  lemma RefreshTurn(s: System, filter: Filter, j: nat)
    requires j < |s.sinks|
    ensures !s.router.Refresh? ==> AddStep(s, filter) == s && FailBuildStep(s) == s && RetireStep(s, j) == s && StartRoutingStep(s) == s
    ensures s.router.Refresh? ==>
              && AddStep(s, filter) == s.(sinks := AddStep(s, filter).sinks) && |AddStep(s, filter).sinks| == |s.sinks| + 1
              && AddStep(s, filter).sinks[..|s.sinks|] == s.sinks
              && AddStep(s, filter).sinks[|s.sinks|].worker == Fresh(s.bufSize)
              && AddStep(s, filter).sinks[|s.sinks|].filter == filter && AddStep(s, filter).sinks[|s.sinks|].until == None
              && FailBuildStep(s) == s.(failed := s.failed + 1, builds := s.builds + 1)
              && RetireStep(s, j) == s.(sinks := s.sinks[j := s.sinks[j].(until := RetireStep(s, j).sinks[j].until)])
              && RetireStep(s, j).sinks[j].until.Some?
              && StartRoutingStep(s) == s.(router := Route(s.router.ev, s.router.lane, 0))
  {
    assert s.sinks[j := s.sinks[j]] == s.sinks;
  }

  /** A step of a worker is that step and its share of the shared counters; a drop about to be noted is noted once. */
  lemma WorkTurn(s: System, j: nat, a: Action, l: nat)
    requires j < |s.sinks| && |s.sinks[j].worker.lanes| == LANES && !a.Offer? && !a.CountDrop? && l < |s.unnoted| == |s.drops|
    ensures var w, v := s.sinks[j].worker, Step(s.sinks[j].worker, a);
            WorkStep(s, j, a) == s.(sinks := s.sinks[j := s.sinks[j].(worker := v)], delivered := s.delivered + (v.delivered - w.delivered),
                                    failed := s.failed + (v.failed - w.failed))
    ensures NoteDropStep(s, l)
         == if s.unnoted[l] == 0 then s
            else s.(unnoted := s.unnoted[l := s.unnoted[l] - 1], drops := s.drops[l := s.drops[l] + 1])
  {
  }
}
