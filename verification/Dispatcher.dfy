/**
 * One sink of the event dispatcher: bounded lanes filled by the router and drained by the worker,
 * with the debt of dropped events the sink is told of once it recovers.
 */
module Dispatcher {

  datatype Event = Event(id: int, eventType: string)
  datatype Option<T> = None | Some(value: T)

  // Lanes, highest priority first.
  const SECURITY: nat := 0
  const ANONYMOUS: nat := 1
  const BULK: nat := 2
  const LANES: nat := 3

  predicate IsBulkEvent(eventType: string) {
    "request." <= eventType || "token." <= eventType || "mail." <= eventType || "reveal." <= eventType || "session." <= eventType
  }

  function LaneIndex(eventType: string): (lane: nat)
    ensures lane < LANES
  {
    if IsBulkEvent(eventType) then BULK else if eventType == "admin.login_failed" then ANONYMOUS else SECURITY
  }

  const BULK_PREFIXES := ["request.", "token.", "mail.", "reveal.", "session."]

  /** What anybody can cause in volume goes to the lowest lane, failed logins to the one above, all else to the highest. */
  lemma LaneIs(eventType: string)
    ensures LaneIndex(eventType) == 2 <==> exists i :: 0 <= i < |BULK_PREFIXES| && BULK_PREFIXES[i] <= eventType
    ensures LaneIndex(eventType) == 1 <==> eventType == "admin.login_failed"
    ensures LaneIndex(eventType) in {0, 1, 2}
  {
    assert BULK_PREFIXES[0] == "request." && BULK_PREFIXES[1] == "token." && BULK_PREFIXES[2] == "mail.";
    assert BULK_PREFIXES[3] == "reveal." && BULK_PREFIXES[4] == "session.";
    if eventType == "admin.login_failed" { assert eventType[0] == 'a'; }
  }

  // queue and pending are the lane itself; the rest is its history, answers telling which of the handled went out.
  datatype Lane = Lane(
    cap: nat, queue: seq<Event>, pending: nat,
    offered: seq<Event>, accepted: seq<Event>, dropped: seq<Event>, handled: seq<Event>, answers: seq<bool>)

  /**
   * Where the worker is: Scan polls the lanes in turn, the lanes polled so far having been found empty
   * (marks tells how many events each had accepted by then), and with all polled it waits on all of them;
   * Send delivers an event; Drain swaps out the pending counts lane by lane; Notify delivers the notice;
   * Restore adds the counts of a failed notice back lane by lane.
   */
  datatype Point =
    | Scan(marks: seq<nat>)
    | Send(ev: Event, lane: nat)
    | Drain(counts: seq<nat>)
    | Notify(counts: seq<nat>)
    | Restore(counts: seq<nat>, done: nat)
    | Stopped

  // dropping is the lane for which the router has found no room and not yet counted the drop; notices and
  // refused are history, the notices delivered and the number that were not.
  datatype Worker = Worker(lanes: seq<Lane>, at: Point, dropping: Option<nat>, notices: seq<seq<nat>>, refused: nat, delivered: nat, failed: nat)

  datatype Action =
    | Offer(ev: Event)
    | CountDrop
    | Poll
    | Wake(lane: nat)
    | Halt
    | Sent(ok: bool)
    | Swap
    | NoticeSent(ok: bool)
    | GiveBack

  function Fresh(bufSize: nat): Worker {
    var lane := (cap: nat) => Lane(cap, [], 0, [], [], [], [], []);
    Worker([lane(4 * bufSize), lane(2 * bufSize), lane(bufSize)], Scan([]), None, [], 0, 0, 0)
  }

  // ----- steps ----------------------------------------------------------------------------

  function Put(w: Worker, l: nat, lane: Lane): Worker
    requires l < |w.lanes|
  {
    w.(lanes := w.lanes[l := lane])
  }

  // A non-blocking send into a lane.
  function Offered(lane: Lane, ev: Event): Lane {
    if |lane.queue| < lane.cap
    then lane.(queue := lane.queue + [ev], offered := lane.offered + [ev], accepted := lane.accepted + [ev])
    else lane.(offered := lane.offered + [ev], dropped := lane.dropped + [ev])
  }

  function OfferTo(w: Worker, ev: Event, l: nat): Worker
    requires |w.lanes| == LANES && l < LANES
  {
    if w.dropping.Some? then w
    else
      var full := |w.lanes[l].queue| >= w.lanes[l].cap;
      Put(w, l, Offered(w.lanes[l], ev)).(dropping := if full then Some(l) else None)
  }

  function OfferStep(w: Worker, ev: Event): Worker
    requires |w.lanes| == LANES
  {
    OfferTo(w, ev, LaneIndex(ev.eventType))
  }

  function CountDropStep(w: Worker): Worker
    requires |w.lanes| == LANES
  {
    if w.dropping.Some? && w.dropping.value < LANES then
      var l := w.dropping.value;
      Put(w, l, w.lanes[l].(pending := w.lanes[l].pending + 1)).(dropping := None)
    else w
  }

  function Take(w: Worker, l: nat): Worker
    requires l < |w.lanes| && w.lanes[l].queue != []
  {
    var lane := w.lanes[l];
    Put(w, l, lane.(queue := lane.queue[1..])).(at := Send(lane.queue[0], l))
  }

  function PollStep(w: Worker): Worker
    requires |w.lanes| == LANES
  {
    if w.at.Scan? && |w.at.marks| < LANES then
      var lane := w.lanes[|w.at.marks|];
      if lane.queue != [] then Take(w, |w.at.marks|) else w.(at := Scan(w.at.marks + [|lane.accepted|]))
    else w
  }

  function WakeStep(w: Worker, l: nat): Worker
    requires |w.lanes| == LANES
  {
    if w.at.Scan? && |w.at.marks| == LANES && l < LANES && w.lanes[l].queue != [] then Take(w, l) else w
  }

  function HaltStep(w: Worker): Worker {
    if w.at.Scan? && (|w.at.marks| == 0 || |w.at.marks| == LANES) then w.(at := Stopped) else w
  }

  function SentStep(w: Worker, ok: bool): Worker
    requires |w.lanes| == LANES
  {
    if w.at.Send? && w.at.lane < LANES then
      var l := w.at.lane;
      var v := Put(w, l, w.lanes[l].(handled := w.lanes[l].handled + [w.at.ev], answers := w.lanes[l].answers + [ok]));
      if ok then v.(at := Drain([]), delivered := w.delivered + 1) else v.(at := Scan([]), failed := w.failed + 1)
    else w
  }

  function SwapStep(w: Worker): Worker
    requires |w.lanes| == LANES
  {
    if !w.at.Drain? then w
    else if |w.at.counts| < LANES then
      var l := |w.at.counts|;
      Put(w, l, w.lanes[l].(pending := 0)).(at := Drain(w.at.counts + [w.lanes[l].pending]))
    else if forall l :: 0 <= l < |w.at.counts| ==> w.at.counts[l] == 0 then w.(at := Scan([]))
    else w.(at := Notify(w.at.counts))
  }

  function NoticeStep(w: Worker, ok: bool): Worker {
    if !w.at.Notify? then w
    else if ok then w.(at := Scan([]), notices := w.notices + [w.at.counts], delivered := w.delivered + 1)
    else w.(at := Restore(w.at.counts, 0), refused := w.refused + 1, failed := w.failed + 1)
  }

  function GiveBackStep(w: Worker): Worker
    requires |w.lanes| == LANES
  {
    if !w.at.Restore? then w
    else if w.at.done < LANES && w.at.done < |w.at.counts| then
      var l := w.at.done;
      Put(w, l, w.lanes[l].(pending := w.lanes[l].pending + w.at.counts[l])).(at := Restore(w.at.counts, l + 1))
    else w.(at := Scan([]))
  }

  function Step(w: Worker, a: Action): (v: Worker)
    requires |w.lanes| == LANES
    ensures |v.lanes| == LANES
  {
    match a
    case Offer(ev) => OfferStep(w, ev)
    case CountDrop => CountDropStep(w)
    case Poll => PollStep(w)
    case Wake(l) => WakeStep(w, l)
    case Halt => HaltStep(w)
    case Sent(ok) => SentStep(w, ok)
    case Swap => SwapStep(w)
    case NoticeSent(ok) => NoticeStep(w, ok)
    case GiveBack => GiveBackStep(w)
  }

  // ----- what every interleaving keeps ----------------------------------------------------

  function InHand(w: Worker, l: nat): seq<Event> {
    if w.at.Send? && w.at.lane == l then [w.at.ev] else []
  }

  // Drops of lane l swapped out of pending and not yet told or given back.
  function Held(w: Worker, l: nat): nat {
    match w.at
    case Drain(counts) => if l < |counts| then counts[l] else 0
    case Notify(counts) => if l < |counts| then counts[l] else 0
    case Restore(counts, done) => if done <= l < |counts| then counts[l] else 0
    case _ => 0
  }

  function InFlight(w: Worker, l: nat): nat {
    if w.dropping == Some(l) then 1 else 0
  }

  // What the delivered notices told the sink about lane l.
  function Told(notices: seq<seq<nat>>, l: nat): nat {
    if notices == [] then 0
    else
      var last := notices[|notices| - 1];
      Told(notices[..|notices| - 1], l) + if l < |last| then last[l] else 0
  }

  ghost predicate LaneOk(lane: Lane, inHand: seq<Event>, held: nat, told: nat, inFlight: nat) {
    && lane.accepted == lane.handled + inHand + lane.queue
    && |lane.dropped| == lane.pending + held + told + inFlight
    && |lane.queue| <= lane.cap && Merges(lane.offered, lane.accepted, lane.dropped)
  }

  // Every element of all is the next one of a or the next one of b, and there are no others.
  ghost predicate Merges<T>(all: seq<T>, a: seq<T>, b: seq<T>) {
    if all == [] then a == [] && b == []
    else
      var n, last := |all| - 1, all[|all| - 1];
      || (a != [] && a[|a| - 1] == last && Merges(all[..n], a[..|a| - 1], b))
      || (b != [] && b[|b| - 1] == last && Merges(all[..n], a, b[..|b| - 1]))
  }

  lemma MergesMore<T>(all: seq<T>, a: seq<T>, b: seq<T>, x: T)
    requires Merges(all, a, b)
    ensures Merges(all + [x], a + [x], b) && Merges(all + [x], a, b + [x])
  {
    assert (all + [x])[..|all|] == all && (a + [x])[..|a|] == a && (b + [x])[..|b|] == b;
  }

  ghost predicate LaneOkIn(w: Worker, l: nat)
    requires l < |w.lanes|
  {
    LaneOk(w.lanes[l], InHand(w, l), Held(w, l), Told(w.notices, l), InFlight(w, l))
  }

  // Since a lane was found empty in this call, its queue holds just what it accepted since.
  ghost predicate MarkOk(lane: Lane, mark: nat) {
    mark <= |lane.accepted| && lane.queue == lane.accepted[mark..]
  }

  ghost predicate PointOk(w: Worker)
    requires |w.lanes| == LANES
  {
    match w.at
    case Scan(marks) => |marks| <= LANES && forall l :: 0 <= l < |marks| ==> MarkOk(w.lanes[l], marks[l])
    case Send(_, l) => l < LANES
    case Drain(counts) => |counts| <= LANES
    case Notify(counts) => |counts| == LANES
    case Restore(counts, done) => |counts| == LANES && done <= LANES
    case Stopped => true
  }

  ghost predicate Inv(w: Worker) {
    && |w.lanes| == LANES && PointOk(w) && (w.dropping.Some? ==> w.dropping.value < LANES)
    && forall l :: 0 <= l < LANES ==> LaneOkIn(w, l)
  }

  lemma OfferedLaneOk(lane: Lane, ev: Event, inHand: seq<Event>, held: nat, told: nat)
    requires LaneOk(lane, inHand, held, told, 0)
    ensures LaneOk(Offered(lane, ev), inHand, held, told, if |lane.queue| >= lane.cap then 1 else 0)
  {
    MergesMore(lane.offered, lane.accepted, lane.dropped, ev);
    assert lane.handled + inHand + (lane.queue + [ev]) == lane.accepted + [ev];
  }

  lemma OfferedMarkOk(lane: Lane, ev: Event, mark: nat)
    requires MarkOk(lane, mark)
    ensures MarkOk(Offered(lane, ev), mark)
  {
    assert lane.accepted[mark..] + [ev] == (lane.accepted + [ev])[mark..];
  }

  lemma OfferKeepsInv(w: Worker, ev: Event, k: nat)
    requires Inv(w) && k < LANES
    ensures Inv(OfferTo(w, ev, k))
  {
    var v := OfferTo(w, ev, k);
    if w.dropping.None? {
      forall l | 0 <= l < LANES ensures LaneOkIn(v, l) {
        assert LaneOkIn(w, l);
        if l == k { OfferedLaneOk(w.lanes[l], ev, InHand(w, l), Held(w, l), Told(w.notices, l)); }
      }
      if w.at.Scan? && k < |w.at.marks| { OfferedMarkOk(w.lanes[k], ev, w.at.marks[k]); }
    }
  }

  lemma CountDropKeepsInv(w: Worker)
    requires Inv(w)
    ensures Inv(CountDropStep(w))
  {
    var v := CountDropStep(w);
    forall l | 0 <= l < LANES ensures LaneOkIn(v, l) { assert LaneOkIn(w, l); }
  }

  lemma TakeKeepsInv(w: Worker, k: nat)
    requires Inv(w) && w.at.Scan? && k < LANES && w.lanes[k].queue != []
    ensures Inv(Take(w, k))
  {
    var v := Take(w, k);
    forall l | 0 <= l < LANES ensures LaneOkIn(v, l) { assert LaneOkIn(w, l); }
  }

  lemma PollKeepsInv(w: Worker)
    requires Inv(w)
    ensures Inv(PollStep(w))
  {
    var v := PollStep(w);
    if w.at.Scan? && |w.at.marks| < LANES && w.lanes[|w.at.marks|].queue != [] {
      TakeKeepsInv(w, |w.at.marks|);
    } else {
      forall l | 0 <= l < LANES ensures LaneOkIn(v, l) { assert LaneOkIn(w, l); }
    }
  }

  lemma SentKeepsInv(w: Worker, ok: bool)
    requires Inv(w)
    ensures Inv(SentStep(w, ok))
  {
    var v := SentStep(w, ok);
    forall l | 0 <= l < LANES ensures LaneOkIn(v, l) { assert LaneOkIn(w, l); }
  }

  lemma SwapKeepsInv(w: Worker)
    requires Inv(w)
    ensures Inv(SwapStep(w))
  {
    var v := SwapStep(w);
    forall l | 0 <= l < LANES ensures LaneOkIn(v, l) { assert LaneOkIn(w, l); }
  }

  lemma NoticeKeepsInv(w: Worker, ok: bool)
    requires Inv(w)
    ensures Inv(NoticeStep(w, ok))
  {
    var v := NoticeStep(w, ok);
    forall l | 0 <= l < LANES ensures LaneOkIn(v, l) {
      assert LaneOkIn(w, l);
      if w.at.Notify? { assert (w.notices + [w.at.counts])[..|w.notices|] == w.notices; }
    }
  }

  lemma GiveBackKeepsInv(w: Worker)
    requires Inv(w)
    ensures Inv(GiveBackStep(w))
  {
    var v := GiveBackStep(w);
    forall l | 0 <= l < LANES ensures LaneOkIn(v, l) { assert LaneOkIn(w, l); }
  }

  lemma HaltKeepsInv(w: Worker)
    requires Inv(w)
    ensures Inv(HaltStep(w))
  {
    forall l | 0 <= l < LANES ensures LaneOkIn(HaltStep(w), l) { assert LaneOkIn(w, l); }
  }

  lemma StepKeepsInv(w: Worker, a: Action)
    requires Inv(w)
    ensures Inv(Step(w, a))
  {
    match a
    case Offer(ev) => OfferKeepsInv(w, ev, LaneIndex(ev.eventType));
    case CountDrop => CountDropKeepsInv(w);
    case Poll => PollKeepsInv(w);
    case Wake(l) => if WakeStep(w, l) != w { TakeKeepsInv(w, l); }
    case Halt => HaltKeepsInv(w);
    case Sent(ok) => SentKeepsInv(w, ok);
    case Swap => SwapKeepsInv(w);
    case NoticeSent(ok) => NoticeKeepsInv(w, ok);
    case GiveBack => GiveBackKeepsInv(w);
  }

  function Run(bufSize: nat, actions: seq<Action>): (w: Worker)
    ensures |w.lanes| == LANES
  {
    if actions == [] then Fresh(bufSize) else Step(Run(bufSize, actions[..|actions| - 1]), actions[|actions| - 1])
  }

  lemma {:induction false} RunKeepsInv(bufSize: nat, actions: seq<Action>)
    ensures Inv(Run(bufSize, actions))
  {
    if actions == [] {
      forall l | 0 <= l < LANES ensures LaneOkIn(Fresh(bufSize), l) {}
    } else {
      RunKeepsInv(bufSize, actions[..|actions| - 1]);
      StepKeepsInv(Run(bufSize, actions[..|actions| - 1]), actions[|actions| - 1]);
    }
  }

  ghost predicate Conserved(w: Worker, l: nat)
    requires l < |w.lanes|
  {
    && Merges(w.lanes[l].offered, w.lanes[l].accepted, w.lanes[l].dropped)
    && w.lanes[l].accepted == w.lanes[l].handled + InHand(w, l) + w.lanes[l].queue
    && |w.lanes[l].queue| <= w.lanes[l].cap
  }

  ghost predicate DebtKept(w: Worker, l: nat)
    requires l < |w.lanes|
  {
    |w.lanes[l].dropped| == w.lanes[l].pending + Held(w, l) + Told(w.notices, l) + InFlight(w, l)
  }

  /**
   * Under every interleaving, in each lane: what was offered is, in order, what was accepted and what was dropped;
   * what was accepted is, in order, what was handled, the event in hand and the queue; and the queue is bounded.
   */
  lemma EventsConserved(bufSize: nat, actions: seq<Action>, l: nat)
    requires l < LANES
    ensures Conserved(Run(bufSize, actions), l)
  {
    RunKeepsInv(bufSize, actions);
    assert LaneOkIn(Run(bufSize, actions), l);
  }

  /** Under every interleaving each drop is pending, held by an unfinished notice, told, or just being counted. */
  lemma DropDebt(bufSize: nat, actions: seq<Action>, l: nat)
    requires l < LANES
    ensures DebtKept(Run(bufSize, actions), l)
  {
    RunKeepsInv(bufSize, actions);
    assert LaneOkIn(Run(bufSize, actions), l);
  }

  /** A lane loses an event only to an offer made while that lane itself is full. */
  lemma DroppedIffFull(w: Worker, a: Action, l: nat)
    requires Inv(w) && l < LANES
    ensures Step(w, a).lanes[l].dropped != w.lanes[l].dropped <==>
              a.Offer? && w.dropping.None? && LaneIndex(a.ev.eventType) == l && |w.lanes[l].queue| == w.lanes[l].cap
  {
    assert LaneOkIn(w, l);
  }

  // ----- counters -------------------------------------------------------------------------

  // How many of the answers are a.
  function Answers(answers: seq<bool>, a: bool): nat {
    if answers == [] then 0
    else Answers(answers[..|answers| - 1], a) + if answers[|answers| - 1] == a then 1 else 0
  }

  lemma OneAnswer(answers: seq<bool>, b: bool, a: bool)
    ensures Answers(answers + [b], a) == Answers(answers, a) + if a == b then 1 else 0
  {
    assert (answers + [b])[..|answers|] == answers;
  }

  // The events the sink took, or did not take.
  function Answered(w: Worker, a: bool): nat
    requires |w.lanes| == LANES
  {
    Answers(w.lanes[0].answers, a) + Answers(w.lanes[1].answers, a) + Answers(w.lanes[2].answers, a)
  }

  // Each handled event has its answer, and each attempt at an event or a notice is counted by its outcome.
  ghost predicate Totals(w: Worker) {
    && |w.lanes| == LANES && (forall l :: 0 <= l < LANES ==> |w.lanes[l].answers| == |w.lanes[l].handled|)
    && w.delivered == Answered(w, true) + |w.notices| && w.failed == Answered(w, false) + w.refused
  }

  ghost predicate SameHistory(w: Worker, v: Worker) {
    && |w.lanes| == |v.lanes| == LANES
    && forall l :: 0 <= l < LANES ==> v.lanes[l].answers == w.lanes[l].answers && v.lanes[l].handled == w.lanes[l].handled
  }

  lemma SameTotals(w: Worker, v: Worker)
    requires Totals(w) && SameHistory(w, v)
    requires v.delivered - w.delivered == |v.notices| - |w.notices| && v.failed - w.failed == v.refused - w.refused
    ensures Totals(v)
  {
    assert forall a :: Answered(v, a) == Answered(w, a);
  }

  lemma SentLane(w: Worker, ok: bool, l: nat, a: bool)
    requires |w.lanes| == LANES && w.at.Send? && w.at.lane < LANES && l < LANES
    ensures var lane, now, more := w.lanes[l], SentStep(w, ok).lanes[l], if l == w.at.lane then 1 else 0;
            && |now.answers| == |lane.answers| + more && |now.handled| == |lane.handled| + more
            && Answers(now.answers, a) == Answers(lane.answers, a) + if a == ok then more else 0
  {
    OneAnswer(w.lanes[l].answers, ok, a);
  }

  lemma SentAnswered(w: Worker, ok: bool, a: bool)
    requires |w.lanes| == LANES && w.at.Send? && w.at.lane < LANES
    ensures Answered(SentStep(w, ok), a) == Answered(w, a) + if a == ok then 1 else 0
  {
    SentLane(w, ok, 0, a);
    SentLane(w, ok, 1, a);
    SentLane(w, ok, 2, a);
  }

  lemma SentKeepsTotals(w: Worker, ok: bool)
    requires Totals(w)
    ensures Totals(SentStep(w, ok))
  {
    if w.at.Send? && w.at.lane < LANES {
      SentAnswered(w, ok, true);
      SentAnswered(w, ok, false);
      forall l | 0 <= l < LANES ensures |SentStep(w, ok).lanes[l].answers| == |SentStep(w, ok).lanes[l].handled| {
        SentLane(w, ok, l, ok);
      }
    }
  }

  lemma TakeSame(w: Worker, l: nat)
    requires |w.lanes| == LANES && l < LANES && w.lanes[l].queue != []
    ensures SameHistory(w, Take(w, l))
  {
  }

  lemma MoveSame(w: Worker, a: Action)
    requires |w.lanes| == LANES && (a.Poll? || a.Wake? || a.Halt?)
    ensures var v := Step(w, a);
            SameHistory(w, v) && v.delivered == w.delivered && v.failed == w.failed && v.notices == w.notices && v.refused == w.refused
  {
    match a
    case Poll => if w.at.Scan? && |w.at.marks| < LANES && w.lanes[|w.at.marks|].queue != [] { TakeSame(w, |w.at.marks|); }
    case Wake(l) => if l < LANES && w.lanes[l].queue != [] { TakeSame(w, l); }
    case Halt =>
  }

  lemma CountSame(w: Worker, a: Action)
    requires |w.lanes| == LANES && (a.Swap? || a.GiveBack? || a.CountDrop? || a.Offer?)
    ensures var v := Step(w, a);
            SameHistory(w, v) && v.delivered == w.delivered && v.failed == w.failed && v.notices == w.notices && v.refused == w.refused
  {
  }

  lemma NoticeSame(w: Worker, ok: bool)
    requires |w.lanes| == LANES
    ensures var v := NoticeStep(w, ok);
            SameHistory(w, v) && v.delivered - w.delivered == |v.notices| - |w.notices| && v.failed - w.failed == v.refused - w.refused
  {
  }

  lemma StepKeepsTotals(w: Worker, a: Action)
    requires |w.lanes| == LANES && Totals(w)
    ensures Totals(Step(w, a))
  {
    match a
    case Sent(ok) => SentKeepsTotals(w, ok);
    case NoticeSent(ok) => NoticeSame(w, ok); SameTotals(w, NoticeStep(w, ok));
    case Poll => MoveSame(w, a); SameTotals(w, Step(w, a));
    case Wake(_) => MoveSame(w, a); SameTotals(w, Step(w, a));
    case Halt => MoveSame(w, a); SameTotals(w, Step(w, a));
    case _ => CountSame(w, a); SameTotals(w, Step(w, a));
  }

  // ----- priority -------------------------------------------------------------------------

  // The worker is in a call that has polled lane m and found it empty, mark events having been accepted by then.
  ghost predicate Past(w: Worker, m: nat, mark: nat) {
    w.at.Scan? && m < |w.at.marks| && w.at.marks[m] == mark
  }

  // Action n polls lane m and finds it empty, and the call has not ended since.
  ghost predicate SeenEmptyAt(bufSize: nat, actions: seq<Action>, n: nat, m: nat, mark: nat) {
    && n < |actions| && actions[n] == Poll && m < LANES
    && FindsEmpty(Run(bufSize, actions[..n]), m, mark)
    && forall k :: n < k <= |actions| ==> Past(Run(bufSize, actions[..k]), m, mark)
  }

  ghost predicate FindsEmpty(w: Worker, m: nat, mark: nat)
    requires |w.lanes| == LANES && m < LANES
  {
    w.at.Scan? && |w.at.marks| == m && w.lanes[m].queue == [] && |w.lanes[m].accepted| == mark
  }

  lemma StepPast(w: Worker, a: Action, m: nat, mark: nat)
    requires Inv(w) && m < LANES && Past(Step(w, a), m, mark)
    ensures Past(w, m, mark) || (a == Poll && FindsEmpty(w, m, mark))
  {
  }

  lemma ExtendsSeen(bufSize: nat, actions: seq<Action>, front: seq<Action>, n: nat, m: nat, mark: nat)
    requires |actions| == |front| + 1 && front == actions[..|front|]
    requires SeenEmptyAt(bufSize, front, n, m, mark) && Past(Run(bufSize, actions), m, mark)
    ensures SeenEmptyAt(bufSize, actions, n, m, mark)
  {
    assert front[..n] == actions[..n];
    forall k | n < k <= |actions| ensures Past(Run(bufSize, actions[..k]), m, mark) {
      if k == |actions| { assert actions[..k] == actions; } else { assert actions[..k] == front[..k]; }
    }
  }

  lemma StartsSeen(bufSize: nat, actions: seq<Action>, front: seq<Action>, m: nat, mark: nat)
    requires |actions| == |front| + 1 && front == actions[..|front|] && m < LANES && actions[|front|] == Poll
    requires FindsEmpty(Run(bufSize, front), m, mark) && Past(Run(bufSize, actions), m, mark)
    ensures SeenEmptyAt(bufSize, actions, |front|, m, mark)
  {
    assert actions[..|actions|] == actions;
  }

  lemma {:induction false} PolledEmpty(bufSize: nat, actions: seq<Action>, m: nat, mark: nat) returns (n: nat)
    requires m < LANES && Past(Run(bufSize, actions), m, mark)
    ensures SeenEmptyAt(bufSize, actions, n, m, mark)
  {
    var front := actions[..|actions| - 1];
    RunKeepsInv(bufSize, front);
    StepPast(Run(bufSize, front), actions[|actions| - 1], m, mark);
    if Past(Run(bufSize, front), m, mark) {
      n := PolledEmpty(bufSize, front, m, mark);
      ExtendsSeen(bufSize, actions, front, n, m, mark);
    } else {
      n := |front|;
      StartsSeen(bufSize, actions, front, m, mark);
    }
  }

  // In this state the worker can take an event from lane l.
  ghost predicate MayTake(w: Worker, l: nat)
    requires |w.lanes| == LANES && l < LANES
  {
    w.at.Scan? && (|w.at.marks| == l || |w.at.marks| == LANES) && w.lanes[l].queue != []
  }

  /**
   * A lane is served only after each higher lane was polled and found empty in the same call, and such a
   * lane has events waiting then exactly when it has accepted some since that poll.
   */
  lemma HigherLanesWereEmpty(bufSize: nat, actions: seq<Action>, l: nat, m: nat) returns (n: nat, mark: nat)
    requires m < l < LANES && MayTake(Run(bufSize, actions), l)
    ensures SeenEmptyAt(bufSize, actions, n, m, mark)
    ensures Run(bufSize, actions).lanes[m].queue != [] <==> |Run(bufSize, actions).lanes[m].accepted| > mark
  {
    var w := Run(bufSize, actions);
    RunKeepsInv(bufSize, actions);
    mark := w.at.marks[m];
    n := PolledEmpty(bufSize, actions, m, mark);
    assert MarkOk(w.lanes[m], mark);
  }

  // ----- not always the highest lane ------------------------------------------------------

  lemma Snoc(bufSize: nat, actions: seq<Action>, a: Action)
    ensures Run(bufSize, actions + [a]) == Step(Run(bufSize, actions), a)
  {
    assert (actions + [a])[..|actions|] == actions;
  }

  lemma ThreePolls() returns (actions: seq<Action>)
    ensures Run(1, actions) == Fresh(1).(at := Scan([0, 0, 0]))
  {
    Snoc(1, [], Poll);
    Snoc(1, [] + [Poll], Poll);
    Snoc(1, [] + [Poll] + [Poll], Poll);
    actions := [] + [Poll] + [Poll] + [Poll];
    assert Run(1, [] + [Poll]).at == Scan([0]);
    assert Run(1, [] + [Poll] + [Poll]).at == Scan([0, 0]);
    assert Run(1, actions).at == Scan([0, 0, 0]);
  }

  // Room in lane l of an idle worker.
  lemma OfferFits(w: Worker, ev: Event, l: nat)
    requires |w.lanes| == LANES && l == LaneIndex(ev.eventType) && w.dropping.None? && w.lanes[l].queue == [] && w.lanes[l].cap > 0
    ensures var v := Step(w, Offer(ev)); v.at == w.at && v.dropping.None? && v.lanes == w.lanes[l := v.lanes[l]] && v.lanes[l].queue == [ev]
  {
  }

  /** While the worker waits on all lanes it may take a bulk event although a security event is there. */
  lemma NotAlwaysHighest() returns (actions: seq<Action>)
    ensures MayTake(Run(1, actions), BULK) && Run(1, actions).lanes[SECURITY].queue != []
  {
    var polls := ThreePolls();
    var bulk, urgent := Event(1, "request."), Event(2, "");
    Snoc(1, polls, Offer(bulk));
    OfferFits(Run(1, polls), bulk, BULK);
    Snoc(1, polls + [Offer(bulk)], Offer(urgent));
    OfferFits(Run(1, polls + [Offer(bulk)]), urgent, SECURITY);
    actions := polls + [Offer(bulk)] + [Offer(urgent)];
  }

  // ----- turns nobody disturbs ------------------------------------------------------------------

  function Polls(w: Worker, n: nat): Worker
    requires |w.lanes| == LANES
    ensures |Polls(w, n).lanes| == LANES
  {
    if n == 0 then w else PollStep(Polls(w, n - 1))
  }

  lemma {:induction false} EmptyPolls(w: Worker, n: nat)
    requires |w.lanes| == LANES && w.at == Scan([]) && n <= LANES && forall l :: 0 <= l < n ==> w.lanes[l].queue == []
    ensures Polls(w, n) == w.(at := Polls(w, n).at) && Polls(w, n).at.Scan? && |Polls(w, n).at.marks| == n
    decreases n
  {
    if n > 0 { EmptyPolls(w, n - 1); }
  }

  // The head of lane l is out of its queue and being sent.
  ghost predicate TakenFrom(w: Worker, v: Worker, l: nat)
    requires l < |w.lanes| && w.lanes[l].queue != []
  {
    v == w.(at := Send(w.lanes[l].queue[0], l), lanes := w.lanes[l := w.lanes[l].(queue := w.lanes[l].queue[1..])])
  }

  /** Undisturbed a call takes the oldest event of the highest lane that has one; with none it waits, and then takes the
      first that comes. */
  lemma TakesHighest(w: Worker, l: nat)
    requires |w.lanes| == LANES && w.at == Scan([]) && l <= LANES && forall k :: 0 <= k < l ==> w.lanes[k].queue == []
    ensures l < LANES && w.lanes[l].queue != [] ==> TakenFrom(w, Polls(w, l + 1), l)
    ensures l == LANES ==> forall k, ev :: 0 <= k < LANES ==> WakesFor(Polls(w, LANES), k, ev)
  {
    EmptyPolls(w, l);
  }

  // The waiting worker takes the event once it is in lane k.
  ghost predicate WakesFor(v: Worker, k: nat, ev: Event)
    requires |v.lanes| == LANES && k < LANES
  {
    var u := v.(lanes := v.lanes[k := v.lanes[k].(queue := [ev])]);
    TakenFrom(u, WakeStep(u, k), k)
  }

  function Swaps(w: Worker, n: nat): Worker
    requires |w.lanes| == LANES
    ensures |Swaps(w, n).lanes| == LANES
  {
    if n == 0 then w else SwapStep(Swaps(w, n - 1))
  }

  function GivesBack(w: Worker, n: nat): Worker
    requires |w.lanes| == LANES
    ensures |GivesBack(w, n).lanes| == LANES
  {
    if n == 0 then w else GiveBackStep(GivesBack(w, n - 1))
  }

  ghost predicate PendingIs(w: Worker, a: nat, b: nat, c: nat) {
    |w.lanes| == LANES && w.lanes[0].pending == a && w.lanes[1].pending == b && w.lanes[2].pending == c
  }

  // v is w but for its point and its pending counts.
  ghost predicate OnlyPending(w: Worker, v: Worker) {
    && |v.lanes| == |w.lanes| == LANES && v == w.(at := v.at, lanes := v.lanes)
    && forall l :: 0 <= l < LANES ==> v.lanes[l] == w.lanes[l].(pending := v.lanes[l].pending)
  }

  /** After a delivery the pending drops of the three lanes are collected; with none the worker goes on, else it sends
      a notice of just these numbers. A notice that arrives clears them, one that does not puts them back. */
  lemma NoticeTurn(w: Worker, a: nat, b: nat, c: nat)
    requires PendingIs(w, a, b, c) && w.at == Drain([])
    ensures OnlyPending(w, Swaps(w, 4)) && PendingIs(Swaps(w, 4), 0, 0, 0)
    ensures Swaps(w, 4).at == if a + b + c == 0 then Scan([]) else Notify([a, b, c])
    ensures a + b + c > 0 ==>
              && NoticeStep(Swaps(w, 4), true)
                 == Swaps(w, 4).(at := Scan([]), notices := w.notices + [[a, b, c]], delivered := w.delivered + 1)
              && var v := NoticeStep(Swaps(w, 4), false);
                 && v == Swaps(w, 4).(at := Restore([a, b, c], 0), refused := w.refused + 1, failed := w.failed + 1)
                 && GivesBack(v, 4).at == Scan([]) && PendingIs(GivesBack(v, 4), a, b, c) && OnlyPending(v, GivesBack(v, 4))
  {
    SwapsAre(w, a, b, c);
    if a + b + c > 0 { GivesBackAre(NoticeStep(Swaps(w, 4), false), a, b, c); }
  }

  lemma SwapsAre(w: Worker, a: nat, b: nat, c: nat)
    requires PendingIs(w, a, b, c) && w.at == Drain([])
    ensures OnlyPending(w, Swaps(w, 4)) && PendingIs(Swaps(w, 4), 0, 0, 0)
    ensures Swaps(w, 4).at == if a + b + c == 0 then Scan([]) else Notify([a, b, c])
  {
    var w1 := SwapStep(w);
    var w2 := SwapStep(w1);
    var w3 := SwapStep(w2);
    assert Swaps(w, 1) == SwapStep(Swaps(w, 0)) == w1;
    assert Swaps(w, 2) == SwapStep(Swaps(w, 1)) == w2;
    assert Swaps(w, 3) == SwapStep(Swaps(w, 2)) == w3;
    assert Swaps(w, 4) == SwapStep(Swaps(w, 3));
    assert w3.at.counts == [a, b, c] && w3.at.counts[0] == a && w3.at.counts[1] == b && w3.at.counts[2] == c;
  }

  lemma GivesBackAre(w: Worker, a: nat, b: nat, c: nat)
    requires PendingIs(w, 0, 0, 0) && w.at == Restore([a, b, c], 0)
    ensures GivesBack(w, 4).at == Scan([]) && PendingIs(GivesBack(w, 4), a, b, c) && OnlyPending(w, GivesBack(w, 4))
  {
    var w1 := GiveBackStep(w);
    var w2 := GiveBackStep(w1);
    var w3 := GiveBackStep(w2);
    assert GivesBack(w, 1) == GiveBackStep(GivesBack(w, 0)) == w1;
    assert GivesBack(w, 2) == GiveBackStep(GivesBack(w, 1)) == w2;
    assert GivesBack(w, 3) == GiveBackStep(GivesBack(w, 2)) == w3;
    assert GivesBack(w, 4) == GiveBackStep(GivesBack(w, 3));
  }

  /** A delivery is counted and put on record by its outcome; only after a good one is there a notice to see to. */
  lemma SentTurn(w: Worker, ok: bool)
    requires |w.lanes| == LANES && w.at.Send? && w.at.lane < LANES
    ensures var l, v := w.at.lane, SentStep(w, ok);
            && v == w.(at := if ok then Drain([]) else Scan([]), delivered := w.delivered + (if ok then 1 else 0),
                       failed := w.failed + (if ok then 0 else 1), lanes := v.lanes)
            && v.lanes == w.lanes[l := w.lanes[l].(handled := w.lanes[l].handled + [w.at.ev], answers := w.lanes[l].answers + [ok])]
  {
  }

  /** A lane takes an event exactly while it has room; a full one drops it, and the drop is then added to its count. */
  lemma OfferTurn(w: Worker, ev: Event, l: nat)
    requires |w.lanes| == LANES && l < LANES && w.dropping.None?
    ensures var lane, v := w.lanes[l], OfferTo(w, ev, l);
            if |lane.queue| < lane.cap
            then v == w.(lanes := w.lanes[l := lane.(queue := lane.queue + [ev], offered := lane.offered + [ev], accepted := lane.accepted + [ev])])
            else CountDropStep(v) == w.(lanes := w.lanes[l := lane.(offered := lane.offered + [ev], dropped := lane.dropped + [ev], pending := lane.pending + 1)])
  {
  }

  /** A worker is stopped before a call or while it waits in one, and otherwise finishes what it does first. */
  lemma HaltTurn(w: Worker)
    ensures HaltStep(w) == if w.at.Scan? && |w.at.marks| in {0, LANES} then w.(at := Stopped) else w
  {
  }

  /** The lanes hold four, two and one times the buffer size, and start empty with nothing owed. */
  lemma FreshIs(bufSize: nat)
    ensures var w := Fresh(bufSize);
            && |w.lanes| == 3 && w.lanes[0].cap == 4 * bufSize && w.lanes[1].cap == 2 * bufSize && w.lanes[2].cap == bufSize
            && (forall l :: 0 <= l < 3 ==> w.lanes[l] == Lane(w.lanes[l].cap, [], 0, [], [], [], [], []))
            && w == Worker(w.lanes, Scan([]), None, [], 0, 0, 0)
  {
  }
}
