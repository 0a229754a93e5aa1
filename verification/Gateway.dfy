/**
  The proxy with one failover.  Each request is cut at its awaits: choosing a lane, sending an attempt once the
  request's body has been read, and handling what came back of it.  Between two of these any other request may
  run, so the contracts hold for every interleaving.
 */
module Gateway {
  import opened Options
  import opened LaneMetrics
  import opened Lanes
  import opened Selection
  import opened Storage
  import Decimal

  datatype Outcome = Response(status: int) | TransportError(text: string) {
    predicate Failed() { TransportError? || status >= 500 }

    /** The error text recorded with a failed attempt; that of a transport error may be empty. */
    function ErrorText(): string {
      if TransportError? then text else if status >= 500 then "HTTP " + Decimal.Text(status) else ""
    }
  }

  /** A request whose lane is chosen and whose body is still being read. */
  datatype Waiting = Waiting(model: string, lane: nat)

  datatype Flight = Flight(model: string, lane: nat, failover: bool)

  datatype Reply = Pending | Answer(status: int, lane: string, failover: bool) | Unavailable

  /** One finished attempt. */
  datatype Done = Done(model: string, lane: string, ms: real, outcome: Outcome)

  function LogOf(done: seq<Done>): (log: seq<Event>)
    ensures |log| == |done|
    ensures forall i :: 0 <= i < |done| ==>
              log[i] == Event(done[i].model, done[i].lane, done[i].ms, done[i].outcome.ErrorText())
  {
    seq(|done|, i requires 0 <= i < |done| =>
      Event(done[i].model, done[i].lane, done[i].ms, done[i].outcome.ErrorText()))
  }

  lemma LogGrows(base: seq<Event>, done: seq<Done>, d: Done)
    ensures base + LogOf(done + [d]) == base + LogOf(done) + [Event(d.model, d.lane, d.ms, d.outcome.ErrorText())]
  {
    assert LogOf(done + [d]) == LogOf(done) + [Event(d.model, d.lane, d.ms, d.outcome.ErrorText())];
  }

  datatype Clock = Clock(marked: real, tested: real, restarted: real, reselected: real)

  // ---- the books of attempts ---------------------------------------------

  /** Attempts sent and finished, those in flight by request, and the lanes each request has tried. */
  datatype Books = Books(sent: nat, finished: nat, nextId: nat, inFlight: map<nat, Flight>, tries: map<nat, seq<nat>>) {
    /** Nothing is lost, and no request tries more than two lanes, nor one twice. */
    ghost predicate Balanced(lanes: nat) { Counted() && Known(lanes) }

    predicate Counted() { finished + |inFlight| == sent == TotalTries(tries, nextId) }

    ghost predicate Known(lanes: nat) {
      && (forall id: nat :: id in tries <==> id < nextId)
      && (forall id: nat :: id in tries ==> GoodTries(tries[id], lanes))
      && (forall id: nat :: id in inFlight ==> id in tries && Matches(inFlight[id], tries[id]))
    }
  }

  /** The lanes tried by the first n requests, counted. */
  function TotalTries(tries: map<nat, seq<nat>>, n: nat): nat {
    if n == 0 then 0
    else TotalTries(tries, n - 1) + if n - 1 in tries then |tries[n - 1]| else 0
  }

  lemma {:induction false} TriesUpdated(tries: map<nat, seq<nat>>, n: nat, id: nat, t: seq<nat>)
    ensures TotalTries(tries[id := t], n) ==
            if id >= n then TotalTries(tries, n)
            else TotalTries(tries, n) + |t| - (if id in tries then |tries[id]| else 0)
  {
    if n > 0 {
      TriesUpdated(tries, n - 1, id, t);
    }
  }

  predicate GoodTries(t: seq<nat>, lanes: nat) {
    && 1 <= |t| <= 2 && (forall k :: 0 <= k < |t| ==> t[k] < lanes)
    && (|t| == 2 ==> t[0] != t[1])
  }

  predicate Matches(f: Flight, t: seq<nat>) {
    t != [] && f.lane == t[|t| - 1] && f.failover == (|t| == 2)
  }

  function Opened(b: Books, model: string, lane: nat): Books {
    Books(b.sent + 1, b.finished, b.nextId + 1, b.inFlight[b.nextId := Flight(model, lane, false)],
          b.tries[b.nextId := [lane]])
  }

  function Closed(b: Books, id: nat): Books {
    b.(finished := b.finished + 1, inFlight := b.inFlight - {id})
  }

  function Resent(b: Books, id: nat, lane: nat): Books
    requires id in b.inFlight && id in b.tries
  {
    b.(sent := b.sent + 1, finished := b.finished + 1,
       inFlight := b.inFlight[id := Flight(b.inFlight[id].model, lane, true)],
       tries := b.tries[id := b.tries[id] + [lane]])
  }

  lemma OpenedCounted(b: Books, model: string, lane: nat)
    requires b.Counted() && b.nextId !in b.inFlight
    ensures Opened(b, model, lane).Counted()
  {
    assert Opened(b, model, lane).inFlight.Keys == b.inFlight.Keys + {b.nextId};
    TriesUpdated(b.tries, b.nextId, b.nextId, [lane]);
  }

  lemma OpenedKnown(b: Books, model: string, lane: nat, lanes: nat)
    requires b.Known(lanes) && lane < lanes
    ensures Opened(b, model, lane).Known(lanes)
  {
    var after := Opened(b, model, lane);
    forall id | id in after.tries ensures GoodTries(after.tries[id], lanes) {
    }
    forall id | id in after.inFlight ensures id in after.tries && Matches(after.inFlight[id], after.tries[id]) {
    }
  }

  lemma OpenedBalanced(b: Books, model: string, lane: nat, lanes: nat)
    requires b.Balanced(lanes) && lane < lanes
    ensures Opened(b, model, lane).Balanced(lanes)
  {
    OpenedCounted(b, model, lane);
    OpenedKnown(b, model, lane, lanes);
  }

  lemma ClosedBalanced(b: Books, id: nat, lanes: nat)
    requires b.Balanced(lanes) && id in b.inFlight
    ensures Closed(b, id).Balanced(lanes)
  {
  }

  lemma ResentCounted(b: Books, id: nat, lane: nat)
    requires b.Counted() && id in b.inFlight && id in b.tries && id < b.nextId
    ensures Resent(b, id, lane).Counted()
  {
    assert Resent(b, id, lane).inFlight.Keys == b.inFlight.Keys;
    TriesUpdated(b.tries, b.nextId, id, b.tries[id] + [lane]);
  }

  lemma ResentBalanced(b: Books, id: nat, lane: nat, lanes: nat)
    requires b.Balanced(lanes) && id in b.inFlight && !b.inFlight[id].failover
    requires lane < lanes && lane != b.inFlight[id].lane
    ensures Resent(b, id, lane).Balanced(lanes)
  {
    ResentCounted(b, id, lane);
  }

  /** What one poll learns about one lane. */
  datatype Report = Report(reachable: bool, residents: seq<Resident>, gpu: Option<GpuInfo>)

  // ---- marks -------------------------------------------------------------

  /** The outcomes in a lane's history, in order: true for a failure, false for a success. */
  function Marks(h: seq<LaneEvent>): seq<bool> {
    if h == [] then []
    else
      match h[|h| - 1]
      case Failed(_, _, _) => Marks(h[..|h| - 1]) + [true]
      case Succeeded(_) => Marks(h[..|h| - 1]) + [false]
      case Polled(_, _, _) => Marks(h[..|h| - 1])
  }

  /** The outcomes of the attempts on one lane, in order. */
  function MarksOn(done: seq<Done>, lane: string): seq<bool> {
    if done == [] then []
    else
      var d := done[|done| - 1];
      MarksOn(done[..|done| - 1], lane) + if d.lane == lane then [d.outcome.Failed()] else []
  }

  /** A lane was marked once for each attempt on it, in order, since its history was `was`. */
  predicate Accounted(h: seq<LaneEvent>, was: seq<LaneEvent>, attempts: seq<Done>, lane: string) {
    Marks(h) == Marks(was) + MarksOn(attempts, lane)
  }

  lemma PollAccounted(h: seq<LaneEvent>, was: seq<LaneEvent>, attempts: seq<Done>, lane: string, e: LaneEvent)
    requires Accounted(h, was, attempts, lane) && e.Polled?
    ensures Accounted(h + [e], was, attempts, lane)
  {
    assert (h + [e])[..|h|] == h;
  }

  lemma MarkAccounted(
    h: seq<LaneEvent>, was: seq<LaneEvent>, attempts: seq<Done>, lane: string, e: LaneEvent, d: Done)
    requires Accounted(h, was, attempts, lane) && d.lane == lane
    requires if d.outcome.Failed() then e.Failed? else e.Succeeded?
    ensures Accounted(h + [e], was, attempts + [d], lane)
  {
    assert (h + [e])[..|h|] == h && (attempts + [d])[..|attempts|] == attempts;
    assert Marks(h + [e]) == Marks(h) + [d.outcome.Failed()];
    assert MarksOn(attempts + [d], lane) == MarksOn(attempts, lane) + [d.outcome.Failed()];
  }

  lemma OthersAccounted(h: seq<LaneEvent>, was: seq<LaneEvent>, attempts: seq<Done>, lane: string, d: Done)
    requires Accounted(h, was, attempts, lane) && d.lane != lane
    ensures Accounted(h, was, attempts + [d], lane)
  {
    assert (attempts + [d])[..|attempts|] == attempts;
    assert MarksOn(attempts + [d], lane) == MarksOn(attempts, lane) + [];
  }

  /** So it is with every lane, since the proxy started. */
  ghost predicate Marked(lanes: seq<LaneState>, started: seq<seq<LaneEvent>>, attempts: seq<Done>)
    reads lanes
  {
    && |started| == |lanes|
    && forall i {:trigger started[i]} :: 0 <= i < |lanes| ==>
         Accounted(lanes[i].history, started[i], attempts, lanes[i].cfg.name)
  }

  /** Every lane is what its own history of outcomes and polls makes of it. */
  ghost predicate Tracked(cfg: RouterConfig, lanes: seq<LaneState>)
    reads lanes
  {
    forall i :: 0 <= i < |lanes| ==> lanes[i].Tracks(cfg)
  }

  predicate Distinct(lanes: seq<LaneState>) {
    forall i, j :: 0 <= i < j < |lanes| ==> lanes[i] != lanes[j] && lanes[i].cfg.name != lanes[j].cfg.name
  }

  function ViewsOf(lanes: seq<LaneState>): (v: seq<Lane>)
    reads lanes
    ensures |v| == |lanes| && forall i :: 0 <= i < |v| ==> v[i] == lanes[i].View()
  {
    seq(|lanes|, i requires 0 <= i < |lanes| reads lanes => lanes[i].View())
  }

  lemma ViewsDistinct(lanes: seq<LaneState>)
    requires Distinct(lanes)
    ensures DistinctNames(ViewsOf(lanes))
  {
  }

  /** The lanes and the store after the given attempts, whatever was polled in between. */
  ghost predicate Logged(
    cfg: RouterConfig, lanes: seq<LaneState>, metrics: MetricsStore, started: seq<seq<LaneEvent>>, base: seq<Event>,
    attempts: seq<Done>)
    reads lanes, metrics
  {
    && Distinct(lanes) && Tracked(cfg, lanes) && Marked(lanes, started, attempts)
    && metrics.Valid() && metrics.log == base + LogOf(attempts)
  }

  // ---- the proxy ---------------------------------------------------------

  class Proxy {
    const cfg: RouterConfig
    const lanes: seq<LaneState>
    const metrics: MetricsStore
    const nameEstimate: string -> real
    var waiting: map<nat, Waiting>
    var inFlight: map<nat, Flight>
    var nextId: nat
    ghost const started: seq<seq<LaneEvent>>
    ghost const base: seq<Event>
    ghost var sent: nat
    ghost var tries: map<nat, seq<nat>>
    ghost var done: seq<Done>

    ghost function Ledger(): Books
      reads this
    {
      Books(sent, |done|, nextId, inFlight, tries)
    }

    ghost predicate InOrder(attempts: seq<Done>)
      reads lanes, metrics
    {
      Logged(cfg, lanes, metrics, started, base, attempts)
    }

    predicate WaitingKnown()
      reads this
    {
      forall t :: t in waiting ==> waiting[t].lane < |lanes|
    }

    ghost predicate Valid()
      reads this, lanes, metrics
    {
      InOrder(done) && Ledger().Balanced(|lanes|) && WaitingKnown()
    }

    function Views(): (v: seq<Lane>)
      reads lanes
      ensures v == ViewsOf(lanes)
    {
      ViewsOf(lanes)
    }

    function Asking(model: string, now: real): Request
      reads metrics
    {
      Request(model, now, CellsFor(metrics.data, model), nameEstimate, cfg.margin)
    }

    constructor (cfg: RouterConfig, lanes: seq<LaneState>, metrics: MetricsStore, nameEstimate: string -> real)
      requires Distinct(lanes) && Tracked(cfg, lanes) && metrics.Valid()
      ensures Valid() && Ledger() == Books(0, 0, 0, map[], map[]) && waiting == map[] && base == metrics.log
      ensures |started| == |lanes| && forall i :: 0 <= i < |lanes| ==> started[i] == lanes[i].history
      ensures this.lanes == lanes && this.metrics == metrics && this.cfg == cfg
    {
      this.cfg, this.lanes, this.metrics, this.nameEstimate := cfg, lanes, metrics, nameEstimate;
      waiting, inFlight, nextId := map[], map[], 0;
      started := seq(|lanes|, i requires 0 <= i < |lanes| reads lanes => lanes[i].history);
      base, sent, tries, done := metrics.log, 0, map[], [];
    }

    /** The poll between requests: every lane learns its own reading, and no request is touched. */
    method Refresh(reports: seq<Report>)
      requires Valid() && |reports| == |lanes|
      modifies lanes
      ensures Valid() && AllRefreshed(old(Views()), Views(), reports, |lanes|)
    {
      RefreshLanes(reports);
    }

    method RefreshLanes(reports: seq<Report>)
      requires |reports| == |lanes| && Distinct(lanes) && Tracked(cfg, lanes) && Marked(lanes, started, done)
      modifies lanes
      ensures unchanged(this)
      ensures Tracked(cfg, lanes) && Marked(lanes, started, done)
      ensures AllRefreshed(old(Views()), Views(), reports, |lanes|)
    {
      for n := 0 to |lanes|
        invariant Tracked(cfg, lanes) && Marked(lanes, started, done)
        invariant AllRefreshed(old(Views()), Views(), reports, n)
      {
        RefreshLane(n, reports[n]);
      }
    }

    method RefreshLane(n: nat, report: Report)
      requires n < |lanes| && Distinct(lanes) && Tracked(cfg, lanes) && Marked(lanes, started, done)
      modifies lanes[n]
      ensures Tracked(cfg, lanes) && Marked(lanes, started, done)
      ensures Views() == old(Views())[n := Refreshed(old(Views())[n], report.reachable, report.residents, report.gpu)]
    {
      var l := lanes[n];
      PollAccounted(l.history, started[n], done, l.cfg.name, Polled(report.reachable, report.residents, report.gpu));
      l.Refresh(cfg, report.reachable, report.residents, report.gpu);
      assert forall i :: 0 <= i < |lanes| && i != n ==> lanes[i] != l;
    }

    /** The poll of one lane, between any two steps of requests. */
    method PollLane(n: nat, report: Report)
      requires Valid() && n < |lanes|
      modifies lanes[n]
      ensures Valid()
      ensures Views() == old(Views())[n := Refreshed(old(Views())[n], report.reachable, report.residents, report.gpu)]
    {
      RefreshLane(n, report);
    }

    /** The lane a new request goes to: the pinned one if it is usable, else the selected one. */
    method Target(model: string, pinned: string, now: real) returns (lane: Option<nat>)
      requires Distinct(lanes)
      ensures IsTarget(Views(), Asking(model, now), pinned, lane)
      ensures lane.Some? ==> Eligible(Views(), now, lane.value)
    {
      ViewsDistinct(lanes);
      var p := FindName(Views(), pinned);
      if pinned != "" && p < |lanes| {
        lane := if lanes[p].View().EligibleAt(now) then Some(p) else None;
      } else {
        lane := Select(Views(), Asking(model, now));
        if lane.Some? {
          ChoiceEligible(Views(), Asking(model, now), lane.value);
        }
      }
    }

    /**
      A new request chooses a lane eligible at this moment and waits for its body, or is refused.  While it
      waits the lane may close: the choice is not made again.
     */
    method Admit(ticket: nat, model: string, pinned: string, now: real) returns (lane: Option<nat>)
      requires Valid() && ticket !in waiting
      modifies `waiting
      ensures Valid() && IsTarget(old(Views()), old(Asking(model, now)), pinned, lane)
      ensures lane.Some? ==> Eligible(old(Views()), now, lane.value)
      ensures waiting == if lane.Some? then old(waiting)[ticket := Waiting(model, lane.value)] else old(waiting)
    {
      lane := Target(model, pinned, now);
      if lane.Some? {
        Wait(ticket, model, lane.value);
      }
    }

    method Wait(ticket: nat, model: string, lane: nat)
      requires Valid() && lane < |lanes|
      modifies `waiting
      ensures Valid() && waiting == old(waiting)[ticket := Waiting(model, lane)]
    {
      waiting := waiting[ticket := Waiting(model, lane)];
    }

    /** The body could not be read: nothing is sent. */
    method Abandon(ticket: nat)
      requires Valid() && ticket in waiting
      modifies `waiting
      ensures Valid() && waiting == old(waiting) - {ticket}
    {
      waiting := waiting - {ticket};
    }

    /** The body has been read: the first attempt goes to the lane chosen before. */
    method Send(ticket: nat) returns (id: nat)
      requires Valid() && ticket in waiting
      modifies `waiting, `inFlight, `tries, `sent, `nextId
      ensures Valid() && id == old(nextId) && waiting == old(waiting) - {ticket}
      ensures var w := old(waiting)[ticket]; Ledger() == Opened(old(Ledger()), w.model, w.lane)
    {
      id := Open(ticket);
    }

    method Open(ticket: nat) returns (id: nat)
      requires Ledger().Balanced(|lanes|) && WaitingKnown() && ticket in waiting
      modifies `waiting, `inFlight, `tries, `sent, `nextId
      ensures Ledger().Balanced(|lanes|) && WaitingKnown() && id == old(nextId) && waiting == old(waiting) - {ticket}
      ensures var w := old(waiting)[ticket]; Ledger() == Opened(old(Ledger()), w.model, w.lane)
    {
      var Waiting(model, lane) := waiting[ticket];
      OpenedBalanced(Ledger(), model, lane, |lanes|);
      id := nextId;
      waiting := waiting - {ticket};
      inFlight := inFlight[nextId := Flight(model, lane, false)];
      tries := tries[nextId := [lane]];
      sent := sent + 1;
      nextId := nextId + 1;
      assert Ledger() == Opened(old(Ledger()), model, lane);
    }

    method Resend(id: nat, lane: nat, ghost d: Done)
      requires Ledger().Balanced(|lanes|) && id in inFlight && !inFlight[id].failover
      requires lane < |lanes| && lane != inFlight[id].lane
      modifies `inFlight, `tries, `sent, `done
      ensures Ledger() == Resent(old(Ledger()), id, lane) && Ledger().Balanced(|lanes|) && done == old(done) + [d]
    {
      ResentBalanced(Ledger(), id, lane, |lanes|);
      inFlight := inFlight[id := Flight(inFlight[id].model, lane, true)];
      tries := tries[id := tries[id] + [lane]];
      sent := sent + 1;
      done := done + [d];
    }

    method Close(id: nat, ghost d: Done)
      requires Ledger().Balanced(|lanes|) && id in inFlight
      modifies `inFlight, `done
      ensures Ledger() == Closed(old(Ledger()), id) && Ledger().Balanced(|lanes|) && done == old(done) + [d]
    {
      ClosedBalanced(Ledger(), id, |lanes|);
      inFlight := inFlight - {id};
      done := done + [d];
    }

    /** One mark on the lane, and on no other. */
    method MarkLane(f: Flight, o: Outcome, clock: Clock, ghost d: Done) returns (restart: bool)
      requires f.lane < |lanes| && Distinct(lanes) && Tracked(cfg, lanes) && Marked(lanes, started, done)
      requires d.lane == lanes[f.lane].cfg.name && d.outcome == o
      modifies lanes[f.lane]
      ensures Tracked(cfg, lanes) && Marked(lanes, started, done + [d])
      ensures lanes[f.lane].View() == MarkedView(cfg, old(lanes[f.lane].View()), o, clock)
    {
      forall i | 0 <= i < |lanes| && i != f.lane
        ensures lanes[i] != lanes[f.lane] && Accounted(lanes[i].history, started[i], done + [d], lanes[i].cfg.name)
      {
        OthersAccounted(lanes[i].history, started[i], done, lanes[i].cfg.name, d);
      }
      restart := Mark(lanes[f.lane], o, clock, started[f.lane], done, d);
    }

    method SettleLane(f: Flight, o: Outcome, clock: Clock, ghost d: Done)
      returns (restart: bool, ghost after: seq<Lane>)
      requires f.lane < |lanes| && Distinct(lanes) && Tracked(cfg, lanes) && Marked(lanes, started, done)
      requires d.lane == lanes[f.lane].cfg.name && d.outcome == o
      modifies lanes[f.lane]
      ensures Tracked(cfg, lanes) && Marked(lanes, started, done + [d])
      ensures after == Views() && Settled(cfg, old(Views()), after, f, o, clock)
    {
      restart := MarkLane(f, o, clock, d);
      after := Views();
    }

    /** `on_failure` or `on_success`, by the outcome. */
    method Mark(l: LaneState, o: Outcome, clock: Clock, ghost was: seq<LaneEvent>, ghost attempts: seq<Done>,
                ghost d: Done)
      returns (restart: bool)
      requires l.Tracks(cfg) && Accounted(l.history, was, attempts, l.cfg.name)
      requires d.lane == l.cfg.name && d.outcome == o
      modifies l
      ensures l.Tracks(cfg) && Accounted(l.history, was, attempts + [d], l.cfg.name)
      ensures l.View() == MarkedView(cfg, old(l.View()), o, clock)
    {
      restart := false;
      if o.Failed() {
        ghost var e := LaneEvent.Failed(clock.marked, clock.tested, clock.restarted);
        MarkAccounted(l.history, was, attempts, l.cfg.name, e, d);
        restart := l.Fail(cfg, clock.marked, clock.tested, clock.restarted);
      } else {
        MarkAccounted(l.history, was, attempts, l.cfg.name, Succeeded(clock.marked), d);
        l.MarkSucceeded(cfg, clock.marked);
      }
    }

    /** One metrics record. */
    method RecordAttempt(ghost d: Done, model: string, lane: string, ms: real, error: string, w: WriteResult)
      requires metrics.Valid() && metrics.log == base + LogOf(done)
      requires d.model == model && d.lane == lane && d.ms == ms && d.outcome.ErrorText() == error
      modifies metrics
      ensures unchanged(this)
      ensures metrics.Valid() && metrics.log == base + LogOf(done + [d])
    {
      LogGrows(base, done, d);
      metrics.Record(model, lane, ms, error, w);
    }

    /** Exactly one of `on_failure` and `on_success`, on the attempt's lane, and exactly one metrics record. */
    method Settle(f: Flight, o: Outcome, clock: Clock, ms: real, w: WriteResult, ghost d: Done)
      returns (restart: bool, ghost after: seq<Lane>)
      requires InOrder(done) && f.lane < |lanes| && d == Done(f.model, lanes[f.lane].cfg.name, ms, o)
      modifies lanes, metrics
      ensures unchanged(this)
      ensures InOrder(done + [d]) && after == Views() && Settled(cfg, old(Views()), after, f, o, clock)
    {
      restart, after := SettleLane(f, o, clock, d);
      RecordAttempt(d, f.model, lanes[f.lane].cfg.name, ms, o.ErrorText(), w);
    }

    /** The other lane a failed first attempt moves to, if the policy now says so. */
    method Alternative(f: Flight, o: Outcome, now: real) returns (alt: Option<nat>, ghost q: Request)
      requires Distinct(lanes) && f.lane < |lanes|
      ensures q == Asking(f.model, now) && Rerouted(Views(), q, f, o, alt)
    {
      q := Asking(f.model, now);
      alt := None;
      if o.Failed() && !f.failover {
        ViewsDistinct(lanes);
        alt := Select(Views(), Asking(f.model, now));
        if alt.Some? {
          ChoiceEligible(Views(), Asking(f.model, now), alt.value);
          if lanes[alt.value].cfg.name == lanes[f.lane].cfg.name {
            assert alt.value == f.lane;
            alt := None;
          }
        }
      }
    }

    /** The books of an attempt that came back. */
    method Turn(id: nat, alt: Option<nat>, ghost d: Done)
      requires Ledger().Balanced(|lanes|) && id in inFlight
      requires alt.Some? ==> !inFlight[id].failover && alt.value < |lanes| && alt.value != inFlight[id].lane
      modifies `inFlight, `tries, `sent, `done
      ensures Ledger().Balanced(|lanes|) && done == old(done) + [d] && waiting == old(waiting)
      ensures Ledger() == if alt.Some? then Resent(old(Ledger()), id, alt.value) else Closed(old(Ledger()), id)
    {
      if alt.Some? {
        Resend(id, alt.value, d);
      } else {
        Close(id, d);
      }
    }

    method Conclude(id: nat, alt: Option<nat>, ghost d: Done)
      requires Ledger().Balanced(|lanes|) && WaitingKnown() && id in inFlight && InOrder(done + [d])
      requires alt.Some? ==> !inFlight[id].failover && alt.value < |lanes| && alt.value != inFlight[id].lane
      modifies `inFlight, `tries, `sent, `done
      ensures Valid() && done == old(done) + [d] && waiting == old(waiting) && Views() == old(Views())
      ensures Ledger() == if alt.Some? then Resent(old(Ledger()), id, alt.value) else Closed(old(Ledger()), id)
    {
      ghost var views := Views();
      Turn(id, alt, d);
      assert Views() == views;
      assert InOrder(done);
    }

    /**
      What came back of an attempt: it is settled, and a failed first attempt may be sent once more.  The
      ghost results are the lanes and the request as the policy saw them after the mark.
     */
    method Finish(id: nat, f: Flight, o: Outcome, clock: Clock, ms: real, w: WriteResult)
      returns (reply: Reply, alt: Option<nat>, ghost after: seq<Lane>, ghost q: Request)
      requires Valid() && id in inFlight && inFlight[id] == f
      modifies this, lanes, metrics
      ensures Valid() && f.lane < |lanes| && waiting == old(waiting)
      ensures done == old(done) + [Done(f.model, lanes[f.lane].cfg.name, ms, o)]
      ensures after == Views() && q == Asking(f.model, clock.reselected)
      ensures Settled(cfg, old(Views()), after, f, o, clock) && Rerouted(after, q, f, o, alt)
      ensures Ledger() == if alt.Some? then Resent(old(Ledger()), id, alt.value) else Closed(old(Ledger()), id)
      ensures o.Response? && o.status < 500 ==>
                alt.None? && after[f.lane].failures == 0 && after[f.lane].openUntil == 0.0
      ensures reply == if alt.Some? then Pending
                       else if o.TransportError? then Unavailable
                       else Answer(o.status, lanes[f.lane].cfg.name, f.failover)
    {
      assert GoodTries(tries[id], |lanes|) && f.lane < |lanes|;
      ghost var d := Done(f.model, lanes[f.lane].cfg.name, ms, o);
      var restart;
      restart, after := Settle(f, o, clock, ms, w, d);
      alt, q := Alternative(f, o, clock.reselected);
      Conclude(id, alt, d);
      reply := if alt.Some? then Pending
               else if o.TransportError? then Unavailable
               else Answer(o.status, lanes[f.lane].cfg.name, f.failover);
    }
  }

  /** The first n lanes have learned their reading, the others are as before. */
  predicate AllRefreshed(before: seq<Lane>, after: seq<Lane>, reports: seq<Report>, n: nat) {
    && |before| == |after| == |reports|
    && forall i :: 0 <= i < |before| ==>
         after[i] == if i < n then Refreshed(before[i], reports[i].reachable, reports[i].residents, reports[i].gpu)
                     else before[i]
  }

  /** The pinned lane if there is one, provided it is usable; else the policy's choice. */
  predicate IsTarget(ls: seq<Lane>, q: Request, pinned: string, lane: Option<nat>) {
    var p := FindName(ls, pinned);
    if pinned != "" && p < |ls| then lane == if ls[p].EligibleAt(q.now) then Some(p) else None
    else IsChoice(ls, q, lane)
  }

  function MarkedView(cfg: RouterConfig, l: Lane, o: Outcome, clock: Clock): Lane {
    if o.Failed() then OnFailure(cfg, l, clock.marked, clock.tested, clock.restarted) else MarkSuccess(l)
  }

  /** Only the attempt's lane changed, by the one transition its outcome calls for. */
  predicate Settled(cfg: RouterConfig, before: seq<Lane>, after: seq<Lane>, f: Flight, o: Outcome, clock: Clock) {
    && |after| == |before| && f.lane < |before|
    && (forall i :: 0 <= i < |before| && i != f.lane ==> after[i] == before[i])
    && after[f.lane] == MarkedView(cfg, before[f.lane], o, clock)
  }

  /** A second attempt goes to another lane, eligible after the failure was marked, that the policy chooses. */
  predicate Rerouted(after: seq<Lane>, q: Request, f: Flight, o: Outcome, alt: Option<nat>) {
    if alt.Some? then
      && o.Failed() && !f.failover && alt.value != f.lane
      && Eligible(after, q.now, alt.value) && IsChoice(after, q, alt)
    else
      o.Failed() && !f.failover ==> IsChoice(after, q, None) || IsChoice(after, q, Some(f.lane))
  }

  /** A pinned lane is taken if it is healthy with a closed circuit, and otherwise nothing is. */
  lemma PinnedMeans(ls: seq<Lane>, q: Request, p: nat, lane: Option<nat>)
    requires DistinctNames(ls) && p < |ls| && ls[p].cfg.name != "" && IsTarget(ls, q, ls[p].cfg.name, lane)
    ensures lane == if ls[p].healthy && ls[p].openUntil <= q.now then Some(p) else None
  {
    assert FindName(ls, ls[p].cfg.name) == p;
  }

  /** Without a pinned lane, or with one that does not exist, the policy chooses. */
  lemma UnpinnedMeans(ls: seq<Lane>, q: Request, pinned: string, lane: Option<nat>)
    requires IsTarget(ls, q, pinned, lane)
    requires pinned == "" || forall i :: 0 <= i < |ls| ==> ls[i].cfg.name != pinned
    ensures IsChoice(ls, q, lane)
  {
  }

  /** What the policy is asked: the model, and what the log so far says about its lanes. */
  lemma AskingMeans(p: Proxy, model: string, now: real)
    requires p.Valid()
    ensures p.Asking(model, now) ==
            Request(model, now, CellsOf(p.base + LogOf(p.done), model), p.nameEstimate, p.cfg.margin)
  {
    assert CellsFor(p.metrics.data, model) == CellsOf(p.metrics.log, model);
  }

  // ---- outcomes in plain terms -------------------------------------------

  /** An answer below 500, an error of the client's included, is a success: it closes the lane's circuit. */
  lemma AnswerMeans(cfg: RouterConfig, l: Lane, s: int, clock: Clock)
    requires s < 500
    ensures var after := MarkedView(cfg, l, Response(s), clock);
            after == l.(failures := 0, openUntil := 0.0) && Response(s).ErrorText() == ""
  {
  }

  /** An answer of 500 or more, and any transport error, is a failure: it counts, or opens the circuit. */
  lemma FailureMeans(cfg: RouterConfig, l: Lane, o: Outcome, clock: Clock)
    requires o.Response? ==> o.status >= 500
    ensures var after := MarkedView(cfg, l, o, clock);
            && (l.failures + 1 < cfg.threshold ==> after.failures == l.failures + 1 && after.openUntil == l.openUntil)
            && (l.failures + 1 >= cfg.threshold ==>
                  after.failures == 0 && after.openUntil == clock.marked + cfg.breakerCooldown)
            && after.healthy == l.healthy && after.loaded == l.loaded && after.gpu == l.gpu
    ensures o.TransportError? ==> o.ErrorText() == o.text
    ensures o.Response? ==> |o.ErrorText()| > 5 && o.ErrorText()[..5] == "HTTP " &&
                            Decimal.Value(o.ErrorText()[5..]) == o.status
  {
    if o.Response? {
      Decimal.ValueOfText(o.status);
      assert o.ErrorText()[5..] == Decimal.Text(o.status);
    }
  }

  /** Only such a failure of a first attempt is sent once more, and not to its own lane. */
  lemma ResentMeans(after: seq<Lane>, q: Request, f: Flight, o: Outcome, alt: Option<nat>)
    requires Rerouted(after, q, f, o, alt)
    ensures (o.Response? && o.status < 500) || f.failover ==> alt.None?
    ensures alt.Some? ==>
              && alt.value < |after| && alt.value != f.lane
              && after[alt.value].healthy && after[alt.value].openUntil <= q.now
  {
  }

  // ---- totals ------------------------------------------------------------

  function SumRequests(cells: seq<Cell>): nat {
    if cells == [] then 0 else SumRequests(cells[..|cells| - 1]) + cells[|cells| - 1].metric.requests
  }

  function SumErrors(cells: seq<Cell>): nat {
    if cells == [] then 0 else SumErrors(cells[..|cells| - 1]) + cells[|cells| - 1].metric.errors
  }

  function CountModel(log: seq<Event>, model: string): nat {
    if log == [] then 0
    else CountModel(log[..|log| - 1], model) + if log[|log| - 1].model == model then 1 else 0
  }

  function CountModelErrors(log: seq<Event>, model: string): nat {
    if log == [] then 0
    else
      var e := log[|log| - 1];
      CountModelErrors(log[..|log| - 1], model) + if e.model == model && e.error != "" then 1 else 0
  }

  lemma {:induction false} UpdateSums(cells: seq<Cell>, k: nat, c: Cell)
    requires k < |cells|
    ensures SumRequests(cells[k := c]) == SumRequests(cells) - cells[k].metric.requests + c.metric.requests
    ensures SumErrors(cells[k := c]) == SumErrors(cells) - cells[k].metric.errors + c.metric.errors
  {
    var n := |cells| - 1;
    if k < n {
      UpdateSums(cells[..n], k, c);
      assert cells[k := c][..n] == cells[..n][k := c];
    } else {
      assert cells[k := c][..n] == cells[..n];
    }
  }

  lemma AddSums(cells: seq<Cell>, lane: string, ms: real, error: string)
    ensures SumRequests(AddToCells(cells, lane, ms, error)) == SumRequests(cells) + 1
    ensures SumErrors(AddToCells(cells, lane, ms, error)) == SumErrors(cells) + if error != "" then 1 else 0
  {
    var k := FindCell(cells, lane);
    if k < |cells| {
      UpdateSums(cells, k, Cell(lane, cells[k].metric.Add(ms, error)));
    } else {
      assert AddToCells(cells, lane, ms, error)[..|cells|] == cells;
    }
  }

  /** The counters of a model's lanes add up to its entries in the log. */
  lemma {:induction false} CellsAddUp(log: seq<Event>, model: string)
    ensures SumRequests(CellsOf(log, model)) == CountModel(log, model)
    ensures SumErrors(CellsOf(log, model)) == CountModelErrors(log, model)
  {
    if log != [] {
      var before, e := log[..|log| - 1], log[|log| - 1];
      CellsAddUp(before, model);
      assert before + [e] == log;
      var cells := CellsOf(before, model);
      var after := if e.model == model then AddToCells(cells, e.lane, e.ms, e.error) else cells;
      assert CellsOf(log, model) == after by {
        RecordTells(before, e, model);
      }
      assert SumRequests(after) == SumRequests(cells) + (if e.model == model then 1 else 0) by {
        AddSums(cells, e.lane, e.ms, e.error);
      }
      assert SumErrors(after) == SumErrors(cells) + (if e.model == model && e.error != "" then 1 else 0) by {
        AddSums(cells, e.lane, e.ms, e.error);
      }
    }
  }

  lemma {:induction false} CountsAdd(a: seq<Event>, b: seq<Event>, model: string)
    ensures CountModel(a + b, model) == CountModel(a, model) + CountModel(b, model)
    ensures CountModelErrors(a + b, model) == CountModelErrors(a, model) + CountModelErrors(b, model)
  {
    if b == [] {
      assert a + b == a;
    } else {
      var n := |b| - 1;
      assert (a + b)[..|a + b| - 1] == a + b[..n];
      CountsAdd(a, b[..n], model);
    }
  }

  function Attempts(done: seq<Done>, model: string): nat {
    if done == [] then 0
    else Attempts(done[..|done| - 1], model) + if done[|done| - 1].model == model then 1 else 0
  }

  function Failures(done: seq<Done>, model: string): nat {
    if done == [] then 0
    else
      var d := done[|done| - 1];
      Failures(done[..|done| - 1], model) + if d.model == model && d.outcome.Failed() then 1 else 0
  }

  predicate SilentFailure(d: Done, model: string) {
    d.model == model && d.outcome.Failed() && d.outcome.ErrorText() == ""
  }

  lemma LogPrefix(done: seq<Done>, n: nat)
    requires n <= |done|
    ensures LogOf(done)[..n] == LogOf(done[..n])
  {
  }

  lemma {:induction false} LogCountsAttempts(done: seq<Done>, model: string)
    ensures CountModel(LogOf(done), model) == Attempts(done, model)
  {
    if done != [] {
      LogPrefix(done, |done| - 1);
      LogCountsAttempts(done[..|done| - 1], model);
    }
  }

  predicate NoSilentFailure(done: seq<Done>, model: string) {
    forall i :: 0 <= i < |done| ==> !SilentFailure(done[i], model)
  }

  lemma {:induction false} LogCountsFailures(done: seq<Done>, model: string)
    ensures CountModelErrors(LogOf(done), model) <= Failures(done, model)
    ensures CountModelErrors(LogOf(done), model) == Failures(done, model) <==> NoSilentFailure(done, model)
  {
    if done != [] {
      var n := |done| - 1;
      LogPrefix(done, n);
      LogCountsFailures(done[..n], model);
      assert NoSilentFailure(done, model) <==> NoSilentFailure(done[..n], model) && !SilentFailure(done[n], model) by {
        assert done == done[..n] + [done[n]];
      }
    }
  }

  /**
    After any interleaving: the attempts sent are those finished and those in flight, and are the lanes the
    requests tried; the request counters of each model have grown by its attempts that finished, and its
    error counters by those that failed, the latter exactly when no failed attempt carried an empty error
    text.  Such a transport error is recorded as a success.
   */
  lemma AccountsBalance(p: Proxy, model: string)
    requires p.Valid()
    ensures p.sent == |p.done| + |p.inFlight| == TotalTries(p.tries, p.nextId)
    ensures SumRequests(CellsFor(p.metrics.data, model)) == CountModel(p.base, model) + Attempts(p.done, model)
    ensures SumErrors(CellsFor(p.metrics.data, model)) == CountModelErrors(p.base, model) + Failures(p.done, model) <==>
            NoSilentFailure(p.done, model)
  {
    assert CellsFor(p.metrics.data, model) == CellsOf(p.metrics.log, model);
    assert p.metrics.log == p.base + LogOf(p.done);
    CellsAddUp(p.metrics.log, model);
    CountsAdd(p.base, LogOf(p.done), model);
    LogCountsAttempts(p.done, model);
    LogCountsFailures(p.done, model);
  }

  function CountMarks(marks: seq<bool>, failed: bool): nat {
    if marks == [] then 0
    else CountMarks(marks[..|marks| - 1], failed) + if marks[|marks| - 1] == failed then 1 else 0
  }

  lemma {:induction false} MarksAdd(a: seq<bool>, b: seq<bool>, failed: bool)
    ensures CountMarks(a + b, failed) == CountMarks(a, failed) + CountMarks(b, failed)
  {
    if b == [] {
      assert a + b == a;
    } else {
      assert (a + b)[..|a + b| - 1] == a + b[..|b| - 1];
      MarksAdd(a, b[..|b| - 1], failed);
    }
  }

  function Failings(h: seq<LaneEvent>): nat {
    if h == [] then 0 else Failings(h[..|h| - 1]) + if h[|h| - 1].Failed? then 1 else 0
  }

  function Successes(h: seq<LaneEvent>): nat {
    if h == [] then 0 else Successes(h[..|h| - 1]) + if h[|h| - 1].Succeeded? then 1 else 0
  }

  function AttemptsOn(done: seq<Done>, lane: string, failed: bool): nat {
    if done == [] then 0
    else
      var d := done[|done| - 1];
      AttemptsOn(done[..|done| - 1], lane, failed) + if d.lane == lane && d.outcome.Failed() == failed then 1 else 0
  }

  lemma {:induction false} HistoryMarks(h: seq<LaneEvent>)
    ensures CountMarks(Marks(h), true) == Failings(h) && CountMarks(Marks(h), false) == Successes(h)
  {
    if h != [] {
      var before := Marks(h[..|h| - 1]);
      HistoryMarks(h[..|h| - 1]);
      assert (before + [true])[..|before|] == before && (before + [false])[..|before|] == before;
    }
  }

  lemma {:induction false} AttemptMarks(done: seq<Done>, lane: string, failed: bool)
    ensures CountMarks(MarksOn(done, lane), failed) == AttemptsOn(done, lane, failed)
  {
    if done != [] {
      var d, before := done[|done| - 1], MarksOn(done[..|done| - 1], lane);
      AttemptMarks(done[..|done| - 1], lane, failed);
      MarksAdd(before, if d.lane == lane then [d.outcome.Failed()] else [], failed);
    }
  }

  /** Over any interleaving a lane's failures and successes grow by exactly the attempts on it that ended so. */
  lemma MarksBalance(p: Proxy, i: nat)
    requires p.Valid() && i < |p.lanes|
    ensures Failings(p.lanes[i].history) == Failings(p.started[i]) + AttemptsOn(p.done, p.lanes[i].cfg.name, true)
    ensures Successes(p.lanes[i].history) == Successes(p.started[i]) + AttemptsOn(p.done, p.lanes[i].cfg.name, false)
  {
    var h, was, on := p.lanes[i].history, p.started[i], MarksOn(p.done, p.lanes[i].cfg.name);
    assert Accounted(h, was, p.done, p.lanes[i].cfg.name);
    HistoryMarks(h);
    HistoryMarks(was);
    MarksAdd(Marks(was), on, true);
    MarksAdd(Marks(was), on, false);
    AttemptMarks(p.done, p.lanes[i].cfg.name, true);
    AttemptMarks(p.done, p.lanes[i].cfg.name, false);
  }

  /** A timed-out attempt whose exception has no text is a failure that the store counts as none. */
  lemma SilentTimeout(model: string, lane: string)
    ensures var done := [Done(model, lane, 120000.0, TransportError(""))];
            Failures(done, model) == 1 && CountModelErrors(LogOf(done), model) == 0
  {
  }
}
