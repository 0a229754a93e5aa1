/**
  The WebSocket event hub.  Its coroutines are cut at every await: a step is the code one of them runs
  before it next gives up control, so a run of steps is any interleaving the event loop can produce.
 */
module EventHub {
  import opened Options

  /** A subscriber record.  `fromServer` tells whether `last_seq` was set here or by the client's hello. */
  datatype Subscriber = Subscriber(lastSeq: int, fromServer: bool)

  datatype Task =
    | Broadcast(number: nat, pending: seq<nat>)   // targets still to be sent to, in order
    | Gathering(target: nat)                      // a state sync collecting its snapshot
    | Syncing(target: nat, number: nat)           // a state sync being sent
    | Beating(target: nat, number: nat)           // a heartbeat being sent

  /**
    Subscriber records live on after they leave the registry, as long as a broadcast holds them.  `idle` has
    the connections whose handler waits for a message: it runs one sync or heartbeat of its own at a time.
    `delivered` has every (subscriber, number) whose send returned, heartbeats included.
   */
  datatype Hub = Hub(
    counter: nat, subscribers: map<nat, Subscriber>, registry: seq<nat>, idle: set<nat>, tasks: map<nat, Task>,
    numbers: seq<nat>, delivered: set<(nat, nat)>)

  /** `Skipped` is the test of `target_subs`; no caller passes that argument, but the function takes it. */
  datatype Action =
    | Connect(id: nat, task: nat, clientSeq: int)
    | Disconnect(id: nat)
    | RequestSync(id: nat, task: nat)
    | Heartbeat(id: nat, task: nat)
    | StartBroadcast(task: nat, knownType: bool)
    | AllocateSync(task: nat)
    | Delivered(task: nat)
    | Failed(task: nat)
    | Skipped(task: nat)

  function Without(s: seq<nat>, id: nat): (r: seq<nat>)
    ensures forall x :: x in r <==> x in s && x != id
  {
    if s == [] then []
    else if s[0] == id then Without(s[1..], id)
    else [s[0]] + Without(s[1..], id)
  }

  function Advance(h: Hub, task: nat, number: nat, pending: seq<nat>): map<nat, Task> {
    if |pending| <= 1 then h.tasks - {task} else h.tasks[task := Broadcast(number, pending[1..])]
  }

  /** The record takes the counter as it stands now, not the number of the message just sent. */
  function Stamp(h: Hub, id: nat): Hub { h.(subscribers := h.subscribers[id := Subscriber(h.counter, true)]) }

  /** The handler is done with its own task and waits for a message again. */
  function Returned(h: Hub, task: nat, id: nat): Hub { h.(tasks := h.tasks - {task}, idle := h.idle + {id}) }

  function Step(h: Hub, a: Action): Hub {
    match a
    case Connect(id, task, clientSeq) =>
      if id in h.subscribers || task in h.tasks then h
      else h.(subscribers := h.subscribers[id := Subscriber(clientSeq, false)], registry := h.registry + [id],
              tasks := h.tasks[task := Gathering(id)])
    case Disconnect(id) => if id in h.idle then h.(registry := Without(h.registry, id), idle := h.idle - {id}) else h
    case RequestSync(id, task) =>
      if id in h.idle && id in h.registry && task !in h.tasks
      then h.(tasks := h.tasks[task := Gathering(id)], idle := h.idle - {id}) else h
    case Heartbeat(id, task) =>
      if id in h.idle && task !in h.tasks
      then h.(tasks := h.tasks[task := Beating(id, h.counter)], idle := h.idle - {id}) else h
    case StartBroadcast(task, knownType) =>
      if !knownType || task in h.tasks then h
      else
        var n := h.counter + 1;
        h.(counter := n, numbers := h.numbers + [n],
           tasks := if h.registry == [] then h.tasks else h.tasks[task := Broadcast(n, h.registry)])
    case AllocateSync(task) =>
      if task in h.tasks && h.tasks[task].Gathering? then
        var n := h.counter + 1;
        h.(counter := n, numbers := h.numbers + [n], tasks := h.tasks[task := Syncing(h.tasks[task].target, n)])
      else h
    case Delivered(task) =>
      if task !in h.tasks then h
      else
        match h.tasks[task] {
          case Broadcast(n, pending) =>
            if pending == [] then h
            else Stamp(h, pending[0]).(tasks := Advance(h, task, n, pending),
                                       delivered := h.delivered + {(pending[0], n)})
          case Syncing(id, n) =>
            // The number has reached the client; the record is looked up only now.
            Returned(if id in h.registry then Stamp(h, id) else h, task, id).(delivered := h.delivered + {(id, n)})
          case Beating(id, n) => Returned(h, task, id).(delivered := h.delivered + {(id, n)})
          case Gathering(_) => h
        }
    case Failed(task) =>
      if task !in h.tasks then h
      else
        match h.tasks[task] {
          case Broadcast(n, pending) =>
            if pending == [] then h
            else h.(registry := Without(h.registry, pending[0]), tasks := Advance(h, task, n, pending))
          case Beating(id, _) => h.(registry := Without(h.registry, id), tasks := h.tasks - {task})
          case _ => Returned(h, task, h.tasks[task].target)
        }
    case Skipped(task) =>
      if task in h.tasks && h.tasks[task].Broadcast? then
        h.(tasks := Advance(h, task, h.tasks[task].number, h.tasks[task].pending))
      else h
  }

  const EMPTY_HUB := Hub(0, map[], [], {}, map[], [], {})

  function Run(h: Hub, actions: seq<Action>): Hub {
    if actions == [] then h else Step(Run(h, Front(actions)), Last(actions))
  }

  function Front(actions: seq<Action>): seq<Action>
    requires actions != []
  {
    actions[..|actions| - 1]
  }

  function Last(actions: seq<Action>): Action
    requires actions != []
  {
    actions[|actions| - 1]
  }

  // ---- the invariant -----------------------------------------------------

  predicate TaskSound(h: Hub, t: Task) {
    match t
    case Broadcast(n, pending) => 1 <= n <= h.counter && forall id :: id in pending ==> id in h.subscribers
    case Gathering(id) => id in h.subscribers
    case Syncing(id, n) => 1 <= n <= h.counter && id in h.subscribers
    case Beating(id, n) => n <= h.counter && id in h.subscribers
  }

  ghost predicate Invariant(h: Hub) {
    // Numbers are allocated in order, without gap or repetition.
    && |h.numbers| == h.counter && (forall k :: 0 <= k < |h.numbers| ==> h.numbers[k] == k + 1)
    && (forall id :: id in h.registry ==> id in h.subscribers) && (forall id :: id in h.idle ==> id in h.subscribers)
    && (forall t :: t in h.tasks ==> TaskSound(h, h.tasks[t]))
    // Neither a record the server has set nor a delivered number is above the counter.
    && (forall id :: id in h.subscribers && h.subscribers[id].fromServer ==> h.subscribers[id].lastSeq <= h.counter)
    && forall d :: d in h.delivered ==> d.1 <= h.counter && d.0 in h.subscribers
  }

  /** The subscriber's record, set by the server, is at least n. */
  predicate Covers(h: Hub, id: nat, n: nat) {
    id in h.subscribers && h.subscribers[id].fromServer && n <= h.subscribers[id].lastSeq
  }

  lemma DeliveryKeeps(h: Hub, task: nat)
    requires Invariant(h)
    ensures Invariant(Step(h, Delivered(task)))
  {
  }

  lemma FailureKeeps(h: Hub, task: nat)
    requires Invariant(h)
    ensures Invariant(Step(h, Failed(task)))
  {
  }

  lemma NumberingKeeps(h: Hub, a: Action)
    requires Invariant(h) && (a.StartBroadcast? || a.AllocateSync?)
    ensures Invariant(Step(h, a))
  {
  }

  lemma StepKeeps(h: Hub, a: Action)
    requires Invariant(h)
    ensures Invariant(Step(h, a))
  {
    if a.Delivered? {
      DeliveryKeeps(h, a.task);
    } else if a.Failed? {
      FailureKeeps(h, a.task);
    } else if a.StartBroadcast? || a.AllocateSync? {
      NumberingKeeps(h, a);
    }
  }

  lemma {:induction false} RunKeeps(h: Hub, actions: seq<Action>)
    requires Invariant(h)
    ensures Invariant(Run(h, actions))
  {
    if actions != [] {
      RunKeeps(h, Front(actions));
      StepKeeps(Run(h, Front(actions)), Last(actions));
    }
  }

  /** Under every interleaving the allocated numbers are 1, 2, 3, ... in the order of allocation. */
  lemma NumbersGapFree(actions: seq<Action>, k: nat)
    requires k < |Run(EMPTY_HUB, actions).numbers|
    ensures Run(EMPTY_HUB, actions).numbers[k] == k + 1
    ensures |Run(EMPTY_HUB, actions).numbers| == Run(EMPTY_HUB, actions).counter
  {
    RunKeeps(EMPTY_HUB, actions);
  }

  lemma StepMonotone(h: Hub, a: Action, id: nat)
    requires Invariant(h) && id in h.subscribers && h.subscribers[id].fromServer
    ensures id in Step(h, a).subscribers && Step(h, a).subscribers[id].fromServer
    ensures h.subscribers[id].lastSeq <= Step(h, a).subscribers[id].lastSeq
  {
  }

  /** Once the server has set it, a subscriber's `last_seq` never decreases. */
  lemma {:induction false} LastSeqMonotone(h: Hub, actions: seq<Action>, id: nat)
    requires Invariant(h) && id in h.subscribers && h.subscribers[id].fromServer
    ensures id in Run(h, actions).subscribers && Run(h, actions).subscribers[id].fromServer
    ensures h.subscribers[id].lastSeq <= Run(h, actions).subscribers[id].lastSeq
  {
    if actions != [] {
      LastSeqMonotone(h, Front(actions), id);
      RunKeeps(h, Front(actions));
      StepMonotone(Run(h, Front(actions)), Last(actions), id);
    }
  }

  // ---- does last_seq cover what was delivered? ---------------------------

  /** The subscriber and the number of the send that this step completes. */
  function Sent(h: Hub, a: Action): Option<(nat, nat)> {
    if !a.Delivered? || a.task !in h.tasks then None
    else
      match h.tasks[a.task]
      case Broadcast(n, pending) => if pending == [] then None else Some((pending[0], n))
      case Syncing(id, n) => Some((id, n))
      case Beating(id, n) => Some((id, n))
      case Gathering(_) => None
  }

  /** The step completes a send and stamps the record: not a heartbeat, nor a sync whose target has left. */
  predicate Stamps(h: Hub, a: Action, id: nat) {
    && Sent(h, a).Some? && Sent(h, a).value.0 == id
    && (h.tasks[a.task].Broadcast? || (h.tasks[a.task].Syncing? && id in h.registry))
  }

  /** Some send stamped the subscriber's record once number n had been allocated. */
  predicate StampedSince(actions: seq<Action>, id: nat, n: nat) {
    actions != [] &&
    var h := Run(EMPTY_HUB, Front(actions));
    StampedSince(Front(actions), id, n) || (Stamps(h, Last(actions), id) && n <= h.counter)
  }

  /** A state sync with number n ended after its target had left the registry. */
  predicate SyncedTooLate(actions: seq<Action>, id: nat, n: nat) {
    actions != [] &&
    var h, a := Run(EMPTY_HUB, Front(actions)), Last(actions);
    SyncedTooLate(Front(actions), id, n) ||
    (Sent(h, a) == Some((id, n)) && h.tasks[a.task].Syncing? && id !in h.registry)
  }

  /** A heartbeat told the subscriber the number n. */
  predicate HeartbeatSent(actions: seq<Action>, id: nat, n: nat) {
    actions != [] &&
    var h, a := Run(EMPTY_HUB, Front(actions)), Last(actions);
    HeartbeatSent(Front(actions), id, n) || (Sent(h, a) == Some((id, n)) && h.tasks[a.task].Beating?)
  }

  lemma SendDelivers(h: Hub, a: Action, id: nat, n: nat)
    requires Invariant(h)
    ensures (id, n) in Step(h, a).delivered <==> (id, n) in h.delivered || Sent(h, a) == Some((id, n))
  {
  }

  lemma SendStamps(h: Hub, a: Action, id: nat, n: nat)
    requires Invariant(h)
    ensures Covers(Step(h, a), id, n) <==> if Stamps(h, a, id) then n <= h.counter else Covers(h, id, n)
  {
  }

  /** A record covers n exactly when it was stamped since n was allocated. */
  lemma {:induction false} CoversExactly(actions: seq<Action>, id: nat, n: nat)
    ensures Covers(Run(EMPTY_HUB, actions), id, n) <==> StampedSince(actions, id, n)
  {
    if actions != [] {
      var h := Run(EMPTY_HUB, Front(actions));
      CoversExactly(Front(actions), id, n);
      RunKeeps(EMPTY_HUB, Front(actions));
      SendStamps(h, Last(actions), id, n);
    }
  }

  /** A number was delivered by a send that stamped the record, by a sync too late to, or by a heartbeat. */
  lemma {:induction false} DeliveredExactly(actions: seq<Action>, id: nat, n: nat)
    ensures SyncedTooLate(actions, id, n) || HeartbeatSent(actions, id, n) ==>
              (id, n) in Run(EMPTY_HUB, actions).delivered
    ensures (id, n) in Run(EMPTY_HUB, actions).delivered ==>
              SyncedTooLate(actions, id, n) || HeartbeatSent(actions, id, n) || StampedSince(actions, id, n)
  {
    if actions != [] {
      var h, a := Run(EMPTY_HUB, Front(actions)), Last(actions);
      DeliveredExactly(Front(actions), id, n);
      RunKeeps(EMPTY_HUB, Front(actions));
      SendDelivers(h, a, id, n);
      if Sent(h, a) == Some((id, n)) {
        assert TaskSound(h, h.tasks[a.task]);
      }
    }
  }

  lemma StaysAway(h: Hub, a: Action, id: nat)
    requires Invariant(h) && id in h.subscribers && id !in h.registry
    ensures id in Step(h, a).subscribers && id !in Step(h, a).registry
  {
  }

  /** Who has left the registry never returns to it. */
  lemma {:induction false} LateMeansLeft(actions: seq<Action>, id: nat, n: nat)
    requires SyncedTooLate(actions, id, n)
    ensures id in Run(EMPTY_HUB, actions).subscribers && id !in Run(EMPTY_HUB, actions).registry
  {
    var h, a := Run(EMPTY_HUB, Front(actions)), Last(actions);
    RunKeeps(EMPTY_HUB, Front(actions));
    if SyncedTooLate(Front(actions), id, n) {
      LateMeansLeft(Front(actions), id, n);
    } else {
      assert TaskSound(h, h.tasks[a.task]);
    }
    StaysAway(h, a, id);
  }

  /**
    For any subscriber, gone or not: a delivered number exceeds its `last_seq` exactly when it was that of a
    heartbeat, or of a state sync which ended after the subscriber had left, and no send has stamped the
    record since the number was allocated.
   */
  lemma LastSeqMissesExactly(actions: seq<Action>, id: nat, n: nat)
    ensures (id, n) in Run(EMPTY_HUB, actions).delivered && !Covers(Run(EMPTY_HUB, actions), id, n) <==>
            (SyncedTooLate(actions, id, n) || HeartbeatSent(actions, id, n)) && !StampedSince(actions, id, n)
  {
    CoversExactly(actions, id, n);
    DeliveredExactly(actions, id, n);
  }

  /**
    Of a subscriber still registered, `last_seq` covers every number a sync or a broadcast delivered: it
    misses only those that heartbeats alone told.  It is at most the counter.
   */
  lemma LastSeqCoversDeliveries(actions: seq<Action>, id: nat, n: nat)
    requires (id, n) in Run(EMPTY_HUB, actions).delivered && id in Run(EMPTY_HUB, actions).registry
    ensures Covers(Run(EMPTY_HUB, actions), id, n) || HeartbeatSent(actions, id, n)
    ensures Covers(Run(EMPTY_HUB, actions), id, n) ==>
              Run(EMPTY_HUB, actions).subscribers[id].lastSeq <= Run(EMPTY_HUB, actions).counter
  {
    RunKeeps(EMPTY_HUB, actions);
    LastSeqMissesExactly(actions, id, n);
    if SyncedTooLate(actions, id, n) {
      LateMeansLeft(actions, id, n);
    }
  }

  lemma RunStep(h: Hub, actions: seq<Action>, a: Action)
    ensures Run(h, actions + [a]) == Step(Run(h, actions), a)
  {
  }

  lemma StepTo(actions: seq<Action>, h: Hub, a: Action, after: Hub)
    requires Run(EMPTY_HUB, actions) == h && Step(h, a) == after
    ensures Run(EMPTY_HUB, actions + [a]) == after
  {
    RunStep(EMPTY_HUB, actions, a);
  }

  /** A subscriber whose state sync, numbered 1, is being sent, and then has arrived. */
  const SYNC_SENT := Hub(1, map[7 := Subscriber(0, false)], [7], {}, map[0 := Syncing(7, 1)], [1], {})

  const SYNCED := Hub(1, map[7 := Subscriber(1, true)], [7], {7}, map[], [1], {(7, 1)})

  const SYNC_REQUESTED := [Connect(7, 0, 0)] + [AllocateSync(0)]

  lemma SyncRequested()
    ensures Run(EMPTY_HUB, SYNC_REQUESTED) == SYNC_SENT
    ensures Run(EMPTY_HUB, SYNC_REQUESTED + [Delivered(0)]) == SYNCED
  {
    var connected := Hub(0, map[7 := Subscriber(0, false)], [7], {}, map[0 := Gathering(7)], [], {});
    assert [] + [Connect(7, 0, 0)] == [Connect(7, 0, 0)];
    StepTo([], EMPTY_HUB, Connect(7, 0, 0), connected);
    StepTo([Connect(7, 0, 0)], connected, AllocateSync(0), SYNC_SENT);
    StepTo(SYNC_REQUESTED, SYNC_SENT, Delivered(0), SYNCED);
  }

  /** The same subscriber while its second state sync, numbered 2, is being sent. */
  const RESYNC_SENT :=
    Hub(2, map[7 := Subscriber(1, true)], [7], {}, map[1 := Syncing(7, 2)], [1, 2], {(7, 1)})

  const RESYNC_REQUESTED := SYNC_REQUESTED + [Delivered(0)] + [RequestSync(7, 1)] + [AllocateSync(1)]

  lemma ResyncRequested()
    ensures Run(EMPTY_HUB, RESYNC_REQUESTED) == RESYNC_SENT
  {
    SyncRequested();
    var r := SYNC_REQUESTED + [Delivered(0)];
    var gathering := SYNCED.(tasks := map[1 := Gathering(7)], idle := {});
    StepTo(r, SYNCED, RequestSync(7, 1), gathering);
    StepTo(r + [RequestSync(7, 1)], gathering, AllocateSync(1), RESYNC_SENT);
  }

  /** It happens: meanwhile a broadcast fails and drops the subscriber. */
  const LATE_SYNC := RESYNC_REQUESTED + [StartBroadcast(2, true)] + [Failed(2)] + [Delivered(1)]

  const DROPPED := RESYNC_SENT.(counter := 3, numbers := [1, 2, 3], registry := [])

  lemma SubscriberDropped()
    ensures Run(EMPTY_HUB, Front(LATE_SYNC)) == DROPPED && Last(LATE_SYNC) == Delivered(1)
  {
    ResyncRequested();
    var r := RESYNC_REQUESTED;
    var both := RESYNC_SENT.(
      counter := 3, numbers := [1, 2, 3], tasks := map[1 := Syncing(7, 2), 2 := Broadcast(3, [7])]);
    StepTo(r, RESYNC_SENT, StartBroadcast(2, true), both);
    assert both.tasks - {2} == RESYNC_SENT.tasks;
    StepTo(r + [StartBroadcast(2, true)], both, Failed(2), DROPPED);
    assert Front(LATE_SYNC) == r + [StartBroadcast(2, true)] + [Failed(2)];
  }

  lemma LateSyncMissed()
    ensures var h := Run(EMPTY_HUB, LATE_SYNC);
            && (7, 2) in h.delivered && !Covers(h, 7, 2)
            && 7 in h.subscribers && h.subscribers[7] == Subscriber(1, true)
    ensures SyncedTooLate(LATE_SYNC, 7, 2) && !StampedSince(LATE_SYNC, 7, 2)
  {
    SubscriberDropped();
    assert Sent(DROPPED, Delivered(1)) == Some((7, 2));
    CoversExactly(LATE_SYNC, 7, 2);
  }

  /** Nor does it take a late sync: a broadcast numbered 2 is on its way when a heartbeat tells its number. */
  const EARLY_HEARTBEAT :=
    SYNC_REQUESTED + [Delivered(0)] + [StartBroadcast(1, true)] + [Heartbeat(7, 2)] + [Delivered(2)]

  const BEATING := Hub(2, map[7 := Subscriber(1, true)], [7], {}, map[1 := Broadcast(2, [7]), 2 := Beating(7, 2)],
                       [1, 2], {(7, 1)})

  lemma HeartbeatStarts()
    ensures Run(EMPTY_HUB, Front(EARLY_HEARTBEAT)) == BEATING && Last(EARLY_HEARTBEAT) == Delivered(2)
  {
    SyncRequested();
    var r := SYNC_REQUESTED + [Delivered(0)];
    var told := SYNCED.(counter := 2, numbers := [1, 2], tasks := map[1 := Broadcast(2, [7])]);
    StepTo(r, SYNCED, StartBroadcast(1, true), told);
    StepTo(r + [StartBroadcast(1, true)], told, Heartbeat(7, 2), BEATING);
    assert Front(EARLY_HEARTBEAT) == r + [StartBroadcast(1, true)] + [Heartbeat(7, 2)];
  }

  lemma HeartbeatRunsAhead()
    ensures var h := Run(EMPTY_HUB, EARLY_HEARTBEAT);
            && (7, 2) in h.delivered && 7 in h.registry && !Covers(h, 7, 2)
            && 7 in h.subscribers && h.subscribers[7] == Subscriber(1, true)
    ensures HeartbeatSent(EARLY_HEARTBEAT, 7, 2) && !StampedSince(EARLY_HEARTBEAT, 7, 2)
    ensures !SyncedTooLate(EARLY_HEARTBEAT, 7, 2)
  {
    HeartbeatStarts();
    assert Sent(BEATING, Delivered(2)) == Some((7, 2));
    CoversExactly(EARLY_HEARTBEAT, 7, 2);
    if SyncedTooLate(EARLY_HEARTBEAT, 7, 2) {
      LateMeansLeft(EARLY_HEARTBEAT, 7, 2);
    }
  }

  // ---- is last_seq the number last sent? ---------------------------------

  /** The number of the send that last stamped the subscriber's record. */
  function LastStampedBy(actions: seq<Action>, id: nat): Option<nat> {
    if actions == [] then None
    else
      var h, a := Run(EMPTY_HUB, Front(actions)), Last(actions);
      if Stamps(h, a, id) then Some(Sent(h, a).value.1) else LastStampedBy(Front(actions), id)
  }

  predicate Allocates(h: Hub, a: Action) {
    || (a.StartBroadcast? && a.knownType && a.task !in h.tasks)
    || (a.AllocateSync? && a.task in h.tasks && h.tasks[a.task].Gathering?)
  }

  /** Some number was allocated after n. */
  predicate AllocatedAfter(actions: seq<Action>, n: nat) {
    actions != [] &&
    var h := Run(EMPTY_HUB, Front(actions));
    AllocatedAfter(Front(actions), n) || (Allocates(h, Last(actions)) && n <= h.counter)
  }

  lemma {:induction false} AllocatedAfterMeans(actions: seq<Action>, n: nat)
    ensures AllocatedAfter(actions, n) <==> n < Run(EMPTY_HUB, actions).counter
  {
    if actions != [] {
      AllocatedAfterMeans(Front(actions), n);
    }
  }

  /** Between the allocation of that send's number and its end another number was allocated. */
  predicate Overtaken(actions: seq<Action>, id: nat) {
    actions != [] &&
    var h, a := Run(EMPTY_HUB, Front(actions)), Last(actions);
    if Stamps(h, a, id) then AllocatedAfter(Front(actions), Sent(h, a).value.1) else Overtaken(Front(actions), id)
  }

  /**
    `last_seq` is at least the number of the send that last stamped it, and equal to it exactly when no
    number was allocated from that number's allocation to the end of the send.
   */
  lemma {:induction false} LastSeqIsNumberSent(actions: seq<Action>, id: nat)
    requires LastStampedBy(actions, id).Some?
    ensures Covers(Run(EMPTY_HUB, actions), id, LastStampedBy(actions, id).value)
    ensures Run(EMPTY_HUB, actions).subscribers[id].lastSeq == LastStampedBy(actions, id).value <==>
            !Overtaken(actions, id)
  {
    var h, a := Run(EMPTY_HUB, Front(actions)), Last(actions);
    RunKeeps(EMPTY_HUB, Front(actions));
    if Stamps(h, a, id) {
      assert TaskSound(h, h.tasks[a.task]);
      AllocatedAfterMeans(Front(actions), Sent(h, a).value.1);
    } else {
      LastSeqIsNumberSent(Front(actions), id);
      SendStamps(h, a, id, 0);
    }
  }

  /** It need not be: a broadcast numbered 2 that starts while sync 1 is being sent leaves the record at 2. */
  lemma LastSeqMayOvertakeDeliveries()
    ensures var actions := SYNC_REQUESTED + [StartBroadcast(1, true)] + [Delivered(0)];
            var h := Run(EMPTY_HUB, actions);
            && 7 in h.subscribers && h.subscribers[7].lastSeq == 2 && h.delivered == {(7, 1)}
            && LastStampedBy(actions, 7) == Some(1) && Overtaken(actions, 7)
  {
    SyncRequested();
    var actions := SYNC_REQUESTED + [StartBroadcast(1, true)] + [Delivered(0)];
    assert Front(actions) == SYNC_REQUESTED + [StartBroadcast(1, true)] && Last(actions) == Delivered(0);
    RunStep(EMPTY_HUB, SYNC_REQUESTED, StartBroadcast(1, true));
    LastSeqIsNumberSent(actions, 7);
  }

  // ---- does a broadcast reach every subscriber? --------------------------

  /** The number and the target of the broadcast turn that the step takes, if it takes one. */
  function TurnOf(h: Hub, a: Action): Option<(nat, nat)> {
    if (a.Delivered? || a.Failed? || a.Skipped?) && a.task in h.tasks then
      match h.tasks[a.task]
      case Broadcast(n, pending) => if pending == [] then None else Some((n, pending[0]))
      case _ => None
    else None
  }

  /** The targets that have had a turn of broadcast n, in order. */
  function Turns(actions: seq<Action>, n: nat): seq<nat> {
    if actions == [] then []
    else
      var turn := TurnOf(Run(EMPTY_HUB, Front(actions)), Last(actions));
      Turns(Front(actions), n) + if turn.Some? && turn.value.0 == n then [turn.value.1] else []
  }

  predicate Starts(h: Hub, a: Action, n: nat) {
    a.StartBroadcast? && a.knownType && a.task !in h.tasks && n == h.counter + 1
  }

  /** The registry when the broadcast numbered n started, if there was one. */
  function Audience(actions: seq<Action>, n: nat): Option<seq<nat>> {
    if actions == [] then None
    else
      var h := Run(EMPTY_HUB, Front(actions));
      if Starts(h, Last(actions), n) then Some(h.registry) else Audience(Front(actions), n)
  }

  predicate IsBroadcast(h: Hub, t: nat, n: nat) { t in h.tasks && h.tasks[t].Broadcast? && h.tasks[t].number == n }

  /** Broadcast n, still going on or over, owes a turn to the rest of its audience and to nobody else. */
  ghost predicate OnTrack(h: Hub, n: nat, turns: seq<nat>, audience: Option<seq<nat>>) {
    && (forall t :: IsBroadcast(h, t, n) ==>
          h.tasks[t].pending != [] && audience == Some(turns + h.tasks[t].pending))
    && (forall t, u :: IsBroadcast(h, t, n) && IsBroadcast(h, u, n) ==> t == u)
    && ((forall t :: !IsBroadcast(h, t, n)) ==> turns == if audience.Some? then audience.value else [])
  }

  /** A turn takes the first pending target, and ends the broadcast only if it was the last. */
  lemma TurnAdvances(h: Hub, a: Action, n: nat, target: nat, t: nat)
    requires TurnOf(h, a) == Some((n, target))
    ensures IsBroadcast(Step(h, a), a.task, n) <==> |h.tasks[a.task].pending| > 1
    ensures IsBroadcast(Step(h, a), a.task, n) ==>
              h.tasks[a.task].pending == [target] + Step(h, a).tasks[a.task].pending
    ensures t != a.task ==> (t in Step(h, a).tasks <==> t in h.tasks)
    ensures t != a.task && t in h.tasks ==> Step(h, a).tasks[t] == h.tasks[t]
  {
  }

  /** No step but a turn of its own or its start touches a broadcast. */
  lemma BroadcastUntouched(h: Hub, a: Action, n: nat, t: nat)
    requires !Starts(h, a, n) && !(TurnOf(h, a).Some? && TurnOf(h, a).value.0 == n)
    requires forall u :: IsBroadcast(h, u, n) ==> h.tasks[u].pending != []
    ensures IsBroadcast(Step(h, a), t, n) <==> IsBroadcast(h, t, n)
    ensures IsBroadcast(h, t, n) ==> Step(h, a).tasks[t] == h.tasks[t]
  {
  }

  lemma StartOnTrack(h: Hub, a: Action, n: nat)
    requires Invariant(h) && Starts(h, a, n)
    ensures OnTrack(Step(h, a), n, [], Some(h.registry))
  {
    forall t | t in h.tasks ensures !IsBroadcast(h, t, n) {
      assert TaskSound(h, h.tasks[t]);
    }
    assert [] + h.registry == h.registry;
    assert h.registry != [] ==> IsBroadcast(Step(h, a), a.task, n);
  }

  lemma UntouchedOnTrack(h: Hub, a: Action, n: nat, turns: seq<nat>, audience: Option<seq<nat>>)
    requires OnTrack(h, n, turns, audience)
    requires !Starts(h, a, n) && !(TurnOf(h, a).Some? && TurnOf(h, a).value.0 == n)
    ensures OnTrack(Step(h, a), n, turns, audience)
  {
    forall t ensures IsBroadcast(Step(h, a), t, n) <==> IsBroadcast(h, t, n)
             ensures IsBroadcast(h, t, n) ==> Step(h, a).tasks[t] == h.tasks[t] {
      BroadcastUntouched(h, a, n, t);
    }
  }

  lemma TurnOnTrack(h: Hub, a: Action, n: nat, target: nat, turns: seq<nat>, audience: Option<seq<nat>>)
    requires OnTrack(h, n, turns, audience) && TurnOf(h, a) == Some((n, target))
    ensures OnTrack(Step(h, a), n, turns + [target], audience)
  {
    assert IsBroadcast(h, a.task, n);
    forall t ensures t != a.task ==> !IsBroadcast(Step(h, a), t, n) {
      TurnAdvances(h, a, n, target, t);
    }
    TurnAdvances(h, a, n, target, a.task);
    var pending := h.tasks[a.task].pending;
    if |pending| > 1 {
      assert turns + pending == (turns + [target]) + pending[1..];
    } else {
      assert pending == [target];
    }
  }

  lemma NotYetStarted(actions: seq<Action>, n: nat)
    ensures n > Run(EMPTY_HUB, actions).counter ==> Audience(actions, n).None? && Turns(actions, n) == []
  {
    if actions != [] {
      var h := Run(EMPTY_HUB, Front(actions));
      NotYetStarted(Front(actions), n);
      RunKeeps(EMPTY_HUB, Front(actions));
      var turn := TurnOf(h, Last(actions));
      if turn.Some? {
        assert TaskSound(h, h.tasks[Last(actions).task]);
      }
    }
  }

  lemma StepOnTrack(h: Hub, a: Action, n: nat, turns: seq<nat>, audience: Option<seq<nat>>)
    requires Invariant(h) && OnTrack(h, n, turns, audience)
    requires Starts(h, a, n) ==> turns == []
    ensures var turn := TurnOf(h, a);
            OnTrack(Step(h, a), n, turns + (if turn.Some? && turn.value.0 == n then [turn.value.1] else []),
                    if Starts(h, a, n) then Some(h.registry) else audience)
  {
    assert turns + [] == turns;
    if Starts(h, a, n) {
      StartOnTrack(h, a, n);
    } else if TurnOf(h, a).Some? && TurnOf(h, a).value.0 == n {
      TurnOnTrack(h, a, n, TurnOf(h, a).value.1, turns, audience);
    } else {
      UntouchedOnTrack(h, a, n, turns, audience);
    }
  }

  lemma {:induction false} RunOnTrack(actions: seq<Action>, n: nat)
    ensures OnTrack(Run(EMPTY_HUB, actions), n, Turns(actions, n), Audience(actions, n))
  {
    if actions != [] {
      RunOnTrack(Front(actions), n);
      RunKeeps(EMPTY_HUB, Front(actions));
      NotYetStarted(Front(actions), n);
      var before := Front(actions);
      StepOnTrack(Run(EMPTY_HUB, before), Last(actions), n, Turns(before, n), Audience(before, n));
    }
  }

  ghost predicate NoRepeats(s: seq<nat>) { forall x :: multiset(s)[x] <= 1 }

  /** The others stay, each as often as before. */
  lemma {:induction false} WithoutOthers(s: seq<nat>, id: nat)
    ensures multiset(Without(s, id)) == multiset(s)[id := 0]
  {
    if s != [] {
      WithoutOthers(s[1..], id);
      assert s == [s[0]] + s[1..];
    }
  }

  /** A step appends a new subscriber to the registry, drops one from it, or leaves it alone. */
  lemma RegistryStep(h: Hub, a: Action)
    requires Invariant(h)
    ensures var r := Step(h, a).registry;
            || r == h.registry
            || (a.Connect? && r == h.registry + [a.id] && a.id !in h.registry)
            || (a.Disconnect? && r == Without(h.registry, a.id))
            || (a.Failed? && a.task in h.tasks && h.tasks[a.task].Beating?
                && r == Without(h.registry, h.tasks[a.task].target))
            || (TurnOf(h, a).Some? && a.Failed? && r == Without(h.registry, TurnOf(h, a).value.1))
  {
  }

  lemma StepNoRepeats(h: Hub, a: Action)
    requires Invariant(h) && NoRepeats(h.registry)
    ensures NoRepeats(Step(h, a).registry)
  {
    RegistryStep(h, a);
    if a.Disconnect? {
      WithoutOthers(h.registry, a.id);
    } else if a.Failed? && a.task in h.tasks && h.tasks[a.task].Beating? {
      WithoutOthers(h.registry, h.tasks[a.task].target);
    } else if TurnOf(h, a).Some? {
      WithoutOthers(h.registry, TurnOf(h, a).value.1);
    }
  }

  lemma {:induction false} RegistryNoRepeats(actions: seq<Action>)
    ensures NoRepeats(Run(EMPTY_HUB, actions).registry)
  {
    if actions != [] {
      RegistryNoRepeats(Front(actions));
      RunKeeps(EMPTY_HUB, Front(actions));
      StepNoRepeats(Run(EMPTY_HUB, Front(actions)), Last(actions));
    }
  }

  lemma {:induction false} AudienceNoRepeats(actions: seq<Action>, n: nat)
    requires Audience(actions, n).Some?
    ensures NoRepeats(Audience(actions, n).value)
  {
    RegistryNoRepeats(Front(actions));
    if !Starts(Run(EMPTY_HUB, Front(actions)), Last(actions), n) {
      AudienceNoRepeats(Front(actions), n);
    }
  }

  /**
    Under every interleaving the subscribers that have had a turn of a broadcast, and those it is still to
    reach, are exactly those registered when it started, in that order; once it is over each has had one.
   */
  lemma BroadcastReachesAll(actions: seq<Action>, n: nat, t: nat)
    requires Audience(actions, n).Some?
    ensures var h := Run(EMPTY_HUB, actions);
            && (IsBroadcast(h, t, n) ==> Turns(actions, n) + h.tasks[t].pending == Audience(actions, n).value)
            && ((forall u :: !IsBroadcast(h, u, n)) ==> Turns(actions, n) == Audience(actions, n).value)
    ensures NoRepeats(Audience(actions, n).value)
  {
    RunOnTrack(actions, n);
    AudienceNoRepeats(actions, n);
  }

  /** What a turn does: it delivers, drops the subscriber and no other, or passes it over. */
  lemma TurnEffect(h: Hub, a: Action, n: nat, target: nat, id: nat)
    requires Invariant(h) && TurnOf(h, a) == Some((n, target))
    ensures a.Delivered? ==> (target, n) in Step(h, a).delivered && Step(h, a).registry == h.registry
    ensures a.Failed? ==> (id in Step(h, a).registry <==> id in h.registry && id != target)
    ensures a.Skipped? ==> Step(h, a).registry == h.registry
    ensures !a.Delivered? ==> Step(h, a).delivered == h.delivered && Step(h, a).subscribers == h.subscribers
  {
  }

  /** A step on one task leaves every other task as it was. */
  lemma OtherTasksKept(h: Hub, a: Action, t: nat)
    requires t in h.tasks && (a.Disconnect? || a.task != t)
    ensures t in Step(h, a).tasks && Step(h, a).tasks[t] == h.tasks[t]
  {
  }

  /** A record changes only when its subscriber is stamped. */
  lemma OtherRecordsKept(h: Hub, a: Action, id: nat)
    requires Invariant(h) && id in h.subscribers && !Stamps(h, a, id)
    ensures id in Step(h, a).subscribers && Step(h, a).subscribers[id] == h.subscribers[id]
  {
  }

  /** A handler whose own sync or heartbeat ends waits for messages again, unless the heartbeat raised. */
  lemma HandlerReturns(h: Hub, task: nat)
    requires task in h.tasks && !h.tasks[task].Broadcast?
    ensures var id, after := h.tasks[task].target, Step(h, Failed(task));
            && task !in after.tasks && after.delivered == h.delivered
            && if h.tasks[task].Beating? then after.idle == h.idle && id !in after.registry
               else id in after.idle && after.registry == h.registry
    ensures !h.tasks[task].Gathering? ==>
              var id, after := h.tasks[task].target, Step(h, Delivered(task));
              task !in after.tasks && id in after.idle && after.registry == h.registry
  {
  }

  /** An event type nobody knows takes no number and changes nothing. */
  lemma UnknownTypeIgnored(h: Hub, task: nat)
    ensures Step(h, StartBroadcast(task, false)) == h
  {
  }

  /** A client may still claim any number in its hello, even one not yet allocated. */
  lemma ClientSeqUnchecked(clientSeq: int)
    ensures var h := Run(EMPTY_HUB, [Connect(7, 0, clientSeq)]);
            7 in h.subscribers && h.subscribers[7] == Subscriber(clientSeq, false) && h.counter == 0
  {
  }

  // ---- the server's own state --------------------------------------------

  /** The module's globals, with the suspended coroutines the event loop holds. */
  class Server {
    var eventSeq: nat
    var subscribers: map<nat, Subscriber>
    var registry: seq<nat>
    var idle: set<nat>
    var tasks: map<nat, Task>
    ghost var numbers: seq<nat>
    ghost var delivered: set<(nat, nat)>

    ghost function View(): Hub
      reads this
    {
      Hub(eventSeq, subscribers, registry, idle, tasks, numbers, delivered)
    }

    constructor ()
      ensures View() == EMPTY_HUB && Invariant(View())
    {
      eventSeq, subscribers, registry, idle, tasks, numbers, delivered := 0, map[], [], {}, map[], [], {};
    }

    /** A client connects under a new id, and its state sync begins. */
    method Connect(id: nat, task: nat, clientSeq: int)
      requires Invariant(View()) && id !in subscribers && task !in tasks
      modifies this
      ensures View() == Step(old(View()), Action.Connect(id, task, clientSeq)) && Invariant(View())
    {
      StepKeeps(View(), Action.Connect(id, task, clientSeq));
      subscribers := subscribers[id := Subscriber(clientSeq, false)];
      registry := registry + [id];
      tasks := tasks[task := Gathering(id)];
    }

    /** The handler of a connection ends while it waits for a message. */
    method Disconnect(id: nat)
      requires Invariant(View()) && id in idle
      modifies this
      ensures View() == Step(old(View()), Action.Disconnect(id)) && Invariant(View())
    {
      StepKeeps(View(), Action.Disconnect(id));
      registry := Without(registry, id);
      idle := idle - {id};
    }

    /** `_epic_broadcast` up to its first send: an unknown event type takes no number. */
    method StartBroadcast(task: nat, knownType: bool)
      requires Invariant(View()) && task !in tasks
      modifies this
      ensures View() == Step(old(View()), Action.StartBroadcast(task, knownType)) && Invariant(View())
    {
      StepKeeps(View(), Action.StartBroadcast(task, knownType));
      if !knownType {
        return;
      }
      eventSeq := eventSeq + 1;
      numbers := numbers + [eventSeq];
      if registry != [] {
        tasks := tasks[task := Broadcast(eventSeq, registry)];
      }
    }

    /** One target of a broadcast: its send returned, raised, or the target was not interested. */
    method BroadcastTurn(task: nat, sent: bool, skipped: bool)
      requires Invariant(View()) && task in tasks && tasks[task].Broadcast? && tasks[task].pending != []
      modifies this
      ensures View() == Step(old(View()),
                             if skipped then Skipped(task) else if sent then Delivered(task) else Failed(task))
      ensures Invariant(View())
    {
      StepKeeps(View(), if skipped then Skipped(task) else if sent then Delivered(task) else Failed(task));
      var Broadcast(n, pending) := tasks[task];
      if !skipped {
        if sent {
          subscribers := subscribers[pending[0] := Subscriber(eventSeq, true)];
          delivered := delivered + {(pending[0], n)};
        } else {
          registry := Without(registry, pending[0]);
        }
      }
      tasks := if |pending| <= 1 then tasks - {task} else tasks[task := Broadcast(n, pending[1..])];
    }

    /** `_send_state_sync` once its snapshot is gathered: the number is taken and the send begins. */
    method AllocateSync(task: nat)
      requires Invariant(View()) && task in tasks && tasks[task].Gathering?
      modifies this
      ensures View() == Step(old(View()), Action.AllocateSync(task)) && Invariant(View())
    {
      StepKeeps(View(), Action.AllocateSync(task));
      eventSeq := eventSeq + 1;
      numbers := numbers + [eventSeq];
      tasks := tasks[task := Syncing(tasks[task].target, eventSeq)];
    }

    /** Gathering the snapshot failed: no number is taken. */
    method AbandonSync(task: nat)
      requires Invariant(View()) && task in tasks && tasks[task].Gathering?
      modifies this
      ensures View() == Step(old(View()), Failed(task)) && Invariant(View())
    {
      StepKeeps(View(), Failed(task));
      idle := idle + {tasks[task].target};
      tasks := tasks - {task};
    }

    /** The rest of `_send_state_sync`; a target that left meanwhile makes the lookup fail, which is logged. */
    method FinishSync(task: nat, sent: bool)
      requires Invariant(View()) && task in tasks && tasks[task].Syncing?
      modifies this
      ensures View() == Step(old(View()), if sent then Delivered(task) else Failed(task)) && Invariant(View())
    {
      StepKeeps(View(), if sent then Delivered(task) else Failed(task));
      var Syncing(target, n) := tasks[task];
      if sent {
        delivered := delivered + {(target, n)};
        if target in registry {
          subscribers := subscribers[target := Subscriber(eventSeq, true)];
        }
      }
      tasks := tasks - {task};
      idle := idle + {target};
    }

    /** No message came in time: the handler sends a heartbeat with the counter as it stands. */
    method Heartbeat(id: nat, task: nat)
      requires Invariant(View()) && id in idle && task !in tasks
      modifies this
      ensures View() == Step(old(View()), Action.Heartbeat(id, task)) && Invariant(View())
    {
      StepKeeps(View(), Action.Heartbeat(id, task));
      tasks := tasks[task := Beating(id, eventSeq)];
      idle := idle - {id};
    }

    /** A heartbeat that was sent stamps nothing; one that raises ends the handler. */
    method FinishHeartbeat(task: nat, sent: bool)
      requires Invariant(View()) && task in tasks && tasks[task].Beating?
      modifies this
      ensures View() == Step(old(View()), if sent then Delivered(task) else Failed(task)) && Invariant(View())
    {
      StepKeeps(View(), if sent then Delivered(task) else Failed(task));
      var Beating(target, n) := tasks[task];
      tasks := tasks - {task};
      if sent {
        delivered := delivered + {(target, n)};
        idle := idle + {target};
      } else {
        registry := Without(registry, target);
      }
    }

    /** A waiting client asks for another state sync; one that has left the registry is ignored. */
    method RequestSync(id: nat, task: nat)
      requires Invariant(View()) && id in idle && task !in tasks
      modifies this
      ensures View() == Step(old(View()), Action.RequestSync(id, task)) && Invariant(View())
    {
      StepKeeps(View(), Action.RequestSync(id, task));
      if id in registry {
        tasks := tasks[task := Gathering(id)];
        idle := idle - {id};
      }
    }
  }
}
