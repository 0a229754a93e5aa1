/**
  One Ollama lane of the GPU router: its VRAM arithmetic, its circuit breaker and its recovery budget,
  and what these guarantee over every run.  Times are readings of a clock that never goes back.
 */
module Lanes {
  import opened Options
  import opened Rounding

  datatype RouterConfig = RouterConfig(
    recoveryCooldown: real, recoveryMaxAttempts: int, threshold: int, breakerCooldown: real, margin: real)

  datatype LaneConfig = LaneConfig(name: string, gpu: int, systemdUnit: string, role: string) {
    predicate IsCompat() { role == "compat" }
  }

  datatype GpuInfo = GpuInfo(freeMib: nat) {
    function FreeGib(): real { Round2(freeMib as real / 1024.0) }
  }

  datatype Resident = Resident(model: string, bytes: nat)

  const BYTES_PER_GIB := 1073741824.0

  function TotalBytes(rs: seq<Resident>): nat {
    if rs == [] then 0 else rs[0].bytes + TotalBytes(rs[1..])
  }

  function FindResident(rs: seq<Resident>, model: string, i: nat := 0): (k: nat)
    requires i <= |rs|
    ensures i <= k <= |rs| && (forall j :: i <= j < k ==> rs[j].model != model)
    ensures k < |rs| ==> rs[k].model == model
    decreases |rs| - i
  {
    if i == |rs| || rs[i].model == model then i else FindResident(rs, model, i + 1)
  }

  /** What a lane record holds at one moment. */
  datatype Lane = Lane(
    cfg: LaneConfig, healthy: bool, loaded: seq<Resident>, gpu: Option<GpuInfo>, failures: nat,
    openUntil: real, lastRecovery: real, recoveryAttempts: nat)
  {
    predicate Holds(model: string) { FindResident(loaded, model) < |loaded| }

    function ReservedGib(): real { TotalBytes(loaded) as real / BYTES_PER_GIB }

    /** Free VRAM minus what the lane already holds, minus the margin, covers the model. */
    predicate Fits(vram: real, margin: real) {
      gpu.Some? && gpu.value.FreeGib() - ReservedGib() - margin >= vram
    }

    predicate OpenAt(now: real) { openUntil > now }

    predicate EligibleAt(now: real) { healthy && !OpenAt(now) }

    function FreeKey(): real { if gpu.Some? then gpu.value.FreeGib() else 0.0 }
  }

  function FreshLane(cfg: LaneConfig): Lane { Lane(cfg, false, [], None, 0, 0.0, 0.0, 0) }

  // ---- single transitions ------------------------------------------------

  function MarkFailure(c: RouterConfig, l: Lane, now: real): Lane {
    if l.failures + 1 >= c.threshold then l.(openUntil := now + c.breakerCooldown, failures := 0)
    else l.(failures := l.failures + 1)
  }

  function MarkSuccess(l: Lane): Lane { l.(failures := 0, openUntil := 0.0) }

  predicate MayRecover(c: RouterConfig, l: Lane, now: real) {
    && l.cfg.systemdUnit != ""
    && now - l.lastRecovery >= c.recoveryCooldown
    && l.recoveryAttempts < c.recoveryMaxAttempts
  }

  function TryRecover(c: RouterConfig, l: Lane, now: real): Lane {
    if MayRecover(c, l, now) then l.(lastRecovery := now, recoveryAttempts := l.recoveryAttempts + 1) else l
  }

  /** A failure reads the clock three times: to open the breaker, to test it, and to restart the unit. */
  predicate RestartsOnFailure(c: RouterConfig, l: Lane, marked: real, tested: real, restarted: real) {
    MarkFailure(c, l, marked).OpenAt(tested) && MayRecover(c, MarkFailure(c, l, marked), restarted)
  }

  function OnFailure(c: RouterConfig, l: Lane, marked: real, tested: real, restarted: real): Lane {
    var m := MarkFailure(c, l, marked);
    if m.OpenAt(tested) then TryRecover(c, m, restarted) else m
  }

  function Refreshed(l: Lane, healthy: bool, loaded: seq<Resident>, gpu: Option<GpuInfo>): Lane {
    l.(healthy := healthy, loaded := if healthy then loaded else [], gpu := gpu)
  }

  // ---- what the fields mean ----------------------------------------------

  /** A reading in GiB is the free MiB over 1024, to the hundredth. */
  lemma FreeGibReads(g: GpuInfo)
    ensures 1024.0 * g.FreeGib() - 5.12 <= g.freeMib as real <= 1024.0 * g.FreeGib() + 5.12
  {
  }

  /** Every resident counts, in any order. */
  lemma {:induction false} TotalBytesAdds(rs: seq<Resident>, ss: seq<Resident>)
    ensures TotalBytes(rs + ss) == TotalBytes(rs) + TotalBytes(ss)
    ensures forall r: Resident :: TotalBytes([r]) == r.bytes
  {
    if rs == [] {
      assert rs + ss == ss;
    } else {
      assert (rs + ss)[1..] == rs[1..] + ss;
      TotalBytesAdds(rs[1..], ss);
    }
  }

  /** A model fits when, in bytes, the reading covers it with the margin and all that is resident. */
  lemma FitsMeans(l: Lane, vram: real, margin: real)
    ensures l.Fits(vram, margin) <==>
            l.gpu.Some? &&
            l.gpu.value.FreeGib() * 1073741824.0 >= (vram + margin) * 1073741824.0 + TotalBytes(l.loaded) as real
  {
    var gib := 1073741824.0;
    assert l.ReservedGib() * gib == TotalBytes(l.loaded) as real;
    if l.gpu.Some? {
      var gap := l.gpu.value.FreeGib() - l.ReservedGib() - margin - vram;
      assert gap * gib ==
             l.gpu.value.FreeGib() * gib - TotalBytes(l.loaded) as real - (vram + margin) * gib;
    }
  }

  // ---- whole runs of one lane --------------------------------------------

  /** What happens to a lane, with the clock readings its handling used. */
  datatype LaneEvent =
    | Failed(marked: real, tested: real, restarted: real)
    | Succeeded(at: real)
    | Polled(healthy: bool, loaded: seq<Resident>, gpu: Option<GpuInfo>)

  function Apply(c: RouterConfig, l: Lane, e: LaneEvent): Lane {
    match e
    case Failed(marked, tested, restarted) => OnFailure(c, l, marked, tested, restarted)
    case Succeeded(_) => MarkSuccess(l)
    case Polled(healthy, loaded, gpu) => Refreshed(l, healthy, loaded, gpu)
  }

  function After(c: RouterConfig, cfg: LaneConfig, h: seq<LaneEvent>): Lane {
    if h == [] then FreshLane(cfg) else Apply(c, After(c, cfg, h[..|h| - 1]), h[|h| - 1])
  }

  lemma AfterStep(c: RouterConfig, cfg: LaneConfig, h: seq<LaneEvent>, e: LaneEvent)
    ensures After(c, cfg, h + [e]) == Apply(c, After(c, cfg, h), e)
  {
  }

  /** Failures since the last success. */
  function Streak(h: seq<LaneEvent>): nat {
    if h == [] then 0
    else
      var before := Streak(h[..|h| - 1]);
      match h[|h| - 1]
      case Failed(_, _, _) => before + 1
      case Succeeded(_) => 0
      case Polled(_, _, _) => before
  }

  /** A threshold of one or less opens the breaker on every failure. */
  function Strikes(c: RouterConfig): (n: nat)
    ensures n >= 1
  {
    if c.threshold >= 1 then c.threshold else 1
  }

  /** The time of the last failure that completed a full set of strikes, if no success came after it. */
  function LastOpening(c: RouterConfig, h: seq<LaneEvent>): Option<real> {
    if h == [] then None
    else
      match h[|h| - 1]
      case Failed(marked, _, _) =>
        if Streak(h) % Strikes(c) == 0 then Some(marked) else LastOpening(c, h[..|h| - 1])
      case Succeeded(_) => None
      case Polled(_, _, _) => LastOpening(c, h[..|h| - 1])
  }

  lemma NextStrike(s: nat, n: nat)
    requires n >= 1
    ensures (s + 1) % n == if s % n + 1 == n then 0 else s % n + 1
  {
    var q, r := s / n, s % n;
    assert s == n * q + r;
    if r + 1 == n {
      assert s + 1 == n * (q + 1);
      ModIs(s + 1, n, q + 1, 0);
    } else {
      ModIs(s + 1, n, q, r + 1);
    }
  }

  lemma AtLeastOnce(n: int, d: int)
    requires n >= 1 && d >= 1
    ensures n * d >= n
  {
  }

  lemma ModIs(a: nat, n: nat, q: nat, r: nat)
    requires n >= 1 && a == n * q + r && r < n
    ensures a % n == r
  {
    var d := q - a / n;
    assert n * d == n * q - n * (a / n);
    assert n * d == a % n - r;
    if d >= 1 {
      AtLeastOnce(n, d);
    } else if d <= -1 {
      AtLeastOnce(n, -d);
      assert n * -d == -(n * d);
    }
  }

  /** Counter and open-until time, given the streak and the last opening. */
  predicate BreakerIs(c: RouterConfig, l: Lane, streak: nat, opening: Option<real>) {
    && l.failures == streak % Strikes(c)
    && l.openUntil == match opening case None => 0.0 case Some(t) => t + c.breakerCooldown
  }

  lemma BreakerFails(c: RouterConfig, l: Lane, streak: nat, opening: Option<real>, e: LaneEvent)
    requires e.Failed? && BreakerIs(c, l, streak, opening)
    ensures BreakerIs(c, Apply(c, l, e), streak + 1,
                      if (streak + 1) % Strikes(c) == 0 then Some(e.marked) else opening)
  {
    NextStrike(streak, Strikes(c));
  }

  lemma BreakerStarts(c: RouterConfig, l: Lane)
    requires l.failures == 0 && l.openUntil == 0.0
    ensures BreakerIs(c, l, 0, None)
  {
  }

  lemma BreakerStep(c: RouterConfig, l: Lane, h: seq<LaneEvent>)
    requires h != [] && BreakerIs(c, l, Streak(h[..|h| - 1]), LastOpening(c, h[..|h| - 1]))
    ensures BreakerIs(c, Apply(c, l, h[|h| - 1]), Streak(h), LastOpening(c, h))
  {
    var before, e := h[..|h| - 1], h[|h| - 1];
    match e
    case Failed(marked, _, _) =>
      assert Streak(h) == Streak(before) + 1;
      BreakerFails(c, l, Streak(before), LastOpening(c, before), e);
    case Succeeded(_) =>
      BreakerStarts(c, Apply(c, l, e));
    case Polled(_, _, _) =>
      assert Streak(h) == Streak(before) && LastOpening(c, h) == LastOpening(c, before);
  }

  /**
    The breaker is a function of the outcome history: the counter is the failure streak modulo the
    threshold, and the breaker opens exactly when a failure completes a multiple of the threshold.
   */
  lemma {:induction false} BreakerHistory(c: RouterConfig, cfg: LaneConfig, h: seq<LaneEvent>)
    ensures BreakerIs(c, After(c, cfg, h), Streak(h), LastOpening(c, h))
    ensures After(c, cfg, h).cfg == cfg
  {
    if h == [] {
      BreakerStarts(c, FreshLane(cfg));
    } else {
      BreakerHistory(c, cfg, h[..|h| - 1]);
      BreakerStep(c, After(c, cfg, h[..|h| - 1]), h);
    }
  }

  /** So the counter stays below the threshold. */
  lemma FailuresBelowThreshold(c: RouterConfig, cfg: LaneConfig, h: seq<LaneEvent>)
    requires c.threshold >= 1
    ensures After(c, cfg, h).failures < c.threshold
  {
  }

  /** The circuit is open at `now` exactly when such a failure lies less than the cooldown back. */
  lemma OpenExactly(c: RouterConfig, cfg: LaneConfig, h: seq<LaneEvent>, now: real)
    requires now >= 0.0
    ensures After(c, cfg, h).OpenAt(now) <==>
            LastOpening(c, h).Some? && now < LastOpening(c, h).value + c.breakerCooldown
  {
    BreakerHistory(c, cfg, h);
  }

  predicate FailsThroughout(h: seq<LaneEvent>, from: nat) {
    forall i :: from <= i < |h| ==> !h[i].Succeeded?
  }

  function FailuresIn(h: seq<LaneEvent>, from: nat): nat
    requires from <= |h|
    decreases |h|
  {
    if from == |h| then 0
    else FailuresIn(h[..|h| - 1], from) + if h[|h| - 1].Failed? then 1 else 0
  }

  /** The streak is what its name says: that many failures end the history with no success among them. */
  lemma {:induction false} StreakMeans(h: seq<LaneEvent>) returns (from: nat)
    ensures from <= |h| && FailsThroughout(h, from) && FailuresIn(h, from) == Streak(h)
    ensures from > 0 ==> h[from - 1].Succeeded?
  {
    if h == [] {
      from := 0;
    } else {
      var before := h[..|h| - 1];
      if h[|h| - 1].Succeeded? {
        from := |h|;
      } else {
        from := StreakMeans(before);
      }
    }
  }

  /** A failure that opens the breaker ends at least the threshold of failures with no success among them. */
  lemma OpeningFollowsStrikes(c: RouterConfig, cfg: LaneConfig, h: seq<LaneEvent>, e: LaneEvent)
    returns (from: nat)
    requires e.Failed? && After(c, cfg, h).failures + 1 >= c.threshold
    ensures from <= |h| && FailsThroughout(h + [e], from) && FailuresIn(h + [e], from) >= Strikes(c)
  {
    assert (h + [e])[..|h|] == h;
    BreakerHistory(c, cfg, h);
    NextStrike(Streak(h), Strikes(c));
    StrikesComplete(Streak(h), Strikes(c));
    from := StreakMeans(h);
  }

  lemma StrikesComplete(s: nat, n: nat)
    requires n >= 1 && s % n + 1 >= n
    ensures s + 1 >= n
  {
  }

  // ---- recovery ----------------------------------------------------------

  /** Did this event restart the lane's unit? */
  predicate RestartsAt(c: RouterConfig, cfg: LaneConfig, h: seq<LaneEvent>, k: nat)
    requires k < |h|
  {
    h[k].Failed? && RestartsOnFailure(c, After(c, cfg, h[..k]), h[k].marked, h[k].tested, h[k].restarted)
  }

  /** The positions of the events that restarted the unit, in order. */
  function Restarts(c: RouterConfig, cfg: LaneConfig, h: seq<LaneEvent>): seq<nat> {
    if h == [] then []
    else Restarts(c, cfg, h[..|h| - 1]) + if RestartsAt(c, cfg, h, |h| - 1) then [|h| - 1] else []
  }

  lemma RestartsAtPrefix(c: RouterConfig, cfg: LaneConfig, h: seq<LaneEvent>, n: nat, k: nat)
    requires k < n <= |h|
    ensures RestartsAt(c, cfg, h[..n], k) == RestartsAt(c, cfg, h, k)
  {
    assert h[..n][..k] == h[..k];
  }

  predicate ExactlyRestarts(c: RouterConfig, cfg: LaneConfig, h: seq<LaneEvent>, r: seq<nat>) {
    && (forall i :: 0 <= i < |r| ==> r[i] < |h| && RestartsAt(c, cfg, h, r[i]))
    && (forall i, j :: 0 <= i < j < |r| ==> r[i] < r[j])
    && forall k :: 0 <= k < |h| && RestartsAt(c, cfg, h, k) ==> k in r
  }

  /** These are exactly the positions of events that restarted the unit. */
  lemma {:induction false} RestartsExactly(c: RouterConfig, cfg: LaneConfig, h: seq<LaneEvent>)
    ensures ExactlyRestarts(c, cfg, h, Restarts(c, cfg, h))
  {
    if h != [] {
      var n := |h| - 1;
      RestartsExactly(c, cfg, h[..n]);
      var r := Restarts(c, cfg, h[..n]);
      forall k | 0 <= k < n ensures RestartsAt(c, cfg, h[..n], k) == RestartsAt(c, cfg, h, k) {
        RestartsAtPrefix(c, cfg, h, n, k);
      }
    }
  }

  lemma RestartsStep(c: RouterConfig, cfg: LaneConfig, h: seq<LaneEvent>)
    requires h != []
    ensures var n := |h| - 1;
            && Restarts(c, cfg, h) == Restarts(c, cfg, h[..n]) + (if RestartsAt(c, cfg, h, n) then [n] else [])
            && (RestartsAt(c, cfg, h, n) <==>
                  After(c, cfg, h).recoveryAttempts == After(c, cfg, h[..n]).recoveryAttempts + 1)
            && (RestartsAt(c, cfg, h, n) ==>
                  && After(c, cfg, h).lastRecovery == h[n].restarted
                  && h[n].restarted - After(c, cfg, h[..n]).lastRecovery >= c.recoveryCooldown
                  && After(c, cfg, h[..n]).recoveryAttempts < c.recoveryMaxAttempts)
            && (!RestartsAt(c, cfg, h, n) ==>
                  && After(c, cfg, h).lastRecovery == After(c, cfg, h[..n]).lastRecovery
                  && After(c, cfg, h).recoveryAttempts == After(c, cfg, h[..n]).recoveryAttempts)
  {
  }

  /** The restarts at the given positions are at least the cooldown apart, the first counted from time 0. */
  predicate Spaced(c: RouterConfig, h: seq<LaneEvent>, r: seq<nat>) {
    && (forall i :: 0 <= i < |r| ==> r[i] < |h| && h[r[i]].Failed?)
    && (forall i :: 1 <= i < |r| ==> h[r[i]].restarted - h[r[i - 1]].restarted >= c.recoveryCooldown)
    && (r != [] ==> h[r[0]].restarted >= c.recoveryCooldown)
  }

  function LastRestart(c: RouterConfig, h: seq<LaneEvent>, r: seq<nat>): real
    requires Spaced(c, h, r)
  {
    if r == [] then 0.0 else h[r[|r| - 1]].restarted
  }

  lemma SpacedLater(c: RouterConfig, h: seq<LaneEvent>, n: nat, r: seq<nat>)
    requires n <= |h| && Spaced(c, h[..n], r)
    ensures Spaced(c, h, r) && LastRestart(c, h, r) == LastRestart(c, h[..n], r)
  {
  }

  lemma SpacedAdds(c: RouterConfig, h: seq<LaneEvent>, r: seq<nat>, n: nat)
    requires Spaced(c, h, r) && n < |h| && h[n].Failed?
    requires h[n].restarted - LastRestart(c, h, r) >= c.recoveryCooldown
    ensures Spaced(c, h, r + [n]) && LastRestart(c, h, r + [n]) == h[n].restarted
  {
  }

  /**
    Over the lane's whole life the attempt counter is the number of restarts, it never passes the cap,
    and neighbouring restarts are at least the recovery cooldown apart, the first included (from time 0).
   */
  lemma {:induction false} RecoveryHistory(c: RouterConfig, cfg: LaneConfig, h: seq<LaneEvent>)
    ensures After(c, cfg, h).recoveryAttempts == |Restarts(c, cfg, h)|
    ensures |Restarts(c, cfg, h)| <= if c.recoveryMaxAttempts > 0 then c.recoveryMaxAttempts else 0
    ensures Spaced(c, h, Restarts(c, cfg, h))
    ensures After(c, cfg, h).lastRecovery == LastRestart(c, h, Restarts(c, cfg, h))
  {
    if h != [] {
      var n := |h| - 1;
      RecoveryHistory(c, cfg, h[..n]);
      RestartsStep(c, cfg, h);
      SpacedLater(c, h, n, Restarts(c, cfg, h[..n]));
      if RestartsAt(c, cfg, h, n) {
        SpacedAdds(c, h, Restarts(c, cfg, h[..n]), n);
      }
    }
  }

  /** A unit is restarted only while its circuit tests open, and only when it has a unit. */
  lemma RestartsOnlyWhileOpen(c: RouterConfig, cfg: LaneConfig, h: seq<LaneEvent>, k: nat)
    requires k < |h| && RestartsAt(c, cfg, h, k) && h[k].tested >= 0.0
    ensures cfg.systemdUnit != ""
    ensures LastOpening(c, h[..k + 1]).Some? && h[k].tested < LastOpening(c, h[..k + 1]).value + c.breakerCooldown
  {
    var upTo := h[..k + 1];
    assert upTo[..k] == h[..k] && upTo[k] == h[k];
    BreakerHistory(c, cfg, h[..k]);
    BreakerHistory(c, cfg, upTo);
    var m := MarkFailure(c, After(c, cfg, h[..k]), h[k].marked);
    assert After(c, cfg, upTo).openUntil == m.openUntil;
  }

  /** A restart happens exactly when it is due: judged by the history alone. */
  lemma RestartsWhenDue(c: RouterConfig, cfg: LaneConfig, h: seq<LaneEvent>, k: nat)
    requires k < |h| && h[k].Failed? && h[k].tested >= 0.0
    ensures
      var r := Restarts(c, cfg, h[..k]);
      var opening := LastOpening(c, h[..k + 1]);
      Spaced(c, h[..k], r) &&
      (RestartsAt(c, cfg, h, k) <==>
         && opening.Some? && h[k].tested < opening.value + c.breakerCooldown
         && cfg.systemdUnit != ""
         && h[k].restarted - LastRestart(c, h[..k], r) >= c.recoveryCooldown
         && |r| < c.recoveryMaxAttempts)
  {
    var before, upTo := h[..k], h[..k + 1];
    assert upTo[..k] == before && upTo[k] == h[k];
    BreakerHistory(c, cfg, before);
    BreakerHistory(c, cfg, upTo);
    RecoveryHistory(c, cfg, before);
    assert After(c, cfg, upTo).openUntil == MarkFailure(c, After(c, cfg, before), h[k].marked).openUntil;
  }

  /** The last poll in a history, if there was one. */
  function LastPoll(h: seq<LaneEvent>): Option<LaneEvent> {
    if h == [] then None else if h[|h| - 1].Polled? then Some(h[|h| - 1]) else LastPoll(h[..|h| - 1])
  }

  /** Health, residents and GPU are those of the last poll, whatever was marked since. */
  lemma {:induction false} PollHistory(c: RouterConfig, cfg: LaneConfig, h: seq<LaneEvent>)
    ensures var l := After(c, cfg, h);
            match LastPoll(h)
            case Some(Polled(healthy, loaded, gpu)) =>
              && l.healthy == healthy && l.gpu == gpu
              && l.loaded == (if healthy then loaded else [])
            case _ => !l.healthy && l.gpu.None? && l.loaded == []
  {
    if h != [] {
      PollHistory(c, cfg, h[..|h| - 1]);
    }
  }

  // ---- the lane record ---------------------------------------------------

  class LaneState {
    const cfg: LaneConfig
    var healthy: bool
    var loaded: seq<Resident>
    var gpu: Option<GpuInfo>
    var failures: nat
    var circuitOpenUntil: real
    var lastRecovery: real
    var recoveryAttempts: nat
    ghost var history: seq<LaneEvent>

    /** The record is what its history of outcomes and polls makes of a fresh lane. */
    ghost predicate Tracks(c: RouterConfig)
      reads this
    {
      View() == After(c, cfg, history)
    }

    constructor (cfg: LaneConfig)
      ensures View() == FreshLane(cfg) && this.cfg == cfg
      ensures history == [] && forall c :: Tracks(c)
    {
      this.cfg := cfg;
      history := [];
      healthy, loaded, gpu := false, [], None;
      failures, circuitOpenUntil, lastRecovery, recoveryAttempts := 0, 0.0, 0.0, 0;
    }

    function View(): Lane
      reads this
    {
      Lane(cfg, healthy, loaded, gpu, failures, circuitOpenUntil, lastRecovery, recoveryAttempts)
    }

    method MarkFailed(c: RouterConfig, now: real)
      modifies `failures, `circuitOpenUntil
      ensures View() == MarkFailure(c, old(View()), now)
    {
      failures := failures + 1;
      if failures >= c.threshold {
        circuitOpenUntil := now + c.breakerCooldown;
        failures := 0;
      }
    }

    method MarkSucceeded(ghost c: RouterConfig, ghost at: real)
      requires Tracks(c)
      modifies this
      ensures View() == MarkSuccess(old(View()))
      ensures Tracks(c) && history == old(history) + [Succeeded(at)]
    {
      AfterStep(c, cfg, history, Succeeded(at));
      failures := 0;
      circuitOpenUntil := 0.0;
      history := history + [Succeeded(at)];
    }

    method Recover(c: RouterConfig, now: real) returns (restart: bool)
      modifies `lastRecovery, `recoveryAttempts
      ensures View() == TryRecover(c, old(View()), now)
      ensures restart == MayRecover(c, old(View()), now)
    {
      if cfg.systemdUnit == "" {
        return false;
      }
      if now - lastRecovery < c.recoveryCooldown {
        return false;
      }
      if recoveryAttempts >= c.recoveryMaxAttempts {
        return false;
      }
      lastRecovery := now;
      recoveryAttempts := recoveryAttempts + 1;
      restart := true;
    }

    /** `on_failure`; the result says whether the lane's unit was restarted. */
    method Fail(c: RouterConfig, marked: real, tested: real, restarted: real) returns (restart: bool)
      requires Tracks(c)
      modifies this
      ensures View() == OnFailure(c, old(View()), marked, tested, restarted)
      ensures Tracks(c) && history == old(history) + [Failed(marked, tested, restarted)]
      ensures restart == RestartsOnFailure(c, old(View()), marked, tested, restarted)
    {
      AfterStep(c, cfg, history, Failed(marked, tested, restarted));
      MarkFailed(c, marked);
      restart := false;
      if View().OpenAt(tested) {
        restart := Recover(c, restarted);
      }
      history := history + [Failed(marked, tested, restarted)];
    }

    /** What one poll learns; an unreachable lane is unhealthy and forgets its residents. */
    method Refresh(ghost c: RouterConfig, reachable: bool, residents: seq<Resident>, gpu: Option<GpuInfo>)
      requires Tracks(c)
      modifies this
      ensures View() == Refreshed(old(View()), reachable, residents, gpu)
      ensures Tracks(c) && history == old(history) + [Polled(reachable, residents, gpu)]
    {
      AfterStep(c, cfg, history, Polled(reachable, residents, gpu));
      history := history + [Polled(reachable, residents, gpu)];
      this.gpu := gpu;
      healthy := reachable;
      loaded := if reachable then residents else [];
    }
  }

  /** So a live lane's counters obey the breaker and the recovery budget at every moment. */
  lemma LiveLaneBounds(c: RouterConfig, l: LaneState, now: real)
    requires l.Tracks(c) && now >= 0.0
    ensures c.threshold >= 1 ==> l.failures < c.threshold
    ensures l.recoveryAttempts == |Restarts(c, l.cfg, l.history)|
    ensures l.recoveryAttempts <= if c.recoveryMaxAttempts > 0 then c.recoveryMaxAttempts else 0
    ensures l.View().OpenAt(now) <==>
            LastOpening(c, l.history).Some? && now < LastOpening(c, l.history).value + c.breakerCooldown
  {
    BreakerHistory(c, l.cfg, l.history);
    RecoveryHistory(c, l.cfg, l.history);
    OpenExactly(c, l.cfg, l.history, now);
    if c.threshold >= 1 {
      FailuresBelowThreshold(c, l.cfg, l.history);
    }
  }
}
