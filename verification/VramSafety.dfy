/** GPU memory over runs of polling, selecting and loading: when the router's bookkeeping prevents overcommit. */
module VramSafety {
  import opened Options
  import opened Lanes
  import opened Selection

  const BYTES_PER_MIB := 1048576

  /** The lanes as last polled, the true free bytes of each GPU, and the GPUs that lost memory since. */
  datatype World = World(lanes: seq<Lane>, free: map<int, int>, drifted: set<int>)

  datatype Step =
    | Poll(lanes: seq<Lane>)
    | Load(request: Request, lane: nat, bytes: nat)
    | Claim(gpu: int, bytes: nat)
    | Release(gpu: int, bytes: nat)

  /** A reading in whole MiB is never above the true free memory. */
  predicate HonestReading(l: Lane, free: map<int, int>) {
    l.gpu.Some? ==> l.cfg.gpu in free && l.gpu.value.freeMib * BYTES_PER_MIB <= free[l.cfg.gpu]
  }

  /** The lane came from the learned or the fitting branch, not from warm affinity or the last resort. */
  predicate ChosenWithRoom(ls: seq<Lane>, q: Request, i: nat) {
    && i < |ls| && IsChoice(ls, q, Some(i))
    && !AnyRep(ls, q.now, WarmClass(ls, q))
    && ((exists j :: 0 <= j < |ls| && IsLearned(ls, q, j)) || AnyRep(ls, q.now, FitsClass(ls, q)))
  }

  /** The router's size for the model is its true size to the hundredth of a GiB. */
  predicate SizedRight(ls: seq<Lane>, q: Request, bytes: nat) {
    var vram := VramFor(ls, q.model, q.nameEstimate);
    vram - 0.005 <= bytes as real / BYTES_PER_GIB <= vram + 0.005
  }

  predicate CanStep(w: World, s: Step) {
    match s
    case Poll(lanes) =>
      && |lanes| == |w.lanes|
      && forall i :: 0 <= i < |lanes| ==> lanes[i].cfg == w.lanes[i].cfg && HonestReading(lanes[i], w.free)
    case Load(q, i, bytes) =>
      && ChosenWithRoom(w.lanes, q, i) && SizedRight(w.lanes, q, bytes)
      && q.margin >= 0.01 && w.lanes[i].cfg.gpu !in w.drifted
    case Claim(gpu, bytes) => gpu in w.free && bytes <= w.free[gpu]
    case Release(gpu, bytes) => gpu in w.free
  }

  function Adjust(free: map<int, int>, gpu: int, delta: int): map<int, int> {
    free[gpu := (if gpu in free then free[gpu] else 0) + delta]
  }

  function DoStep(w: World, s: Step): World {
    match s
    case Poll(lanes) => World(lanes, w.free, {})
    case Load(_, i, bytes) =>
      if i >= |w.lanes| then w
      else
        var gpu := w.lanes[i].cfg.gpu;
        World(w.lanes, Adjust(w.free, gpu, 0 - bytes), w.drifted + {gpu})
    case Claim(gpu, bytes) => World(w.lanes, Adjust(w.free, gpu, 0 - bytes), w.drifted + {gpu})
    case Release(gpu, bytes) => World(w.lanes, Adjust(w.free, gpu, bytes), w.drifted)
  }

  predicate ValidRun(w: World, steps: seq<Step>)
    decreases |steps|
  {
    steps == [] || (CanStep(w, steps[0]) && ValidRun(DoStep(w, steps[0]), steps[1..]))
  }

  function AfterRun(w: World, steps: seq<Step>): World
    decreases |steps|
  {
    if steps == [] then w else AfterRun(DoStep(w, steps[0]), steps[1..])
  }

  /** No GPU is overcommitted, and what is known of an undrifted GPU is still no more than the truth. */
  predicate Safe(w: World) {
    && (forall g :: g in w.free ==> w.free[g] >= 0)
    && forall i :: 0 <= i < |w.lanes| && w.lanes[i].cfg.gpu !in w.drifted ==> HonestReading(w.lanes[i], w.free)
  }

  lemma RoomFits(ls: seq<Lane>, q: Request, i: nat)
    requires ChosenWithRoom(ls, q, i)
    ensures FitsAt(ls, q, i)
  {
  }

  function Gib(bytes: int): real { bytes as real / BYTES_PER_GIB }

  /** Loading on such a lane leaves what it held plus the margin, less one hundredth for two roundings. */
  lemma LoadLeavesRoom(w: World, q: Request, i: nat, bytes: nat)
    requires ChosenWithRoom(w.lanes, q, i) && SizedRight(w.lanes, q, bytes)
    requires HonestReading(w.lanes[i], w.free)
    ensures w.lanes[i].cfg.gpu in w.free
    ensures Gib(w.free[w.lanes[i].cfg.gpu] - bytes) >= w.lanes[i].ReservedGib() + q.margin - 0.01
  {
    RoomFits(w.lanes, q, i);
    var l := w.lanes[i];
    var mib := l.gpu.value.freeMib;
    assert Gib(mib * BYTES_PER_MIB) == mib as real / 1024.0;
    assert Gib(w.free[l.cfg.gpu] - bytes) == Gib(w.free[l.cfg.gpu]) - Gib(bytes);
    assert Gib(w.free[l.cfg.gpu]) >= Gib(mib * BYTES_PER_MIB);
  }

  lemma ReservedNonNegative(l: Lane)
    ensures l.ReservedGib() >= 0.0
  {
  }

  lemma StepSafe(w: World, s: Step)
    requires Safe(w) && CanStep(w, s)
    ensures Safe(DoStep(w, s))
  {
    if s.Load? {
      LoadLeavesRoom(w, s.request, s.lane, s.bytes);
      ReservedNonNegative(w.lanes[s.lane]);
    }
  }

  /** No run in which every load follows a poll of its GPU ever overcommits a GPU. */
  lemma {:induction false} NeverOvercommits(w: World, steps: seq<Step>)
    requires Safe(w) && ValidRun(w, steps)
    ensures Safe(AfterRun(w, steps))
    decreases |steps|
  {
    if steps != [] {
      StepSafe(w, steps[0]);
      NeverOvercommits(DoStep(w, steps[0]), steps[1..]);
    }
  }

  /** A size reported by a lane is right for that many bytes. */
  lemma {:induction false} ReportedSizeIsRight(ls: seq<Lane>, q: Request, i: nat)
    requires i < |ls| && ls[i].Holds(q.model) && forall j :: 0 <= j < i ==> !ls[j].Holds(q.model)
    requires ls[i].loaded[FindResident(ls[i].loaded, q.model)].bytes != 0
    ensures SizedRight(ls, q, ls[i].loaded[FindResident(ls[i].loaded, q.model)].bytes)
    decreases i
  {
    if i > 0 {
      assert VramFor(ls, q.model, q.nameEstimate) == VramFor(ls[1..], q.model, q.nameEstimate);
      ReportedSizeIsRight(ls[1..], q, i - 1);
    }
  }

  /** Where no lane holds the model, or the first that does reports no size, the name decides. */
  lemma {:induction false} NameDecides(ls: seq<Lane>, model: string, nameEstimate: string -> real, i: nat)
    requires i <= |ls| && forall j :: 0 <= j < i ==> !ls[j].Holds(model)
    requires i < |ls| ==> ls[i].Holds(model) && ls[i].loaded[FindResident(ls[i].loaded, model)].bytes == 0
    ensures VramFor(ls, model, nameEstimate) == nameEstimate(model)
    decreases i
  {
    if i > 0 {
      NameDecides(ls[1..], model, nameEstimate, i - 1);
    }
  }

  // ---- without the poll --------------------------------------------------

  predicate LoadsOn(w: World, s: Step, gpu: int) {
    s.Load? && s.lane < |w.lanes| && w.lanes[s.lane].cfg.gpu == gpu
  }

  /** The bytes a run of steps loads on a GPU. */
  function LoadedOn(w: World, steps: seq<Step>, gpu: int): nat
    decreases |steps|
  {
    if steps == [] then 0
    else (if LoadsOn(w, steps[0], gpu) then steps[0].bytes else 0) + LoadedOn(DoStep(w, steps[0]), steps[1..], gpu)
  }

  function FreeOn(w: World, gpu: int): int { if gpu in w.free then w.free[gpu] else 0 }

  /** No other program takes or gives back memory of the GPU. */
  predicate Undisturbed(steps: seq<Step>, gpu: int) {
    forall i :: 0 <= i < |steps| && (steps[i].Claim? || steps[i].Release?) ==> steps[i].gpu != gpu
  }

  lemma {:induction false} FreeAfter(w: World, steps: seq<Step>, gpu: int)
    requires Undisturbed(steps, gpu)
    ensures FreeOn(AfterRun(w, steps), gpu) == FreeOn(w, gpu) - LoadedOn(w, steps, gpu)
    decreases |steps|
  {
    if steps != [] {
      FreeAfter(DoStep(w, steps[0]), steps[1..], gpu);
    }
  }

  /** What other programs take from a GPU, less what they give back. */
  function TakenFrom(steps: seq<Step>, gpu: int): int {
    if steps == [] then 0
    else
      var s := steps[0];
      (if s.Claim? && s.gpu == gpu then s.bytes else 0) - (if s.Release? && s.gpu == gpu then s.bytes else 0)
      + TakenFrom(steps[1..], gpu)
  }

  /** The books of a GPU over any run: loads and other programs account for every byte. */
  lemma {:induction false} FreeBalances(w: World, steps: seq<Step>, gpu: int)
    ensures FreeOn(AfterRun(w, steps), gpu) == FreeOn(w, gpu) - LoadedOn(w, steps, gpu) - TakenFrom(steps, gpu)
    decreases |steps|
  {
    if steps != [] {
      FreeBalances(DoStep(w, steps[0]), steps[1..], gpu);
    }
  }

  lemma {:induction false} PrefixLoadsLess(w: World, steps: seq<Step>, gpu: int, n: nat)
    requires n <= |steps|
    ensures LoadedOn(w, steps[..n], gpu) <= LoadedOn(w, steps, gpu)
    decreases |steps|
  {
    if n > 0 {
      assert steps[..n][1..] == steps[1..][..n - 1];
      PrefixLoadsLess(DoStep(w, steps[0]), steps[1..], gpu, n - 1);
    }
  }

  predicate Overcommits(w: World, steps: seq<Step>, gpu: int, n: nat)
    requires n <= |steps|
  {
    FreeOn(AfterRun(w, steps[..n]), gpu) < 0
  }

  /**
    However the loads were chosen and whatever was polled: a GPU no other program touches is overcommitted at
    no point of a run exactly when what the run loads on it is at most what was free on it at the start.
   */
  lemma OvercommitsExactly(w: World, steps: seq<Step>, gpu: int)
    requires Undisturbed(steps, gpu)
    ensures (forall n :: 0 <= n <= |steps| ==> !Overcommits(w, steps, gpu, n)) <==>
            LoadedOn(w, steps, gpu) <= FreeOn(w, gpu)
  {
    assert steps[..|steps|] == steps;
    FreeAfter(w, steps, gpu);
    if LoadedOn(w, steps, gpu) <= FreeOn(w, gpu) {
      forall n | 0 <= n <= |steps| ensures !Overcommits(w, steps, gpu, n) {
        FreeAfter(w, steps[..n], gpu);
        PrefixLoadsLess(w, steps, gpu, n);
      }
    } else {
      assert Overcommits(w, steps, gpu, |steps|);
    }
  }

  /** The loads of a run between two polls, each sized right where it concerns the GPU. */
  predicate SizedLoads(w: World, steps: seq<Step>, gpu: int)
    decreases |steps|
  {
    steps == [] ||
    (&& steps[0].Load? && (LoadsOn(w, steps[0], gpu) ==> SizedRight(w.lanes, steps[0].request, steps[0].bytes))
     && SizedLoads(DoStep(w, steps[0]), steps[1..], gpu))
  }

  /** What the router can add up: its sizes of the models loaded on a GPU, each with its rounding. */
  function SizesOn(w: World, steps: seq<Step>, gpu: int): real
    decreases |steps|
  {
    if steps == [] then 0.0
    else
      var tail := SizesOn(DoStep(w, steps[0]), steps[1..], gpu);
      if LoadsOn(w, steps[0], gpu) then
        VramFor(w.lanes, steps[0].request.model, steps[0].request.nameEstimate) + 0.005 + tail
      else tail
  }

  lemma {:induction false} SizesBoundLoads(w: World, steps: seq<Step>, gpu: int)
    requires SizedLoads(w, steps, gpu)
    ensures Gib(LoadedOn(w, steps, gpu)) <= SizesOn(w, steps, gpu) && Undisturbed(steps, gpu)
    decreases |steps|
  {
    if steps != [] {
      var rest := LoadedOn(DoStep(w, steps[0]), steps[1..], gpu);
      SizesBoundLoads(DoStep(w, steps[0]), steps[1..], gpu);
      if LoadsOn(w, steps[0], gpu) {
        assert Gib(steps[0].bytes + rest) == Gib(steps[0].bytes) + Gib(rest);
      }
    }
  }

  /**
    A test the router could make between polls: if its sizes of the models loaded since, with 0.005 GiB for
    the rounding of each and of the reading, are within the free memory a lane reported, nothing overcommits.
   */
  lemma SizesWithinReading(w: World, steps: seq<Step>, i: nat, n: nat)
    requires i < |w.lanes| && w.lanes[i].gpu.Some? && HonestReading(w.lanes[i], w.free) && n <= |steps|
    requires SizedLoads(w, steps, w.lanes[i].cfg.gpu)
    requires SizesOn(w, steps, w.lanes[i].cfg.gpu) + 0.005 <= w.lanes[i].gpu.value.FreeGib()
    ensures !Overcommits(w, steps, w.lanes[i].cfg.gpu, n)
  {
    var l := w.lanes[i];
    var mib := l.gpu.value.freeMib;
    SizesBoundLoads(w, steps, l.cfg.gpu);
    assert Gib(mib * BYTES_PER_MIB) == mib as real / 1024.0;
    assert Gib(FreeOn(w, l.cfg.gpu)) >= Gib(mib * BYTES_PER_MIB);
    OvercommitsExactly(w, steps, l.cfg.gpu);
  }

  const LONE_LANE := Lane(LaneConfig("p40", 1, "", "medium"), true, [], Some(GpuInfo(10240)), 0, 0.0, 0.0, 0)

  function EightGib(model: string): real { 8.0 }

  const LONE_REQUEST := Request("llama", 1.0, [], EightGib, 0.5)

  /** And the policy does overcommit: it chooses twice after one poll and takes 16 GiB from a GPU that had 10. */
  lemma StalePollOvercommits()
    ensures
      var w := World([LONE_LANE], map[1 := 10240 * BYTES_PER_MIB], {});
      var bytes := 8192 * BYTES_PER_MIB;
      && Safe(w) && CanStep(w, Load(LONE_REQUEST, 0, bytes))
      && var after := DoStep(w, Load(LONE_REQUEST, 0, bytes));
         && ChosenWithRoom(after.lanes, LONE_REQUEST, 0) && SizedRight(after.lanes, LONE_REQUEST, bytes)
         && after.free[1] - bytes < 0
  {
  }
}
