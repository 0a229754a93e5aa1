/** Choosing a lane for a model: one lane per physical GPU, then warm, learned, fitting, any. */
module Selection {
  import opened Options
  import opened Rounding
  import opened LaneMetrics
  import opened Lanes

  // ---- what a correct choice is ------------------------------------------

  predicate Eligible(ls: seq<Lane>, now: real, i: nat) { i < |ls| && ls[i].EligibleAt(now) }

  /** Of two lanes on one GPU the purpose-built one comes first, then the earlier one. */
  predicate Precedes(ls: seq<Lane>, i: nat, j: nat)
    requires i < |ls| && j < |ls|
  {
    if ls[i].cfg.IsCompat() == ls[j].cfg.IsCompat() then i < j else ls[j].cfg.IsCompat()
  }

  /** The lane that stands for its GPU among the first n lanes. */
  predicate Represents(ls: seq<Lane>, now: real, i: nat, n: nat)
    requires n <= |ls|
  {
    && i < n && Eligible(ls, now, i)
    && forall j :: 0 <= j < n && j != i && Eligible(ls, now, j) && ls[j].cfg.gpu == ls[i].cfg.gpu ==>
         Precedes(ls, i, j)
  }

  /** The first eligible lane on a GPU: the moment its entry enters the dict. */
  function Entry(ls: seq<Lane>, now: real, gpu: int, i: nat := 0): (k: nat)
    requires i <= |ls|
    ensures i <= k <= |ls|
    ensures forall j :: i <= j < k ==> !(Eligible(ls, now, j) && ls[j].cfg.gpu == gpu)
    ensures k < |ls| ==> Eligible(ls, now, k) && ls[k].cfg.gpu == gpu
    decreases |ls| - i
  {
    if i == |ls| || (Eligible(ls, now, i) && ls[i].cfg.gpu == gpu) then i else Entry(ls, now, gpu, i + 1)
  }

  function EntryOf(ls: seq<Lane>, now: real, i: nat): nat
    requires i < |ls|
  {
    Entry(ls, now, ls[i].cfg.gpu)
  }

  /** The dict's values after the first n lanes: the representatives, in order of entry. */
  predicate IsRouted(ls: seq<Lane>, now: real, n: nat, routed: seq<nat>)
    requires n <= |ls|
  {
    && (forall k :: 0 <= k < |routed| ==> Represents(ls, now, routed[k], n))
    && (forall i :: 0 <= i < n && Represents(ls, now, i, n) ==> i in routed)
    && forall k, m :: 0 <= k < m < |routed| ==>
         EntryOf(ls, now, routed[k]) < EntryOf(ls, now, routed[m])
  }

  datatype Request = Request(model: string, now: real, cells: seq<Cell>, nameEstimate: string -> real, margin: real)

  /** `_vram_for`: the size a lane reports for the model, if it is not zero, else an estimate from the name. */
  function VramFor(ls: seq<Lane>, model: string, nameEstimate: string -> real): real {
    if ls == [] then nameEstimate(model)
    else
      var k := FindResident(ls[0].loaded, model);
      if k == |ls[0].loaded| then VramFor(ls[1..], model, nameEstimate)
      else if ls[0].loaded[k].bytes == 0 then nameEstimate(model)
      else Round2(ls[0].loaded[k].bytes as real / BYTES_PER_GIB)
  }

  predicate Warm(ls: seq<Lane>, q: Request, i: nat) { i < |ls| && ls[i].Holds(q.model) }

  predicate FitsAt(ls: seq<Lane>, q: Request, i: nat) {
    i < |ls| && ls[i].Fits(VramFor(ls, q.model, q.nameEstimate), q.margin)
  }

  function WarmKey(ls: seq<Lane>, q: Request, i: nat): Score {
    if i < |ls| then BestLaneScore(q.cells, ls[i].cfg.name) else Infinite
  }

  function FreeKeyAt(ls: seq<Lane>, q: Request, i: nat): Score {
    if i < |ls| then Finite(ls[i].FreeKey()) else Infinite
  }

  // The classes and keys as function values.
  function WarmClass(ls: seq<Lane>, q: Request): nat -> bool { (j: nat) => Warm(ls, q, j) }

  function FitsClass(ls: seq<Lane>, q: Request): nat -> bool { (j: nat) => FitsAt(ls, q, j) }

  function AnyClass(): nat -> bool { (j: nat) => true }

  function WarmScore(ls: seq<Lane>, q: Request): nat -> Score { (j: nat) => WarmKey(ls, q, j) }

  function FreeScore(ls: seq<Lane>, q: Request): nat -> Score { (j: nat) => FreeKeyAt(ls, q, j) }

  predicate IsRep(ls: seq<Lane>, now: real, i: nat) { Represents(ls, now, i, |ls|) }

  /** i minimises the key among the representatives in the class; ties go to the GPU entered first. */
  predicate IsLeast(ls: seq<Lane>, now: real, inClass: nat -> bool, key: nat -> Score, i: nat) {
    && IsRep(ls, now, i) && inClass(i)
    && forall j :: 0 <= j < |ls| && IsRep(ls, now, j) && inClass(j) && j != i ==>
         !key(j).Less(key(i)) && (key(i).Less(key(j)) || EntryOf(ls, now, i) < EntryOf(ls, now, j))
  }

  predicate AnyRep(ls: seq<Lane>, now: real, inClass: nat -> bool) {
    exists i :: 0 <= i < |ls| && IsRep(ls, now, i) && inClass(i)
  }

  /** The lane with the best learned latency, when it may be used for this request. */
  predicate IsLearned(ls: seq<Lane>, q: Request, i: nat) {
    && IsRep(ls, q.now, i) && FitsAt(ls, q, i)
    && BestLane(q.cells) == Some(ls[i].cfg.name) && ls[i].cfg.name != ""
  }

  predicate DistinctNames(ls: seq<Lane>) {
    forall i, j :: 0 <= i < |ls| && 0 <= j < |ls| && ls[i].cfg.name == ls[j].cfg.name ==> i == j
  }

  /** The priority order: warm, else learned and fitting, else smallest fitting, else smallest. */
  predicate IsChoice(ls: seq<Lane>, q: Request, r: Option<nat>) {
    match r
    case None => forall i :: 0 <= i < |ls| ==> !Eligible(ls, q.now, i)
    case Some(i) =>
      i < |ls| &&
      if AnyRep(ls, q.now, WarmClass(ls, q)) then IsLeast(ls, q.now, WarmClass(ls, q), WarmScore(ls, q), i)
      else if exists j :: 0 <= j < |ls| && IsLearned(ls, q, j) then IsLearned(ls, q, i)
      else if AnyRep(ls, q.now, FitsClass(ls, q)) then IsLeast(ls, q.now, FitsClass(ls, q), FreeScore(ls, q), i)
      else IsLeast(ls, q.now, AnyClass(), FreeScore(ls, q), i)
  }

  // ---- the dedup loop ----------------------------------------------------

  /** Position in the dict of the entry for a GPU. */
  function FindGpu(ls: seq<Lane>, routed: seq<nat>, gpu: int, i: nat := 0): (k: nat)
    requires i <= |routed| && forall m :: 0 <= m < |routed| ==> routed[m] < |ls|
    ensures i <= k <= |routed| && (forall j :: i <= j < k ==> ls[routed[j]].cfg.gpu != gpu)
    ensures k < |routed| ==> ls[routed[k]].cfg.gpu == gpu
    decreases |routed| - i
  {
    if i == |routed| || ls[routed[i]].cfg.gpu == gpu then i else FindGpu(ls, routed, gpu, i + 1)
  }

  method Dedup(ls: seq<Lane>, now: real) returns (routed: seq<nat>)
    ensures IsRouted(ls, now, |ls|, routed)
  {
    routed := [];
    for n := 0 to |ls|
      invariant IsRouted(ls, now, n, routed)
    {
      if ls[n].EligibleAt(now) {
        var k := FindGpu(ls, routed, ls[n].cfg.gpu);
        if k == |routed| {
          NewGpu(ls, now, n, routed);
          routed := routed + [n];
        } else if ls[routed[k]].cfg.IsCompat() && !ls[n].cfg.IsCompat() {
          Replaces(ls, now, n, routed, k);
          routed := routed[k := n];
        } else {
          Stays(ls, now, n, routed, k);
        }
      } else {
        Ineligible(ls, now, n, routed);
      }
    }
  }

  lemma Ineligible(ls: seq<Lane>, now: real, n: nat, routed: seq<nat>)
    requires n < |ls| && IsRouted(ls, now, n, routed) && !Eligible(ls, now, n)
    ensures IsRouted(ls, now, n + 1, routed)
  {
  }

  /** On a GPU not yet entered no earlier lane is eligible. */
  lemma EveryGpuEntered(ls: seq<Lane>, now: real, n: nat, routed: seq<nat>, i: nat)
    requires n <= |ls| && IsRouted(ls, now, n, routed) && i < n && Eligible(ls, now, i)
    ensures exists k :: 0 <= k < |routed| && ls[routed[k]].cfg.gpu == ls[i].cfg.gpu
  {
    var best := BestOnGpu(ls, now, n, i);
    assert best in routed;
  }

  lemma {:induction false} BestOnGpu(ls: seq<Lane>, now: real, n: nat, i: nat) returns (best: nat)
    requires n <= |ls| && i < n && Eligible(ls, now, i)
    ensures Represents(ls, now, best, n) && ls[best].cfg.gpu == ls[i].cfg.gpu
  {
    best := i;
    var j := 0;
    while j < n
      invariant 0 <= j <= n && best < n && Eligible(ls, now, best) && ls[best].cfg.gpu == ls[i].cfg.gpu
      invariant forall m :: 0 <= m < j && m != best && Eligible(ls, now, m) && ls[m].cfg.gpu == ls[i].cfg.gpu ==>
                  Precedes(ls, best, m)
    {
      if j != best && Eligible(ls, now, j) && ls[j].cfg.gpu == ls[i].cfg.gpu && !Precedes(ls, best, j) {
        best := j;
      }
      j := j + 1;
    }
  }

  lemma NewGpu(ls: seq<Lane>, now: real, n: nat, routed: seq<nat>)
    requires n < |ls| && IsRouted(ls, now, n, routed) && Eligible(ls, now, n)
    requires forall k :: 0 <= k < |routed| ==> ls[routed[k]].cfg.gpu != ls[n].cfg.gpu
    ensures IsRouted(ls, now, n + 1, routed + [n])
  {
    forall i | 0 <= i < n && Eligible(ls, now, i) ensures ls[i].cfg.gpu != ls[n].cfg.gpu {
      EveryGpuEntered(ls, now, n, routed, i);
    }
    assert EntryOf(ls, now, n) == n;
    forall k | 0 <= k < |routed| ensures EntryOf(ls, now, routed[k]) < n {
      assert Eligible(ls, now, routed[k]) && routed[k] < n;
    }
    forall i | 0 <= i < n ensures Represents(ls, now, i, n + 1) <==> Represents(ls, now, i, n) {
    }
  }

  /** A purpose-built lane takes over its GPU from a compat one. */
  lemma TakesOver(ls: seq<Lane>, now: real, n: nat, holder: nat)
    requires n < |ls| && Represents(ls, now, holder, n) && Eligible(ls, now, n)
    requires ls[holder].cfg.gpu == ls[n].cfg.gpu && ls[holder].cfg.IsCompat() && !ls[n].cfg.IsCompat()
    ensures Represents(ls, now, n, n + 1)
    ensures forall i :: 0 <= i < n ==>
              (Represents(ls, now, i, n + 1) <==> Represents(ls, now, i, n) && ls[i].cfg.gpu != ls[n].cfg.gpu)
  {
  }

  lemma StillListed(routed: seq<nat>, k: nat, n: nat, i: nat)
    requires k < |routed| && (i == n || (i in routed && i != routed[k]))
    ensures i in routed[k := n]
  {
    if i == n {
      assert routed[k := n][k] == n;
    } else {
      var m :| 0 <= m < |routed| && routed[m] == i;
      assert routed[k := n][m] == i;
    }
  }

  lemma Replaces(ls: seq<Lane>, now: real, n: nat, routed: seq<nat>, k: nat)
    requires n < |ls| && IsRouted(ls, now, n, routed) && Eligible(ls, now, n)
    requires k < |routed| && ls[routed[k]].cfg.gpu == ls[n].cfg.gpu
    requires ls[routed[k]].cfg.IsCompat() && !ls[n].cfg.IsCompat()
    ensures IsRouted(ls, now, n + 1, routed[k := n])
  {
    var holder, after := routed[k], routed[k := n];
    TakesOver(ls, now, n, holder);
    assert EntryOf(ls, now, n) == EntryOf(ls, now, holder);
    forall m | 0 <= m < |routed| && m != k ensures ls[routed[m]].cfg.gpu != ls[n].cfg.gpu {
      assert EntryOf(ls, now, routed[m]) != EntryOf(ls, now, holder);
    }
    forall i | 0 <= i < n + 1 && Represents(ls, now, i, n + 1) ensures i in after {
      StillListed(routed, k, n, i);
    }
  }

  lemma Stays(ls: seq<Lane>, now: real, n: nat, routed: seq<nat>, k: nat)
    requires n < |ls| && IsRouted(ls, now, n, routed) && Eligible(ls, now, n)
    requires k < |routed| && ls[routed[k]].cfg.gpu == ls[n].cfg.gpu
    requires !ls[routed[k]].cfg.IsCompat() || ls[n].cfg.IsCompat()
    ensures IsRouted(ls, now, n + 1, routed)
  {
  }

  // ---- picking from the representatives ----------------------------------

  /** The first entry of the class with the least key, as Python's `min` finds it. */
  function FirstMin(routed: seq<nat>, inClass: nat -> bool, key: nat -> Score, k: nat := 0): (r: Option<nat>)
    requires k <= |routed|
    ensures r.None? <==> forall m :: k <= m < |routed| ==> !inClass(routed[m])
    ensures r.Some? ==> k <= r.value < |routed| && inClass(routed[r.value])
    ensures r.Some? ==> forall m :: k <= m < |routed| && inClass(routed[m]) && m != r.value ==>
                          && !key(routed[m]).Less(key(routed[r.value]))
                          && (m < r.value ==> key(routed[r.value]).Less(key(routed[m])))
    decreases |routed| - k
  {
    if k == |routed| then None
    else
      var later := FirstMin(routed, inClass, key, k + 1);
      if inClass(routed[k]) && (later.None? || !key(routed[later.value]).Less(key(routed[k])))
      then Some(k) else later
  }

  lemma FirstMinIsLeast(ls: seq<Lane>, now: real, routed: seq<nat>, inClass: nat -> bool, key: nat -> Score)
    requires IsRouted(ls, now, |ls|, routed)
    ensures FirstMin(routed, inClass, key).Some? <==> AnyRep(ls, now, inClass)
    ensures FirstMin(routed, inClass, key).Some? ==>
              IsLeast(ls, now, inClass, key, routed[FirstMin(routed, inClass, key).value])
  {
  }

  /** Position in the lane table of a name. */
  function FindName(ls: seq<Lane>, name: string, i: nat := 0): (k: nat)
    requires i <= |ls|
    ensures i <= k <= |ls| && (forall j :: i <= j < k ==> ls[j].cfg.name != name)
    ensures k < |ls| ==> ls[k].cfg.name == name
    decreases |ls| - i
  {
    if i == |ls| || ls[i].cfg.name == name then i else FindName(ls, name, i + 1)
  }

  lemma SomeEligible(ls: seq<Lane>, now: real, routed: seq<nat>)
    requires IsRouted(ls, now, |ls|, routed)
    ensures routed == [] <==> forall i :: 0 <= i < |ls| ==> !Eligible(ls, now, i)
  {
    if i :| 0 <= i < |ls| && Eligible(ls, now, i) {
      EveryGpuEntered(ls, now, |ls|, routed, i);
    }
    if routed != [] {
      assert Eligible(ls, now, routed[0]);
    }
  }

  method Select(ls: seq<Lane>, q: Request) returns (r: Option<nat>)
    requires DistinctNames(ls)
    ensures IsChoice(ls, q, r)
  {
    var routed := Dedup(ls, q.now);
    SomeEligible(ls, q.now, routed);
    if routed == [] {
      return None;
    }
    FirstMinIsLeast(ls, q.now, routed, WarmClass(ls, q), WarmScore(ls, q));
    var resident := FirstMin(routed, WarmClass(ls, q), WarmScore(ls, q));
    if resident.Some? {
      return Some(routed[resident.value]);
    }
    var best := BestLane(q.cells);
    if best.Some? {
      var k := FindName(ls, best.value);
      if best.value != "" && k < |ls| && k in routed && FitsAt(ls, q, k) {
        assert IsLearned(ls, q, k);
        return Some(k);
      }
    }
    NotLearned(ls, q, routed);
    FirstMinIsLeast(ls, q.now, routed, FitsClass(ls, q), FreeScore(ls, q));
    var fitting := FirstMin(routed, FitsClass(ls, q), FreeScore(ls, q));
    if fitting.Some? {
      return Some(routed[fitting.value]);
    }
    FirstMinIsLeast(ls, q.now, routed, AnyClass(), FreeScore(ls, q));
    assert AnyClass()(routed[0]);
    r := Some(routed[FirstMin(routed, AnyClass(), FreeScore(ls, q)).value]);
  }

  lemma NotLearned(ls: seq<Lane>, q: Request, routed: seq<nat>)
    requires DistinctNames(ls) && IsRouted(ls, q.now, |ls|, routed)
    requires BestLane(q.cells).Some? ==>
               var k := FindName(ls, BestLane(q.cells).value);
               !(BestLane(q.cells).value != "" && k < |ls| && k in routed && FitsAt(ls, q, k))
    ensures forall j :: 0 <= j < |ls| ==> !IsLearned(ls, q, j)
  {
  }

  // ---- consequences ------------------------------------------------------

  /** The choice is unique: the policy leaves nothing open. */
  lemma ChoiceUnique(ls: seq<Lane>, q: Request, r: Option<nat>, s: Option<nat>)
    requires DistinctNames(ls) && IsChoice(ls, q, r) && IsChoice(ls, q, s)
    ensures r == s
  {
  }

  /** A compat lane is chosen only where no eligible purpose-built lane shares its GPU. */
  lemma CompatOnlyAlone(ls: seq<Lane>, q: Request, i: nat, j: nat)
    requires IsChoice(ls, q, Some(i)) && ls[i].cfg.IsCompat()
    requires j < |ls| && Eligible(ls, q.now, j) && ls[j].cfg.gpu == ls[i].cfg.gpu
    ensures ls[j].cfg.IsCompat()
  {
    assert IsRep(ls, q.now, i);
  }

  /** The chosen lane itself is healthy with a closed circuit. */
  lemma ChoiceEligible(ls: seq<Lane>, q: Request, i: nat)
    requires IsChoice(ls, q, Some(i))
    ensures Eligible(ls, q.now, i)
  {
    assert IsRep(ls, q.now, i);
  }

  // ---- the choice in plain terms -----------------------------------------

  /** Nothing is chosen exactly if no lane is healthy with a closed circuit, and what is chosen is. */
  lemma ChoiceHealthy(ls: seq<Lane>, q: Request, r: Option<nat>)
    requires IsChoice(ls, q, r)
    ensures r.None? <==> forall i :: 0 <= i < |ls| ==> !ls[i].healthy || ls[i].openUntil > q.now
    ensures r.Some? ==> r.value < |ls| && ls[r.value].healthy && ls[r.value].openUntil <= q.now
  {
    if r.Some? {
      ChoiceEligible(ls, q, r.value);
    } else {
      forall i | 0 <= i < |ls| ensures !ls[i].healthy || ls[i].openUntil > q.now {
        assert !Eligible(ls, q.now, i);
      }
    }
  }

  /** Who stands for a GPU: of its usable lanes the first that is not "compat", else the first. */
  lemma RepresentativeMeans(ls: seq<Lane>, now: real, i: nat)
    ensures IsRep(ls, now, i) <==>
            && i < |ls| && ls[i].healthy && ls[i].openUntil <= now
            && forall j :: 0 <= j < |ls| && j != i && ls[j].cfg.gpu == ls[i].cfg.gpu
                           && ls[j].healthy && ls[j].openUntil <= now ==>
                 if ls[i].cfg.role == "compat" then ls[j].cfg.role == "compat" && i < j
                 else ls[j].cfg.role == "compat" || i < j
  {
    if i < |ls| {
      forall j | 0 <= j < |ls| ensures Eligible(ls, now, j) <==> ls[j].healthy && ls[j].openUntil <= now {
      }
    }
  }

  /** Every GPU with a usable lane is represented. */
  lemma EveryGpuRepresented(ls: seq<Lane>, now: real, j: nat) returns (i: nat)
    requires j < |ls| && ls[j].healthy && ls[j].openUntil <= now
    ensures i < |ls| && IsRep(ls, now, i) && ls[i].cfg.gpu == ls[j].cfg.gpu
  {
    i := BestOnGpu(ls, now, |ls|, j);
  }

  /** Warm is to hold the model; to fit is to have room for it beside the residents and the margin. */
  lemma ClassesMean(ls: seq<Lane>, q: Request, i: nat)
    requires i < |ls|
    ensures Warm(ls, q, i) <==> exists r :: r in ls[i].loaded && r.model == q.model
    ensures FitsAt(ls, q, i) <==>
            && ls[i].gpu.Some?
            && ls[i].gpu.value.FreeGib() * 1073741824.0 >=
               (VramFor(ls, q.model, q.nameEstimate) + q.margin) * 1073741824.0 + TotalBytes(ls[i].loaded) as real
  {
    FitsMeans(ls[i], VramFor(ls, q.model, q.nameEstimate), q.margin);
    if Warm(ls, q, i) {
      assert ls[i].loaded[FindResident(ls[i].loaded, q.model)] in ls[i].loaded;
    }
  }

  /** Two entries with their keys: the first is no worse, and on a tie its GPU was entered first. */
  lemma LeastAgainst(
    ls: seq<Lane>, now: real, inClass: nat -> bool, key: nat -> Score, i: nat, j: nat, x: real, y: real)
    requires IsLeast(ls, now, inClass, key, i) && j < |ls| && IsRep(ls, now, j) && inClass(j)
    requires key(i) == Finite(x) && key(j) == Finite(y)
    ensures x < y || (x == y && (i == j || EntryOf(ls, now, i) < EntryOf(ls, now, j)))
  {
  }

  predicate SomeWarm(ls: seq<Lane>, q: Request) {
    exists j :: 0 <= j < |ls| && IsRep(ls, q.now, j) && Warm(ls, q, j)
  }

  /** Some representative that fits is the lane with the best learned score. */
  predicate SomeLearned(ls: seq<Lane>, q: Request) { exists j :: 0 <= j < |ls| && IsLearned(ls, q, j) }

  lemma WarmClassMeans(ls: seq<Lane>, q: Request)
    ensures AnyRep(ls, q.now, WarmClass(ls, q)) <==> SomeWarm(ls, q)
  {
    if i :| 0 <= i < |ls| && IsRep(ls, q.now, i) && WarmClass(ls, q)(i) {
      assert Warm(ls, q, i);
    }
    if i :| 0 <= i < |ls| && IsRep(ls, q.now, i) && Warm(ls, q, i) {
      assert WarmClass(ls, q)(i);
    }
  }

  /** A warm lane is chosen if there is one, and then one whose latency score is the least. */
  lemma ChoiceWarmFastest(ls: seq<Lane>, q: Request, i: nat, j: nat, y: real)
    requires IsChoice(ls, q, Some(i)) && j < |ls| && IsRep(ls, q.now, j) && Warm(ls, q, j)
    ensures exists r :: r in ls[i].loaded && r.model == q.model
    ensures BestLaneScore(q.cells, ls[j].cfg.name) == Finite(y) ==>
              var mine := BestLaneScore(q.cells, ls[i].cfg.name);
              mine.Finite? && mine.x <= y && (mine.x == y && i != j ==> EntryOf(ls, q.now, i) < EntryOf(ls, q.now, j))
  {
    WarmClassMeans(ls, q);
    assert WarmClass(ls, q)(i) && Warm(ls, q, i);
    assert ls[i].loaded[FindResident(ls[i].loaded, q.model)] in ls[i].loaded;
    assert WarmClass(ls, q)(j) && WarmScore(ls, q)(j) == BestLaneScore(q.cells, ls[j].cfg.name);
    assert WarmScore(ls, q)(i) == BestLaneScore(q.cells, ls[i].cfg.name);
  }

  /** Else the lane with the best learned score, if it represents its GPU and the model fits there. */
  lemma ChoiceLearned(ls: seq<Lane>, q: Request, i: nat)
    requires IsChoice(ls, q, Some(i)) && !SomeWarm(ls, q) && SomeLearned(ls, q)
    ensures BestLane(q.cells) == Some(ls[i].cfg.name) && FitsAt(ls, q, i) && IsRep(ls, q.now, i)
  {
    WarmClassMeans(ls, q);
  }

  /** And whenever there is such a lane it is chosen. */
  lemma LearnedChosen(ls: seq<Lane>, q: Request, i: nat, j: nat)
    requires IsChoice(ls, q, Some(i)) && !SomeWarm(ls, q) && DistinctNames(ls)
    requires j < |ls| && IsRep(ls, q.now, j) && FitsAt(ls, q, j)
    requires BestLane(q.cells) == Some(ls[j].cfg.name) && ls[j].cfg.name != ""
    ensures i == j
  {
    assert IsLearned(ls, q, j);
    ChoiceLearned(ls, q, i);
  }

  /** Else, of the GPUs on which the model fits, the one with the least free memory. */
  lemma ChoiceTightestFit(ls: seq<Lane>, q: Request, i: nat, j: nat)
    requires IsChoice(ls, q, Some(i)) && !SomeWarm(ls, q) && !SomeLearned(ls, q)
    requires j < |ls| && IsRep(ls, q.now, j) && FitsAt(ls, q, j)
    ensures FitsAt(ls, q, i) && ls[i].gpu.Some? && ls[j].gpu.Some?
    ensures ls[i].gpu.value.FreeGib() <= ls[j].gpu.value.FreeGib()
    ensures ls[i].gpu.value.FreeGib() == ls[j].gpu.value.FreeGib() && i != j ==>
              EntryOf(ls, q.now, i) < EntryOf(ls, q.now, j)
  {
    WarmClassMeans(ls, q);
    assert FitsClass(ls, q)(j) && AnyRep(ls, q.now, FitsClass(ls, q));
    assert FitsClass(ls, q)(i) && FitsAt(ls, q, i);
    LeastAgainst(ls, q.now, FitsClass(ls, q), FreeScore(ls, q), i, j,
                 ls[i].gpu.value.FreeGib(), ls[j].gpu.value.FreeGib());
  }

  /** Free GiB, an unknown GPU counting as none. */
  function FreeOrNone(l: Lane): real { if l.gpu.Some? then l.gpu.value.FreeGib() else 0.0 }

  /** Else, of all representatives, the one with the least free memory. */
  lemma ChoiceLeastFree(ls: seq<Lane>, q: Request, i: nat, j: nat)
    requires IsChoice(ls, q, Some(i)) && !SomeWarm(ls, q) && !SomeLearned(ls, q)
    requires forall k :: 0 <= k < |ls| && IsRep(ls, q.now, k) ==> !FitsAt(ls, q, k)
    requires j < |ls| && IsRep(ls, q.now, j)
    ensures FreeOrNone(ls[i]) <= FreeOrNone(ls[j])
    ensures FreeOrNone(ls[i]) == FreeOrNone(ls[j]) && i != j ==> EntryOf(ls, q.now, i) < EntryOf(ls, q.now, j)
  {
    WarmClassMeans(ls, q);
    forall k | 0 <= k < |ls| && IsRep(ls, q.now, k) ensures !FitsClass(ls, q)(k) {
      assert !FitsAt(ls, q, k);
    }
    LeastAgainst(ls, q.now, AnyClass(), FreeScore(ls, q), i, j, FreeOrNone(ls[i]), FreeOrNone(ls[j]));
  }
}
