/** The deployment planner: how many GPUs a model needs, and which six candidates are returned. */
module Planner {
  import opened Rounding

  datatype Hardware = Hardware(name: string, nvidia: bool, vramGb: real, bandwidth: real, costHr: real, fp8: bool) {
    predicate Valid() { vramGb > 0.0 && bandwidth > 0.0 }
  }

  const HARDWARE_PROFILES := [
    Hardware("NVIDIA H100 SXM5 80GB", true, 80.0, 3350.0, 3.20, true),
    Hardware("NVIDIA H200 141GB", true, 141.0, 4800.0, 4.10, true),
    Hardware("NVIDIA L40S 48GB", true, 48.0, 864.0, 1.15, true),
    Hardware("NVIDIA GeForce RTX 4090 24GB", true, 24.0, 1008.0, 0.75, true),
    Hardware("AMD Instinct MI300X 192GB", false, 192.0, 5300.0, 3.50, true)
  ]

  datatype Workload = Workload(paramsB: real, contextLength: int, concurrency: int, maxTtft: real, maxCost: real)

  datatype Runtime = Dynamo | Nim | Vllm

  datatype Candidate = Candidate(
    runtime: Runtime, device: string, fp8: bool, gpus: int, tps: real, ttft: int, cost: real, fit: int)

  // ---- sizing ------------------------------------------------------------

  function Ceil(x: real): (n: int)
    ensures n as real >= x && (n - 1) as real < x
  {
    -((-x).Floor)
  }

  function KvCacheGb(w: Workload): real {
    (2 * 64 * 8 * 128 * w.contextLength * w.concurrency) as real / 1000000000.0
  }

  function BytesPerParam(fp8: bool): real { if fp8 then 1.0 else 2.0 }

  /** Weights, KV cache and two GB of overhead. */
  function TotalGb(w: Workload, fp8: bool): real { w.paramsB * BytesPerParam(fp8) + KvCacheGb(w) + 2.0 }

  function GpusNeeded(w: Workload, hw: Hardware, fp8: bool): (n: int)
    requires hw.Valid()
    ensures n >= 1
  {
    var c := Ceil(TotalGb(w, fp8) / (hw.vramGb * 0.9));
    if c > 1 then c else 1
  }

  predicate Holds(w: Workload, hw: Hardware, fp8: bool, n: int) { n as real * (hw.vramGb * 0.9) >= TotalGb(w, fp8) }

  /** The least n >= 1 whose usable VRAM holds the model. */
  ghost predicate IsLeastCount(w: Workload, hw: Hardware, fp8: bool, n: int) {
    && n >= 1 && Holds(w, hw, fp8, n)
    && forall m :: 1 <= m < n ==> !Holds(w, hw, fp8, m)
  }

  lemma ScaleBy(c: real, x: real, y: real)
    requires c > 0.0
    ensures x <= y <==> x * c <= y * c
  {
  }

  lemma GpusNeededIsLeast(w: Workload, hw: Hardware, fp8: bool)
    requires hw.Valid()
    ensures IsLeastCount(w, hw, fp8, GpusNeeded(w, hw, fp8))
  {
    var cap, n := hw.vramGb * 0.9, GpusNeeded(w, hw, fp8);
    var q := TotalGb(w, fp8) / cap;
    assert q * cap == TotalGb(w, fp8);
    ScaleBy(cap, q, n as real);
    forall m | 1 <= m < n ensures !Holds(w, hw, fp8, m) {
      assert m as real <= (n - 1) as real < q;
      ScaleBy(cap, q, m as real);
    }
  }

  // ---- candidates --------------------------------------------------------

  datatype Estimate = Estimate(gpus: int, tps: real, ttft: int, cost: real, fit: int)

  /** `int(x)` on a float: towards zero. */
  function Truncate(x: real): int { if x < 0.0 then -((-x).Floor) else x.Floor }

  function Throughput(hw: Hardware, fp8: bool, n: int): (tps: real)
    requires hw.Valid() && n >= 1
    ensures tps > 0.0
  {
    hw.bandwidth / 1000.0 * 40.0 / (BytesPerParam(fp8) * 1.1) * (if n > 1 then n as real * 0.85 else 1.0)
  }

  /** Milliseconds to the first token, before the floor of 75 and the cut to whole ones. */
  function FirstToken(context: real, bandwidth: real): real
    requires bandwidth > 0.0
  {
    context / (bandwidth / 1000.0 * 25.0) * 10.0
  }

  function AtLeast75(t: int): int { if t > 75 then t else 75 }

  function MillionCost(costHr: real, n: int, tps: real): real
    requires tps > 0.0
  {
    Round2(costHr * n as real / (tps * 3600.0) * 1000000.0)
  }

  function EstimateFor(w: Workload, hw: Hardware, fp8: bool): Estimate
    requires hw.Valid()
  {
    var n := GpusNeeded(w, hw, fp8);
    var baseTps := Throughput(hw, fp8, n);
    var ttft := AtLeast75(Truncate(FirstToken(w.contextLength as real, hw.bandwidth)));
    var cost := MillionCost(hw.costHr, n, baseTps);
    var ttftPass, costPass := ttft as real <= w.maxTtft, cost <= w.maxCost;
    var fit := if ttftPass && costPass then 98 else if ttftPass then 90 else if costPass then 85 else 75;
    Estimate(n, baseTps, ttft, cost, fit)
  }

  function CandidatesFor(w: Workload, hw: Hardware, fp8: bool): seq<Candidate>
    requires hw.Valid()
  {
    var e := EstimateFor(w, hw, fp8);
    if e.gpus > 8 then []
    else
      var dynamo := Candidate(Dynamo, hw.name, fp8, if e.gpus == 1 then 2 else e.gpus, Round1(e.tps * 1.35),
                              Truncate(e.ttft as real * 0.75), Round2(e.cost * 1.15), e.fit + 3);
      var nim := Candidate(Nim, hw.name, fp8, e.gpus, Round1(e.tps * 1.15),
                           Truncate(e.ttft as real * 0.88), e.cost, e.fit);
      var vllm := Candidate(Vllm, hw.name, fp8, e.gpus, Round1(e.tps), e.ttft, e.cost, e.fit);
      (if hw.nvidia && w.concurrency >= 4 then [dynamo] else []) + (if hw.nvidia then [nim] else []) + [vllm]
  }

  function Precisions(hw: Hardware): seq<bool> { if hw.fp8 then [true, false] else [false] }

  function OfPrecisions(w: Workload, hw: Hardware, ps: seq<bool>): seq<Candidate>
    requires hw.Valid()
  {
    if ps == [] then [] else OfPrecisions(w, hw, ps[..|ps| - 1]) + CandidatesFor(w, hw, ps[|ps| - 1])
  }

  predicate AllValid(hws: seq<Hardware>) { forall hw :: hw in hws ==> hw.Valid() }

  function Generated(w: Workload, hws: seq<Hardware>): seq<Candidate>
    requires AllValid(hws)
  {
    if hws == [] then []
    else
      var hw := hws[|hws| - 1];
      Generated(w, hws[..|hws| - 1]) + OfPrecisions(w, hw, Precisions(hw))
  }

  /** The runtimes considered for a device. */
  predicate Offers(w: Workload, hw: Hardware, r: Runtime) {
    match r
    case Dynamo => hw.nvidia && w.concurrency >= 4
    case Nim => hw.nvidia
    case Vllm => true
  }

  /** The device a candidate was made for, sized by the least count; Dynamo splits a single GPU into two. */
  ghost predicate SizedRight(w: Workload, hws: seq<Hardware>, c: Candidate) {
    exists hw, n ::
      && hw in hws && hw.name == c.device && c.fp8 in Precisions(hw) && Offers(w, hw, c.runtime)
      && IsLeastCount(w, hw, c.fp8, n) && n <= 8
      && c.gpus == if c.runtime.Dynamo? && n == 1 then 2 else n
  }

  lemma CandidatesSized(w: Workload, hw: Hardware, fp8: bool, hws: seq<Hardware>)
    requires hw.Valid() && hw in hws && fp8 in Precisions(hw)
    ensures forall c :: c in CandidatesFor(w, hw, fp8) ==> SizedRight(w, hws, c)
  {
    GpusNeededIsLeast(w, hw, fp8);
    var n := GpusNeeded(w, hw, fp8);
    assert EstimateFor(w, hw, fp8).gpus == n;
    forall c | c in CandidatesFor(w, hw, fp8) ensures SizedRight(w, hws, c) {
      assert hw.name == c.device && Offers(w, hw, c.runtime) && IsLeastCount(w, hw, c.fp8, n) && n <= 8;
    }
  }

  lemma {:induction false} PrecisionsSized(w: Workload, hw: Hardware, ps: seq<bool>, hws: seq<Hardware>)
    requires hw.Valid() && hw in hws && forall p :: p in ps ==> p in Precisions(hw)
    ensures forall c :: c in OfPrecisions(w, hw, ps) ==> SizedRight(w, hws, c)
  {
    if ps != [] {
      PrecisionsSized(w, hw, ps[..|ps| - 1], hws);
      CandidatesSized(w, hw, ps[|ps| - 1], hws);
    }
  }

  lemma {:induction false} GeneratedSized(w: Workload, part: seq<Hardware>, hws: seq<Hardware>)
    requires AllValid(part) && forall hw :: hw in part ==> hw in hws
    ensures forall c :: c in Generated(w, part) ==> SizedRight(w, hws, c)
  {
    if part != [] {
      GeneratedSized(w, part[..|part| - 1], hws);
      PrecisionsSized(w, part[|part| - 1], Precisions(part[|part| - 1]), hws);
    }
  }

  /** A candidate for this device, precision and runtime. */
  predicate IsFor(c: Candidate, hw: Hardware, fp8: bool, r: Runtime) {
    c.device == hw.name && c.fp8 == fp8 && c.runtime == r
  }

  ghost predicate Contributes(cs: seq<Candidate>, hw: Hardware, fp8: bool, r: Runtime) {
    exists c :: c in cs && IsFor(c, hw, fp8, r)
  }

  lemma CandidatesComplete(w: Workload, hw: Hardware, fp8: bool, r: Runtime)
    requires hw.Valid() && Offers(w, hw, r) && GpusNeeded(w, hw, fp8) <= 8
    ensures Contributes(CandidatesFor(w, hw, fp8), hw, fp8, r)
  {
    var cs := CandidatesFor(w, hw, fp8);
    var k := match r case Vllm => |cs| - 1 case Nim => |cs| - 2 case Dynamo => 0;
    assert IsFor(cs[k], hw, fp8, r);
  }

  lemma ContributesMore(cs: seq<Candidate>, ds: seq<Candidate>, hw: Hardware, fp8: bool, r: Runtime)
    requires Contributes(cs, hw, fp8, r) || Contributes(ds, hw, fp8, r)
    ensures Contributes(cs + ds, hw, fp8, r)
  {
    var c :| (c in cs || c in ds) && IsFor(c, hw, fp8, r);
    assert c in cs + ds;
  }

  lemma {:induction false} PrecisionsComplete(w: Workload, hw: Hardware, ps: seq<bool>, fp8: bool, r: Runtime)
    requires hw.Valid() && Offers(w, hw, r) && fp8 in ps && GpusNeeded(w, hw, fp8) <= 8
    ensures Contributes(OfPrecisions(w, hw, ps), hw, fp8, r)
  {
    var n := |ps| - 1;
    if ps[n] == fp8 {
      CandidatesComplete(w, hw, fp8, r);
    } else {
      PrecisionsComplete(w, hw, ps[..n], fp8, r);
    }
    ContributesMore(OfPrecisions(w, hw, ps[..n]), CandidatesFor(w, hw, ps[n]), hw, fp8, r);
  }

  lemma {:induction false} DeviceKept(w: Workload, hws: seq<Hardware>, hw: Hardware, fp8: bool, r: Runtime)
    requires hw in hws && AllValid(hws)
    requires Contributes(OfPrecisions(w, hw, Precisions(hw)), hw, fp8, r)
    ensures Contributes(Generated(w, hws), hw, fp8, r)
  {
    var before, last := hws[..|hws| - 1], hws[|hws| - 1];
    if last != hw {
      assert hw in before;
      DeviceKept(w, before, hw, fp8, r);
    }
    ContributesMore(Generated(w, before), OfPrecisions(w, last, Precisions(last)), hw, fp8, r);
  }

  lemma GeneratedComplete(w: Workload, hws: seq<Hardware>, hw: Hardware, fp8: bool, r: Runtime)
    requires AllValid(hws) && hw in hws && fp8 in Precisions(hw)
    requires Offers(w, hw, r) && GpusNeeded(w, hw, fp8) <= 8
    ensures Contributes(Generated(w, hws), hw, fp8, r)
  {
    PrecisionsComplete(w, hw, Precisions(hw), fp8, r);
    DeviceKept(w, hws, hw, fp8, r);
  }

  /** FP8 before FP16, and Dynamo before NIM before vLLM. */
  predicate Earlier(c: Candidate, d: Candidate) {
    if c.fp8 != d.fp8 then c.fp8
    else (c.runtime.Dynamo? && !d.runtime.Dynamo?) || (c.runtime.Nim? && d.runtime.Vllm?)
  }

  predicate InOrder(cs: seq<Candidate>) { forall i, j :: 0 <= i < j < |cs| ==> Earlier(cs[i], cs[j]) }

  lemma CandidatesInOrder(w: Workload, hw: Hardware, fp8: bool)
    requires hw.Valid()
    ensures InOrder(CandidatesFor(w, hw, fp8)) && forall c :: c in CandidatesFor(w, hw, fp8) ==> c.fp8 == fp8
  {
  }

  lemma HighThenLow(high: seq<Candidate>, low: seq<Candidate>)
    requires InOrder(high) && InOrder(low)
    requires (forall c :: c in high ==> c.fp8) && forall c :: c in low ==> !c.fp8
    ensures InOrder(high + low)
  {
  }

  lemma BothPrecisions(w: Workload, hw: Hardware)
    requires hw.Valid()
    ensures OfPrecisions(w, hw, Precisions(hw)) ==
            (if hw.fp8 then CandidatesFor(w, hw, true) else []) + CandidatesFor(w, hw, false)
  {
    assert [true, false][..1] == [true] && [true][..0] == [] && [false][..0] == [];
    assert OfPrecisions(w, hw, []) == [];
    assert OfPrecisions(w, hw, [true]) == [] + CandidatesFor(w, hw, true);
  }

  /** The order in which one device's candidates are generated, which decides ties. */
  lemma GeneratedInOrder(w: Workload, hw: Hardware)
    requires hw.Valid()
    ensures InOrder(OfPrecisions(w, hw, Precisions(hw)))
  {
    BothPrecisions(w, hw);
    CandidatesInOrder(w, hw, true);
    CandidatesInOrder(w, hw, false);
    HighThenLow(if hw.fp8 then CandidatesFor(w, hw, true) else [], CandidatesFor(w, hw, false));
  }

  /** Candidates of earlier devices come first. */
  lemma {:induction false} DevicesInOrder(w: Workload, hws: seq<Hardware>, k: nat)
    requires AllValid(hws) && k <= |hws|
    ensures Generated(w, hws[..k]) <= Generated(w, hws)
  {
    if k < |hws| {
      var before := hws[..|hws| - 1];
      assert before[..k] == hws[..k];
      DevicesInOrder(w, before, k);
    } else {
      assert hws[..k] == hws;
    }
  }

  /** No two devices of the table share a name. */
  ghost predicate DistinctNames(hws: seq<Hardware>) {
    forall a, b :: a in hws && b in hws && a.name == b.name ==> a == b
  }

  lemma LeastCountUnique(w: Workload, hw: Hardware, fp8: bool, m: int, n: int)
    requires IsLeastCount(w, hw, fp8, m) && IsLeastCount(w, hw, fp8, n)
    ensures m == n
  {
  }

  /** A device and precision contribute a candidate for a runtime exactly when it is offered and 8 GPUs suffice. */
  lemma ContributesExactly(w: Workload, hws: seq<Hardware>, hw: Hardware, fp8: bool, r: Runtime)
    requires AllValid(hws) && DistinctNames(hws) && hw in hws && fp8 in Precisions(hw)
    ensures Contributes(Generated(w, hws), hw, fp8, r) <==> Offers(w, hw, r) && Holds(w, hw, fp8, 8)
  {
    GpusNeededIsLeast(w, hw, fp8);
    var n := GpusNeeded(w, hw, fp8);
    HoldsFrom(w, hw, fp8, n, 8);
    if c :| c in Generated(w, hws) && IsFor(c, hw, fp8, r) {
      GeneratedSized(w, hws, hws);
      assert SizedRight(w, hws, c);
      var hw', m :| hw' in hws && hw'.name == c.device && Offers(w, hw', c.runtime)
                    && IsLeastCount(w, hw', c.fp8, m) && m <= 8;
      assert hw' == hw;
      LeastCountUnique(w, hw, fp8, m, n);
    }
    if Offers(w, hw, r) && Holds(w, hw, fp8, 8) {
      GeneratedComplete(w, hws, hw, fp8, r);
    }
  }

  /** The same in plain figures: NVIDIA for Dynamo and NIM, four requests for Dynamo, and room on eight GPUs. */
  lemma RuntimeContributes(w: Workload, hws: seq<Hardware>, hw: Hardware, fp8: bool)
    requires AllValid(hws) && DistinctNames(hws) && hw in hws && (fp8 ==> hw.fp8)
    ensures var room := 8.0 * (hw.vramGb * 0.9) >= TotalGb(w, fp8);
            && (Contributes(Generated(w, hws), hw, fp8, Vllm) <==> room)
            && (Contributes(Generated(w, hws), hw, fp8, Nim) <==> room && hw.nvidia)
            && (Contributes(Generated(w, hws), hw, fp8, Dynamo) <==> room && hw.nvidia && w.concurrency >= 4)
  {
    assert fp8 in Precisions(hw);
    ContributesExactly(w, hws, hw, fp8, Vllm);
    ContributesExactly(w, hws, hw, fp8, Nim);
    ContributesExactly(w, hws, hw, fp8, Dynamo);
  }

  /** With the least count known, exactly the counts from it on hold the model. */
  lemma HoldsFrom(w: Workload, hw: Hardware, fp8: bool, n: int, m: int)
    requires hw.Valid() && IsLeastCount(w, hw, fp8, n) && m >= 1
    ensures Holds(w, hw, fp8, m) <==> n <= m
  {
  }

  // ---- the figures, in units and limits ----------------------------------

  /** A parameter takes one byte in FP8 and two otherwise, and each token of a request's context 131072 bytes. */
  lemma TotalMeans(w: Workload, fp8: bool)
    ensures (TotalGb(w, fp8) - 2.0 - (if fp8 then w.paramsB else w.paramsB + w.paramsB)) * 1000000000.0
            == (131072 * w.contextLength * w.concurrency) as real
  {
  }

  /** Throughput: 40 tokens a second for each 1000 GB/s and 1.1 bytes, at 85% for each of several GPUs. */
  lemma ThroughputMeans(hw: Hardware, fp8: bool, n: int)
    requires hw.Valid() && n >= 1
    ensures Throughput(hw, fp8, n) * (if fp8 then 1100.0 else 2200.0) ==
            if n == 1 then 40.0 * hw.bandwidth else 34.0 * (hw.bandwidth * n as real)
  {
    var one := hw.bandwidth / 1000.0 * 40.0 / (BytesPerParam(fp8) * 1.1);
    assert one * (if fp8 then 1100.0 else 2200.0) == 40.0 * hw.bandwidth;
    if n > 1 {
      assert Throughput(hw, fp8, n) == one * (n as real * 0.85);
      Regroup(one, n as real, if fp8 then 1100.0 else 2200.0, hw.bandwidth);
    }
  }

  lemma Regroup(x: real, n: real, k: real, b: real)
    requires x * k == 40.0 * b
    ensures x * (n * 0.85) * k == 34.0 * (b * n)
  {
    assert x * (n * 0.85) * k == x * k * (n * 0.85);
  }

  lemma SwapFactor(x: real, y: real)
    requires y != 0.0
    ensures x / y * 1000000.0 == x * 1000000.0 / y
  {
    assert x / y * y == x;
  }

  /** The price of a million tokens at this throughput, to the cent. */
  lemma CostMeans(costHr: real, n: int, tps: real)
    requires tps > 0.0
    ensures -0.005 <= MillionCost(costHr, n, tps) - costHr * n as real * 1000000.0 / (tps * 3600.0) <= 0.005
  {
    SwapFactor(costHr * n as real, tps * 3600.0);
  }

  lemma FirstTokenTime(context: real, bandwidth: real)
    requires context >= 0.0 && bandwidth > 0.0
    ensures FirstToken(context, bandwidth) == 400.0 * context / bandwidth >= 0.0
  {
    var unit, x := bandwidth / 1000.0 * 25.0, FirstToken(context, bandwidth);
    assert unit == bandwidth * 0.025;
    assert context / unit * unit == context;
    assert x * bandwidth == 400.0 * context;
    QuotientIs(x, bandwidth, 400.0 * context);
  }

  lemma QuotientIs(x: real, y: real, z: real)
    requires y > 0.0 && z >= 0.0 && x * y == z
    ensures x == z / y && x >= 0.0
  {
  }

  lemma CutToWhole(x: real, t: int)
    requires x >= 0.0 && t == AtLeast75(Truncate(x))
    ensures t >= 75 && x < (t + 1) as real && (t > 75 ==> t as real <= x)
  {
  }

  /** Time to the first token: 400 ms for each token of context and GB/s, in whole milliseconds and at least 75. */
  lemma FirstTokenMeans(context: real, bandwidth: real, t: int)
    requires context >= 0.0 && bandwidth > 0.0 && t == AtLeast75(Truncate(FirstToken(context, bandwidth)))
    ensures t >= 75 && 400.0 * context / bandwidth < (t + 1) as real
    ensures t > 75 ==> t as real <= 400.0 * context / bandwidth
  {
    FirstTokenTime(context, bandwidth);
    CutToWhole(FirstToken(context, bandwidth), t);
  }

  /** The estimate is for the least count, at its throughput and price. */
  lemma EstimateMeans(w: Workload, hw: Hardware, fp8: bool)
    requires hw.Valid()
    ensures var e := EstimateFor(w, hw, fp8);
            && IsLeastCount(w, hw, fp8, e.gpus)
            && e.ttft == AtLeast75(Truncate(FirstToken(w.contextLength as real, hw.bandwidth)))
            && e.tps == Throughput(hw, fp8, e.gpus) && e.cost == MillionCost(hw.costHr, e.gpus, e.tps)
  {
    GpusNeededIsLeast(w, hw, fp8);
  }

  /** The fit says which of the two limits the estimate keeps. */
  lemma FitMeans(w: Workload, hw: Hardware, fp8: bool)
    requires hw.Valid()
    ensures var e := EstimateFor(w, hw, fp8);
            && e.fit in {98, 90, 85, 75}
            && (e.fit in {98, 90} <==> e.ttft as real <= w.maxTtft)
            && (e.fit in {98, 85} <==> e.cost <= w.maxCost)
  {
  }

  /** What the table says for a 70.6B model in FP8, with eight requests of 4096 tokens. */
  lemma LargeModel(w: Workload)
    requires w.paramsB == 70.6 && w.contextLength == 4096 && w.concurrency == 8
    ensures var e := EstimateFor(w, HARDWARE_PROFILES[0], true);
            e.gpus == 2 && Round1(e.tps) == 207.1 && e.ttft == 489 && e.cost == 8.58
    ensures var e := EstimateFor(w, HARDWARE_PROFILES[1], true);
            e.gpus == 1 && Round1(e.tps) == 174.5 && e.ttft == 341 && e.cost == 6.52
  {
  }

  lemma LargeModelElsewhere(w: Workload)
    requires w.paramsB == 70.6 && w.contextLength == 4096 && w.concurrency == 8
    ensures var e := EstimateFor(w, HARDWARE_PROFILES[2], true);
            e.gpus == 2 && Round1(e.tps) == 53.4 && e.ttft == 1896 && e.cost == 11.96
    ensures var e := EstimateFor(w, HARDWARE_PROFILES[3], true);
            e.gpus == 4 && Round1(e.tps) == 124.6 && e.ttft == 1625 && e.cost == 6.69
    ensures var e := EstimateFor(w, HARDWARE_PROFILES[4], true);
            e.gpus == 1 && Round1(e.tps) == 192.7 && e.ttft == 309 && e.cost == 5.04
  {
  }

  /** How the three runtimes differ on one device and precision. */
  lemma RuntimesDiffer(w: Workload, hw: Hardware, fp8: bool, c: Candidate)
    requires hw.Valid() && c in CandidatesFor(w, hw, fp8)
    ensures var e := EstimateFor(w, hw, fp8);
            && c.device == hw.name && c.fp8 == fp8
            && (c.runtime.Vllm? ==>
                  -0.05 <= c.tps - e.tps <= 0.05 && c.ttft == e.ttft && c.cost == e.cost && c.fit == e.fit)
            && (c.runtime.Nim? ==>
                  && -0.05 <= c.tps - 1.15 * e.tps <= 0.05 && 100 * c.ttft <= 88 * e.ttft < 100 * (c.ttft + 1)
                  && c.cost == e.cost && c.fit == e.fit)
            && (c.runtime.Dynamo? ==>
                  && -0.05 <= c.tps - 1.35 * e.tps <= 0.05 && 4 * c.ttft <= 3 * e.ttft < 4 * (c.ttft + 1)
                  && -0.005 <= c.cost - 1.15 * e.cost <= 0.005 && c.fit == e.fit + 3)
  {
    var e := EstimateFor(w, hw, fp8);
    assert e.ttft >= 75;
  }

  // ---- ranking -----------------------------------------------------------

  /** Strictly better by the key (-fit, cost, -tps). */
  predicate Better(a: Candidate, b: Candidate) {
    if a.fit != b.fit then a.fit > b.fit else if a.cost != b.cost then a.cost < b.cost else a.tps > b.tps
  }

  /** Dynamo comes before the other runtimes of its device and precision, though it costs more than they do. */
  lemma DynamoFirst(w: Workload, hw: Hardware, fp8: bool, c: Candidate, d: Candidate)
    requires hw.Valid() && c in CandidatesFor(w, hw, fp8) && d in CandidatesFor(w, hw, fp8)
    requires c.runtime.Dynamo? && !d.runtime.Dynamo?
    ensures Better(c, d)
  {
    RuntimesDiffer(w, hw, fp8, c);
    RuntimesDiffer(w, hw, fp8, d);
  }

  predicate SameKey(a: Candidate, b: Candidate) { a.fit == b.fit && a.cost == b.cost && a.tps == b.tps }

  predicate Ordered(cs: seq<Candidate>) { forall i, j :: 0 <= i < j < |cs| ==> !Better(cs[j], cs[i]) }

  function Insert(c: Candidate, cs: seq<Candidate>): (r: seq<Candidate>)
    ensures multiset(r) == multiset(cs) + multiset{c}
  {
    if cs == [] || !Better(cs[0], c) then [c] + cs
    else
      assert cs == [cs[0]] + cs[1..];
      [cs[0]] + Insert(c, cs[1..])
  }

  /** The stable sort. */
  function Sort(cs: seq<Candidate>): (r: seq<Candidate>)
    ensures multiset(r) == multiset(cs) && |r| == |cs|
  {
    if cs == [] then []
    else
      assert cs == [cs[0]] + cs[1..];
      var r := Insert(cs[0], Sort(cs[1..]));
      assert |multiset(r)| == |multiset(cs)|;
      r
  }

  lemma InsertMembers(c: Candidate, cs: seq<Candidate>, j: nat)
    requires j < |Insert(c, cs)|
    ensures Insert(c, cs)[j] == c || Insert(c, cs)[j] in cs
  {
    assert Insert(c, cs)[j] in multiset(Insert(c, cs));
  }

  lemma {:induction false} InsertOrdered(c: Candidate, cs: seq<Candidate>)
    requires Ordered(cs)
    ensures Ordered(Insert(c, cs))
  {
    if cs != [] && Better(cs[0], c) {
      var tail := Insert(c, cs[1..]);
      InsertOrdered(c, cs[1..]);
      forall j | 0 <= j < |tail| ensures !Better(tail[j], cs[0]) {
        InsertMembers(c, cs[1..], j);
      }
    }
  }

  lemma {:induction false} SortOrdered(cs: seq<Candidate>)
    ensures Ordered(Sort(cs))
  {
    if cs != [] {
      SortOrdered(cs[1..]);
      InsertOrdered(cs[0], Sort(cs[1..]));
    }
  }

  function WithKey(cs: seq<Candidate>, k: Candidate): seq<Candidate> {
    if cs == [] then []
    else (if SameKey(cs[0], k) then [cs[0]] else []) + WithKey(cs[1..], k)
  }

  lemma WithKeyFirst(c: Candidate, cs: seq<Candidate>, k: Candidate)
    ensures WithKey([c] + cs, k) == (if SameKey(c, k) then [c] else []) + WithKey(cs, k)
  {
    assert ([c] + cs)[1..] == cs;
  }

  lemma {:induction false} InsertStable(c: Candidate, cs: seq<Candidate>, k: Candidate)
    ensures WithKey(Insert(c, cs), k) == (if SameKey(c, k) then [c] else []) + WithKey(cs, k)
  {
    if cs == [] || !Better(cs[0], c) {
      WithKeyFirst(c, cs, k);
    } else {
      InsertStable(c, cs[1..], k);
      WithKeyFirst(cs[0], Insert(c, cs[1..]), k);
    }
  }

  /** Candidates that tie keep the order in which they were generated. */
  lemma {:induction false} SortStable(cs: seq<Candidate>, k: Candidate)
    ensures WithKey(Sort(cs), k) == WithKey(cs, k)
  {
    if cs != [] {
      SortStable(cs[1..], k);
      InsertStable(cs[0], Sort(cs[1..]), k);
    }
  }

  datatype Ranked = Ranked(rank: nat, candidate: Candidate)

  function Strip(rs: seq<Ranked>): (cs: seq<Candidate>)
    ensures |cs| == |rs| && forall i :: 0 <= i < |cs| ==> cs[i] == rs[i].candidate
  {
    seq(|rs|, i requires 0 <= i < |rs| => rs[i].candidate)
  }

  /** What a ranked list owes to all candidates: their best six at most, in order, and the rest no better. */
  ghost predicate IsTopSix(all: seq<Candidate>, top: seq<Ranked>, omitted: seq<Candidate>) {
    && |top| == (if |all| < 6 then |all| else 6)
    && (forall i :: 0 <= i < |top| ==> top[i].rank == i + 1)
    && Ordered(Strip(top))
    && multiset(all) == multiset(Strip(top)) + multiset(omitted)
    && forall i, j :: 0 <= i < |top| && 0 <= j < |omitted| ==> !Better(omitted[j], top[i].candidate)
  }

  /** The order of a ranked list in its figures: fit first, then cost, then throughput. */
  lemma RankedMeans(all: seq<Candidate>, top: seq<Ranked>, omitted: seq<Candidate>, i: nat, d: Candidate)
    requires IsTopSix(all, top, omitted) && i < |top|
    requires d in omitted || exists j :: i < j < |top| && top[j].candidate == d
    ensures var c := top[i].candidate;
            && top[i].rank == i + 1 && c.fit >= d.fit
            && (c.fit == d.fit ==> c.cost <= d.cost && (c.cost == d.cost ==> c.tps >= d.tps))
    ensures |top| <= 6 && (omitted != [] ==> |top| == 6)
  {
    assert |multiset(all)| == |Strip(top)| + |omitted|;
    if j :| i < j < |top| && top[j].candidate == d {
      assert !Better(Strip(top)[j], Strip(top)[i]);
    }
  }

  lemma LengthsDistinguish(hws: seq<Hardware>)
    requires forall i, j :: 0 <= i < j < |hws| ==> |hws[i].name| != |hws[j].name|
    ensures DistinctNames(hws)
  {
    forall a, b | a in hws && b in hws && a.name == b.name ensures a == b {
      var i :| 0 <= i < |hws| && hws[i] == a;
      var j :| 0 <= j < |hws| && hws[j] == b;
      assert i == j;
    }
  }

  lemma ProfileNames()
    ensures |HARDWARE_PROFILES[0].name| == 21 && |HARDWARE_PROFILES[1].name| == 17
    ensures |HARDWARE_PROFILES[2].name| == 16 && |HARDWARE_PROFILES[3].name| == 28
    ensures |HARDWARE_PROFILES[4].name| == 25 && |HARDWARE_PROFILES| == 5
  {
  }

  /** The built-in table qualifies. */
  lemma ProfilesValid()
    ensures AllValid(HARDWARE_PROFILES) && DistinctNames(HARDWARE_PROFILES)
  {
    ProfileNames();
    LengthsDistinguish(HARDWARE_PROFILES);
  }

  /** The inner loop, over the precisions of one device. */
  method CandidatesOf(w: Workload, hw: Hardware) returns (candidates: seq<Candidate>)
    requires hw.Valid()
    ensures candidates == OfPrecisions(w, hw, Precisions(hw))
  {
    candidates := [];
    var precisions := Precisions(hw);
    for j := 0 to |precisions|
      invariant candidates == OfPrecisions(w, hw, precisions[..j])
    {
      assert precisions[..j + 1][..j] == precisions[..j];
      candidates := candidates + CandidatesFor(w, hw, precisions[j]);
    }
    assert precisions[..|precisions|] == precisions;
  }

  /** The outer loop, over the devices. */
  method GenerateCandidates(w: Workload, hws: seq<Hardware>) returns (candidates: seq<Candidate>)
    requires AllValid(hws)
    ensures candidates == Generated(w, hws)
  {
    candidates := [];
    for i := 0 to |hws|
      invariant candidates == Generated(w, hws[..i])
    {
      var ofDevice := CandidatesOf(w, hws[i]);
      assert hws[..i + 1][..i] == hws[..i];
      candidates := candidates + ofDevice;
    }
    assert hws[..|hws|] == hws;
  }

  method AssignRanks(sorted: seq<Candidate>) returns (ranked: seq<Ranked>)
    ensures |ranked| == |sorted| && forall k :: 0 <= k < |ranked| ==> ranked[k] == Ranked(k + 1, sorted[k])
  {
    ranked := [];
    for i := 0 to |sorted|
      invariant |ranked| == i && forall k :: 0 <= k < i ==> ranked[k] == Ranked(k + 1, sorted[k])
    {
      ranked := ranked + [Ranked(i + 1, sorted[i])];
    }
  }

  lemma SortedSized(w: Workload, hws: seq<Hardware>, i: nat)
    requires AllValid(hws) && i < |Sort(Generated(w, hws))|
    ensures SizedRight(w, hws, Sort(Generated(w, hws))[i])
  {
    var all := Generated(w, hws);
    GeneratedSized(w, hws, hws);
    assert Sort(all)[i] in multiset(Sort(all));
    assert Sort(all)[i] in multiset(all);
  }

  /** `synthesize_candidates`, with the profile table as a parameter; what is omitted is a ghost result. */
  method SynthesizeCandidates(w: Workload, hws: seq<Hardware>) returns (top: seq<Ranked>, ghost omitted: seq<Candidate>)
    requires AllValid(hws)
    ensures IsTopSix(Generated(w, hws), top, omitted)
    ensures Strip(top) + omitted == Sort(Generated(w, hws))
    ensures forall i :: 0 <= i < |top| ==> SizedRight(w, hws, top[i].candidate)
  {
    var candidates := GenerateCandidates(w, hws);
    SortOrdered(candidates);
    var sorted := Sort(candidates);
    var ranked := AssignRanks(sorted);
    top := if |ranked| < 6 then ranked else ranked[..6];
    omitted := sorted[|top|..];
    TopSixFacts(candidates, sorted, top);
    forall i | 0 <= i < |top| ensures SizedRight(w, hws, top[i].candidate) {
      SortedSized(w, hws, i);
    }
  }

  lemma TopSixFacts(all: seq<Candidate>, sorted: seq<Candidate>, top: seq<Ranked>)
    requires multiset(sorted) == multiset(all) && |sorted| == |all| && Ordered(sorted)
    requires |top| == (if |all| < 6 then |all| else 6)
    requires forall i :: 0 <= i < |top| ==> top[i] == Ranked(i + 1, sorted[i])
    ensures IsTopSix(all, top, sorted[|top|..]) && Strip(top) + sorted[|top|..] == sorted
  {
    assert Strip(top) == sorted[..|top|];
    assert sorted == sorted[..|top|] + sorted[|top|..];
  }
}
