/** Speculative decoding: expected tokens, speedup, the scan for the best lookahead, and break-even. */
module Speculative {
  import opened Options
  import opened Rounding

  // ---- powers and the geometric sum --------------------------------------

  function Pow(a: real, n: nat): real {
    if n == 0 then 1.0 else a * Pow(a, n - 1)
  }

  /** 1 + a + ... + a^g: token i + 1 is produced when the first i draft tokens are accepted. */
  function GeometricSum(a: real, g: nat): real {
    if g == 0 then 1.0 else GeometricSum(a, g - 1) + Pow(a, g)
  }

  /** The closed form the profiler evaluates. */
  function ExpectedTokens(a: real, g: nat): real
    requires a != 1.0
  {
    (1.0 - Pow(a, g + 1)) / (1.0 - a)
  }

  lemma Quotient(x: real, d: real, y: real)
    requires d != 0.0 && x == y * d
    ensures x / d == y
  {
  }

  lemma {:induction false} Telescope(a: real, g: nat)
    ensures GeometricSum(a, g) * (1.0 - a) == 1.0 - Pow(a, g + 1)
  {
    if g == 0 {
      assert Pow(a, 1) == a * Pow(a, 0);
    } else {
      Telescope(a, g - 1);
      var s, q := GeometricSum(a, g - 1), Pow(a, g);
      assert (s + q) * (1.0 - a) == s * (1.0 - a) + q * (1.0 - a);
      assert q * (1.0 - a) == q - a * q;
    }
  }

  lemma ClosedForm(a: real, g: nat)
    requires a != 1.0
    ensures ExpectedTokens(a, g) == GeometricSum(a, g)
  {
    Telescope(a, g);
    Quotient(1.0 - Pow(a, g + 1), 1.0 - a, GeometricSum(a, g));
  }

  lemma Scale(k: real, x: real, y: real)
    requires k >= 0.0 && x <= y
    ensures k * x <= k * y
  {
  }

  lemma {:induction false} PowBounds(a: real, n: nat)
    requires 0.0 < a < 1.0
    ensures 0.0 < Pow(a, n) <= 1.0
    ensures n > 0 ==> Pow(a, n) <= a
  {
    if n > 0 {
      PowBounds(a, n - 1);
      var q := Pow(a, n - 1);
      Scale(a, q, 1.0);
      assert a * 1.0 == a && a * q > 0.0;
      assert Pow(a, n) == a * q;
    }
  }

  lemma {:induction false} SumBounds(a: real, g: nat)
    requires 0.0 < a < 1.0
    ensures 1.0 <= GeometricSum(a, g) <= 1.0 + g as real * a
  {
    if g > 0 {
      SumBounds(a, g - 1);
      PowBounds(a, g);
      assert g as real * a == (g - 1) as real * a + a;
    }
  }

  // ---- speedup -----------------------------------------------------------

  datatype Pair = Pair(alpha: real, target: real, draft: real) {
    predicate Valid() { 0.0 < alpha < 1.0 && target > 0.0 && draft > 0.0 }
  }

  function Cost(p: Pair, g: nat): real { g as real * p.draft + p.target }

  function Speedup(p: Pair, g: nat): real
    requires p.Valid()
  {
    CostPositive(p, g);
    Rate(ExpectedTokens(p.alpha, g), p.target, Cost(p, g))
  }

  /** Tokens per verification step, relative to decoding without a draft. */
  function Rate(tokens: real, target: real, cost: real): real
    requires cost != 0.0
  {
    tokens * target / cost
  }

  lemma CostPositive(p: Pair, g: nat)
    requires p.Valid()
    ensures Cost(p, g) >= p.target > 0.0
  {
  }

  /** What one more draft token gains over what it costs, up to a positive factor. */
  function Gain(p: Pair, g: nat): real {
    GainOf(Pow(p.alpha, g + 1), Cost(p, g), GeometricSum(p.alpha, g), p.draft)
  }

  function GainOf(q: real, c: real, e: real, d: real): real { q * c - e * d }

  lemma SignOfProduct(k: real, x: real)
    requires k > 0.0
    ensures (k * x > 0.0 <==> x > 0.0) && (k * x == 0.0 <==> x == 0.0)
  {
  }

  lemma CompareSteps(s: real, s': real, gain: real, t: real, e: real, q: real, c: real, d: real)
    requires t > 0.0 && c > 0.0 && c + d > 0.0
    requires s == Rate(e, t, c) && s' == Rate(e + q, t, c + d) && gain == GainOf(q, c, e, d)
    ensures s < s' <==> gain > 0.0
    ensures s == s' <==> gain == 0.0
  {
  }

  lemma SpeedupBySum(p: Pair, g: nat)
    requires p.Valid()
    ensures Cost(p, g) > 0.0 && Speedup(p, g) == Rate(GeometricSum(p.alpha, g), p.target, Cost(p, g))
  {
    CostPositive(p, g);
    ClosedForm(p.alpha, g);
  }

  lemma NeighbourRates(p: Pair, g: nat)
    requires p.Valid()
    ensures
      var e, q, c := GeometricSum(p.alpha, g), Pow(p.alpha, g + 1), Cost(p, g);
      && c > 0.0 && c + p.draft > 0.0
      && Speedup(p, g) == Rate(e, p.target, c)
      && Speedup(p, g + 1) == Rate(e + q, p.target, c + p.draft)
  {
    SpeedupBySum(p, g);
    SpeedupBySum(p, g + 1);
    CostStep(p, g);
  }

  /** The sign of the gain decides whether the speedup rises, stays, or falls at the next lookahead. */
  lemma StepDirection(p: Pair, g: nat)
    requires p.Valid()
    ensures Speedup(p, g) < Speedup(p, g + 1) <==> Gain(p, g) > 0.0
    ensures Speedup(p, g) == Speedup(p, g + 1) <==> Gain(p, g) == 0.0
  {
    NeighbourRates(p, g);
    CompareSteps(Speedup(p, g), Speedup(p, g + 1), Gain(p, g),
                 p.target, GeometricSum(p.alpha, g), Pow(p.alpha, g + 1), Cost(p, g), p.draft);
  }

  lemma CostStep(p: Pair, g: nat)
    ensures Cost(p, g + 1) == Cost(p, g) + p.draft
  {
  }

  lemma GainArithmetic(a: real, q: real, c: real, d: real, e: real)
    ensures GainOf(q, c, e, d) - GainOf(a * q, c + d, e + q, d) == (1.0 - a) * (q * (c + d))
  {
  }

  lemma GainDrops(p: Pair, g: nat)
    requires p.Valid()
    ensures Gain(p, g + 1) < Gain(p, g)
  {
    var a, c, q, e := p.alpha, Cost(p, g), Pow(p.alpha, g + 1), GeometricSum(p.alpha, g);
    CostStep(p, g);
    assert Pow(a, g + 2) == a * q && GeometricSum(a, g + 1) == e + q;
    GainArithmetic(a, q, c, p.draft, e);
    PowBounds(a, g + 1);
    CostPositive(p, g);
    SignOfProduct(q, c + p.draft);
    SignOfProduct(1.0 - a, q * (c + p.draft));
  }

  lemma {:induction false} GainDecreasing(p: Pair, g: nat, h: nat)
    requires p.Valid() && g < h
    ensures Gain(p, h) < Gain(p, g)
    decreases h
  {
    GainDrops(p, h - 1);
    if g < h - 1 {
      GainDecreasing(p, g, h - 1);
    }
  }

  /** Once the speedup fails to rise it falls ever after: there is no second rise. */
  lemma Unimodal(p: Pair, g: nat, h: nat)
    requires p.Valid() && g < h && Speedup(p, g + 1) <= Speedup(p, g)
    ensures Speedup(p, h + 1) < Speedup(p, h)
  {
    StepDirection(p, g);
    GainDecreasing(p, g, h);
    StepDirection(p, h);
  }

  lemma {:induction false} FallsAfter(p: Pair, g: nat, h: nat)
    requires p.Valid() && g <= h && Speedup(p, g + 1) <= Speedup(p, g)
    ensures Speedup(p, h) <= Speedup(p, g)
    decreases h
  {
    if g < h {
      FallsAfter(p, g, h - 1);
      if g < h - 1 {
        Unimodal(p, g, h - 1);
      }
    }
  }

  // ---- the scan ----------------------------------------------------------

  predicate IsFirstBest(p: Pair, best: nat, last: nat)
    requires p.Valid()
  {
    && 1 <= best <= last
    && (forall g :: 1 <= g <= last ==> Speedup(p, g) <= Speedup(p, best))
    && forall g :: 1 <= g < best ==> Speedup(p, g) < Speedup(p, best)
  }

  lemma SpeedupPositive(p: Pair, g: nat)
    requires p.Valid()
    ensures Speedup(p, g) > 0.0
  {
    ClosedForm(p.alpha, g);
    SumBounds(p.alpha, g);
    CostPositive(p, g);
    var x := ExpectedTokens(p.alpha, g) * p.target;
    assert x > 0.0;
    assert x / Cost(p, g) > 0.0;
  }

  /** The loop over gamma = 1..10 of `profile`. */
  method ScanGamma(p: Pair) returns (optimalGamma: nat, maxSpeedup: real)
    requires p.Valid()
    ensures IsFirstBest(p, optimalGamma, 10) && maxSpeedup == Speedup(p, optimalGamma)
  {
    optimalGamma := 5;
    maxSpeedup := 0.0;
    for g := 1 to 11
      invariant g == 1 ==> maxSpeedup == 0.0
      invariant g > 1 ==> IsFirstBest(p, optimalGamma, g - 1) && maxSpeedup == Speedup(p, optimalGamma)
    {
      var speedup := Speedup(p, g);
      SpeedupPositive(p, g);
      if speedup > maxSpeedup {
        maxSpeedup := speedup;
        optimalGamma := g;
      }
    }
  }

  ghost predicate IsGlobalBest(p: Pair, best: nat)
    requires p.Valid()
  {
    forall g: nat :: g >= 1 ==> Speedup(p, g) <= Speedup(p, best)
  }

  /** A winner inside the scanned range is the best of all lookaheads. */
  lemma ScanIsGlobal(p: Pair, best: nat)
    requires p.Valid() && IsFirstBest(p, best, 10) && best < 10
    ensures IsGlobalBest(p, best)
  {
    forall g: nat | g >= 1 ensures Speedup(p, g) <= Speedup(p, best) {
      if g > best {
        assert Speedup(p, best + 1) <= Speedup(p, best);
        FallsAfter(p, best, g);
      }
    }
  }

  /** At the edge of the range the winner is global exactly when lookahead 11 does not beat it. */
  lemma ScanAtEdge(p: Pair)
    requires p.Valid() && IsFirstBest(p, 10, 10)
    ensures IsGlobalBest(p, 10) <==> Speedup(p, 11) <= Speedup(p, 10)
  {
    if Speedup(p, 11) <= Speedup(p, 10) {
      forall g: nat | g >= 1 ensures Speedup(p, g) <= Speedup(p, 10) {
        if g > 10 {
          FallsAfter(p, 10, g);
        }
      }
    }
  }

  lemma PowersShrink(a: real, n: nat)
    requires 0.0 < a <= 0.82
    ensures 0.0 < 1.2 * Pow(a, n + 1) <= Pow(a, n)
  {
    PowBounds(a, n);
    Scale(Pow(a, n), 1.2 * a, 1.0);
  }

  lemma SumStep(a: real, n: nat, c: real)
    requires 0.0 < a <= 0.82 && c >= 0.0 && GeometricSum(a, n) >= c * Pow(a, n + 1)
    ensures GeometricSum(a, n + 1) >= 1.2 * (c + 1.0) * Pow(a, n + 2)
  {
    PowersShrink(a, n + 1);
    Scale(c + 1.0, 1.2 * Pow(a, n + 2), Pow(a, n + 1));
  }

  lemma SumAgainstPower(a: real)
    requires 0.0 < a <= 0.82
    ensures GeometricSum(a, 5) >= 11.0 * Pow(a, 6)
  {
    PowersShrink(a, 0);
    SumStep(a, 0, 1.2);
    SumStep(a, 1, 2.64);
    SumStep(a, 2, 4.368);
    SumStep(a, 3, 6.4416);
    SumStep(a, 4, 8.92992);
    PowBounds(a, 6);
  }

  /** With acceptance at most 0.82 and a draft step of at least a sixth of a target step, six tokens are too many. */
  lemma SixthTokenLoses(p: Pair)
    requires p.Valid() && p.alpha <= 0.82 && 6.0 * p.draft >= p.target
    ensures Speedup(p, 6) <= Speedup(p, 5)
  {
    var a, q, e := p.alpha, Pow(p.alpha, 6), GeometricSum(p.alpha, 5);
    SumAgainstPower(a);
    PowBounds(a, 6);
    Scale(q, Cost(p, 5), 11.0 * p.draft);
    Scale(p.draft, 11.0 * q, e);
    assert q * Cost(p, 5) <= p.draft * e;
    assert Gain(p, 5) <= 0.0;
    StepDirection(p, 5);
  }

  /** Then the scan's winner lies inside its range, and is the best of all lookaheads. */
  lemma ScanSuffices(p: Pair, best: nat)
    requires p.Valid() && p.alpha <= 0.82 && 6.0 * p.draft >= p.target && IsFirstBest(p, best, 10)
    ensures best <= 5 && IsGlobalBest(p, best)
  {
    SixthTokenLoses(p);
    if best > 5 {
      FallsAfter(p, 5, best);
    }
    ScanIsGlobal(p, best);
  }

  // ---- break-even --------------------------------------------------------

  function BreakEven(p: Pair): real
    requires p.Valid()
  {
    p.draft / p.target
  }

  lemma RateAboveOne(s: real, e: real, t: real, x: real, c: real)
    requires c > 0.0 && c == x + t && s == Rate(e, t, c)
    ensures s > 1.0 <==> Excess(e, t) > x
  {
    assert e * t == s * c;
    assert s * c - c == c * (s - 1.0);
    SignOfProduct(c, s - 1.0);
  }

  /** Time saved by the tokens beyond the first. */
  function Excess(e: real, t: real): real { (e - 1.0) * t }

  function DraftTime(p: Pair, g: nat): real { g as real * p.draft }

  lemma CostSplits(p: Pair, g: nat)
    ensures Cost(p, g) == DraftTime(p, g) + p.target
  {
  }

  lemma FasterMeans(p: Pair, g: nat)
    requires p.Valid()
    ensures Speedup(p, g) > 1.0 <==> Excess(GeometricSum(p.alpha, g), p.target) > DraftTime(p, g)
  {
    SpeedupBySum(p, g);
    CostSplits(p, g);
    RateAboveOne(Speedup(p, g), GeometricSum(p.alpha, g), p.target, DraftTime(p, g), Cost(p, g));
  }

  lemma GainBound(e: real, n: real, a: real, b: real, t: real, d: real)
    requires e - 1.0 <= n * a && a <= b && n >= 0.0 && t > 0.0 && b * t == d
    ensures Excess(e, t) <= n * d
  {
    Scale(n, a, b);
    Scale(t, e - 1.0, n * b);
    assert t * (n * b) == n * (b * t);
  }

  lemma NeverFaster(p: Pair, g: nat)
    requires p.Valid() && p.alpha <= BreakEven(p)
    ensures Speedup(p, g) <= 1.0
  {
    FasterMeans(p, g);
    SumBounds(p.alpha, g);
    GainBound(GeometricSum(p.alpha, g), g as real, p.alpha, BreakEven(p), p.target, p.draft);
  }

  lemma FasterAtOne(p: Pair)
    requires p.Valid() && p.alpha > BreakEven(p)
    ensures Speedup(p, 1) > 1.0
  {
    FasterMeans(p, 1);
    assert Pow(p.alpha, 1) == p.alpha * Pow(p.alpha, 0);
    assert GeometricSum(p.alpha, 1) == 1.0 + p.alpha;
    SignOfProduct(p.target, p.alpha - BreakEven(p));
    assert BreakEven(p) * p.target == p.draft;
  }

  /** Some lookahead makes decoding faster exactly when acceptance exceeds the reported break-even. */
  lemma BreakEvenExact(p: Pair)
    requires p.Valid()
    ensures (exists g: nat :: g >= 1 && Speedup(p, g) > 1.0) <==> p.alpha > BreakEven(p)
  {
    if p.alpha > BreakEven(p) {
      FasterAtOne(p);
    } else {
      forall g: nat | g >= 1 ensures Speedup(p, g) <= 1.0 {
        NeverFaster(p, g);
      }
    }
  }

  // ---- profiles ----------------------------------------------------------

  datatype Reference = Reference(
    draftModel: string, targetParams: real, draftParams: real, acceptance: real, targetStep: real, draftStep: real)

  function ReferenceFor(targetModel: string, draftModel: string): Reference {
    if targetModel == "meta-llama/Llama-3-70B" then
      Reference("meta-llama/Llama-3-8B", 70.6, 8.03, 0.76, 18.5, 3.2)
    else if targetModel == "google/gemma-2-27b" then
      Reference("google/gemma-2-2b", 27.2, 2.6, 0.74, 11.2, 2.1)
    else if targetModel == "Qwen/Qwen2.5-72B" then
      Reference("Qwen/Qwen2.5-7B", 72.7, 7.6, 0.75, 19.0, 3.4)
    else
      Reference(if draftModel == "" then "generic-draft" else draftModel, 70.0, 7.0, 0.72, 18.0, 3.0)
  }

  function PairFor(targetModel: string, draftModel: string, domain: string): (p: Pair)
    ensures p.Valid() && 0.2 <= p.alpha <= 0.82 && 6.0 * p.draft >= p.target
  {
    var ref := ReferenceFor(targetModel, draftModel);
    var adjustment := if domain == "code" then 0.06 else if domain == "reasoning" then -0.08 else 0.0;
    var rate := ref.acceptance + adjustment;
    var floored := if rate > 0.2 then rate else 0.2;
    Pair(if floored < 0.95 then floored else 0.95, ref.targetStep, ref.draftStep)
  }

  /** The reference pairs; the two clamps never act, so a domain shifts the acceptance by exactly its adjustment. */
  lemma ReferencePairs(target: string, draft: string, domain: string)
    ensures var shift := if domain == "code" then 0.06 else if domain == "reasoning" then -0.08 else 0.0;
            && (target == "meta-llama/Llama-3-70B" ==> PairFor(target, draft, domain) == Pair(0.76 + shift, 18.5, 3.2))
            && (target == "google/gemma-2-27b" ==> PairFor(target, draft, domain) == Pair(0.74 + shift, 11.2, 2.1))
            && (target == "Qwen/Qwen2.5-72B" ==> PairFor(target, draft, domain) == Pair(0.75 + shift, 19.0, 3.4))
            && (target !in {"meta-llama/Llama-3-70B", "google/gemma-2-27b", "Qwen/Qwen2.5-72B"} ==>
                  PairFor(target, draft, domain) == Pair(0.72 + shift, 18.0, 3.0))
  {
  }

  datatype Profile = Profile(
    draftModel: string, gamma: int, acceptanceRate: real, expectedTokens: real,
    theoreticalSpeedup: real, empiricalSpeedup: real, memoryOverheadMb: int, breakEven: real)

  /** `math.pow` on an integer exponent: a caller may ask for any lookahead, even a negative one. */
  function PowInt(a: real, e: int): real
    requires 0.0 < a < 1.0
  {
    PowBounds(a, if e < 0 then -e else e);
    if e < 0 then 1.0 / Pow(a, -e) else Pow(a, e)
  }

  lemma NegativePower(a: real, n: nat)
    requires 0.0 < a < 1.0
    ensures PowInt(a, n) == Pow(a, n) && PowInt(a, 0 - n) * Pow(a, n) == 1.0
  {
    PowBounds(a, n);
  }

  function CostAt(p: Pair, g: int): real { g as real * p.draft + p.target }

  function TokensAt(p: Pair, g: int): real
    requires p.Valid()
  {
    (1.0 - PowInt(p.alpha, g + 1)) / (1.0 - p.alpha)
  }

  /** Cost and tokens at any lookahead, negative ones too, by their value at zero and their steps. */
  lemma StepsAt(p: Pair, g: int)
    requires p.Valid()
    ensures CostAt(p, 0) == p.target && CostAt(p, g + 1) == CostAt(p, g) + p.draft
    ensures TokensAt(p, 0) == 1.0 && TokensAt(p, g) * (1.0 - p.alpha) == 1.0 - PowInt(p.alpha, g + 1)
  {
    TokensAtNat(p, 0);
    ClosedForm(p.alpha, 0);
  }

  function SpeedupAt(p: Pair, g: int): real
    requires p.Valid() && CostAt(p, g) != 0.0
  {
    Rate(TokensAt(p, g), p.target, CostAt(p, g))
  }

  lemma TokensAtNat(p: Pair, g: nat)
    requires p.Valid()
    ensures TokensAt(p, g) == ExpectedTokens(p.alpha, g)
  {
    assert PowInt(p.alpha, g + 1) == Pow(p.alpha, g + 1);
  }

  lemma AtNat(p: Pair, g: nat)
    requires p.Valid()
    ensures CostAt(p, g) > 0.0
    ensures TokensAt(p, g) == GeometricSum(p.alpha, g) && SpeedupAt(p, g) == Speedup(p, g)
  {
    CostPositive(p, g);
    TokensAtNat(p, g);
    ClosedForm(p.alpha, g);
  }

  function MemoryOverheadMb(ref: Reference): int { (ref.draftParams * 2000.0 + 400.0).Floor }

  /**
    `profile`: without a requested lookahead it reports the best of all, not only of 1..10.  An absent draft
    model is the empty string, which Python treats alike here.  The result is None where the division by the
    cost of the requested lookahead fails.
   */
  method ProfilePair(targetModel: string, draftModel: string, lookahead: Option<int>, domain: string)
    returns (r: Option<Profile>, pair: Pair)
    ensures pair == PairFor(targetModel, draftModel, domain)
    ensures r.None? <==> lookahead.Some? && CostAt(pair, lookahead.value) == 0.0
    ensures r.Some? && lookahead.Some? ==> r.value.gamma == lookahead.value
    ensures lookahead.None? ==>
              && 1 <= r.value.gamma <= 5 && IsFirstBest(pair, r.value.gamma, 10)
              && IsGlobalBest(pair, r.value.gamma)
    ensures r.Some? ==>
              && (draftModel != "" ==> r.value.draftModel == draftModel)
              && (draftModel == "" ==> r.value.draftModel == ReferenceFor(targetModel, draftModel).draftModel)
              && r.value.acceptanceRate == Round3(pair.alpha) && r.value.breakEven == Round3(BreakEven(pair))
              && r.value.memoryOverheadMb == MemoryOverheadMb(ReferenceFor(targetModel, draftModel))
    ensures r.Some? && r.value.gamma < 0 ==>
              && r.value.expectedTokens == Round2(TokensAt(pair, r.value.gamma))
              && r.value.theoreticalSpeedup == Round2(SpeedupAt(pair, r.value.gamma))
              && r.value.empiricalSpeedup == Round2(SpeedupAt(pair, r.value.gamma) * 0.92)
    ensures r.Some? && r.value.gamma >= 0 ==>
              && r.value.expectedTokens == Round2(GeometricSum(pair.alpha, r.value.gamma))
              && r.value.theoreticalSpeedup == Round2(Speedup(pair, r.value.gamma))
              && r.value.empiricalSpeedup == Swept(pair, r.value.gamma)
  {
    var ref := ReferenceFor(targetModel, draftModel);
    var draft := if draftModel == "" then ref.draftModel else draftModel;
    pair := PairFor(targetModel, draftModel, domain);
    var optimalGamma, maxSpeedup := ScanGamma(pair);
    ScanSuffices(pair, optimalGamma);
    var gamma := if lookahead.Some? then lookahead.value else optimalGamma;
    if gamma >= 0 {
      AtNat(pair, gamma);
    }
    if CostAt(pair, gamma) == 0.0 {
      r := None;
    } else {
      var theoretical := SpeedupAt(pair, gamma);
      r := Some(Profile(draft, gamma, Round3(pair.alpha), Round2(TokensAt(pair, gamma)), Round2(theoretical),
                        Round2(theoretical * 0.92), MemoryOverheadMb(ref),
                        Round3(BreakEven(pair))));
    }
  }

  function Swept(p: Pair, g: nat): real
    requires p.Valid()
  {
    Round2(Speedup(p, g) * 0.92)
  }

  /** A reported speedup is 0.92 times the theoretical one, to the nearest hundredth. */
  lemma SweptNearest(p: Pair, g: nat)
    requires p.Valid()
    ensures -0.005 <= Swept(p, g) - 0.92 * Speedup(p, g) <= 0.005
  {
  }

  /** The figures that do not depend on the lookahead, for the three reference pairs and for any other target. */
  lemma ReferenceFigures(draft: string, domain: string)
    ensures var ref := ReferenceFor("meta-llama/Llama-3-70B", draft);
            MemoryOverheadMb(ref) == 16460 && ref.draftModel == "meta-llama/Llama-3-8B"
    ensures var ref := ReferenceFor("google/gemma-2-27b", draft);
            MemoryOverheadMb(ref) == 5600 && ref.draftModel == "google/gemma-2-2b"
    ensures var ref := ReferenceFor("Qwen/Qwen2.5-72B", draft);
            MemoryOverheadMb(ref) == 15600 && ref.draftModel == "Qwen/Qwen2.5-7B"
    ensures var ref := ReferenceFor("other", draft);
            MemoryOverheadMb(ref) == 14400 && ref.draftModel == (if draft == "" then "generic-draft" else draft)
    ensures Round3(BreakEven(PairFor("meta-llama/Llama-3-70B", draft, domain))) == 0.173
    ensures Round3(BreakEven(PairFor("google/gemma-2-27b", draft, domain))) == 0.188
    ensures Round3(BreakEven(PairFor("Qwen/Qwen2.5-72B", draft, domain))) == 0.179
    ensures Round3(BreakEven(PairFor("other", draft, domain))) == 0.167
  {
  }

  datatype SweepPoint = SweepPoint(gamma: nat, speedup: real, expectedTokens: real)

  /** `sweep`: the reported speedups for lookaheads 1..10, which rise and then never rise again. */
  method Sweep(targetModel: string) returns (results: seq<SweepPoint>)
    ensures |results| == 10
    ensures forall i :: 0 <= i < 10 ==>
              && results[i].gamma == i + 1
              && results[i].speedup == Swept(PairFor(targetModel, "", "general"), i + 1)
              && results[i].expectedTokens == Round2(GeometricSum(PairFor(targetModel, "", "general").alpha, i + 1))
  {
    results := [];
    for g := 1 to 11
      invariant |results| == g - 1
      invariant forall i :: 0 <= i < g - 1 ==>
                  && results[i].gamma == i + 1
                  && results[i].speedup == Swept(PairFor(targetModel, "", "general"), i + 1)
                  && results[i].expectedTokens == Round2(GeometricSum(PairFor(targetModel, "", "general").alpha, i + 1))
    {
      CostPositive(PairFor(targetModel, "", "general"), g);
      var r, _ := ProfilePair(targetModel, "", Some(g), "general");
      results := results + [SweepPoint(g, r.value.empiricalSpeedup, r.value.expectedTokens)];
    }
  }

  /** Rounding keeps the shape: a reported speedup followed by a lower one is never exceeded later. */
  lemma SweepUnimodal(p: Pair, g: nat, h: nat)
    requires p.Valid() && g < h && Swept(p, g + 1) < Swept(p, g)
    ensures Swept(p, h) <= Swept(p, g + 1)
  {
    var x, y := Speedup(p, g) * 0.92, Speedup(p, g + 1) * 0.92;
    if x <= y {
      RoundMonotone(x * 100.0, y * 100.0);
    }
    assert Speedup(p, g + 1) < Speedup(p, g);
    if g + 1 < h {
      Unimodal(p, g, g + 1);
      FallsAfter(p, g + 1, h);
      RoundMonotone(Speedup(p, h) * 0.92 * 100.0, y * 100.0);
    }
  }
}
