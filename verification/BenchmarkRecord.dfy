/**
  Benchmark records, the two hashes stored in them, and what a record that passes the integrity check
  is known to share with the record its hashes were computed from.  SHA-256 is any function on bytes.
 */
module BenchmarkRecord {
  import opened Options
  import opened Utf16
  import opened CanonicalJson
  import opened NumberText

  type Hash = Text
  type HashFunction = seq<Byte> -> Hash

  // Fields the hashes leave out are kept where a reader could expect them to be covered.
  datatype Hardware = Hardware(
    vendor: Text, device: Text, count: Number, vramBytesPerDevice: Number, totalVramBytes: Number,
    interconnect: Text)

  datatype Software = Software(
    os: Text, driver: Option<Text>, cuda: Option<Text>, rocm: Option<Text>, python: Text)

  datatype Runtime = Runtime(name: Text, version: Text, engineArgs: Json)

  datatype Model = Model(
    provider: Text, repository: Text, revision: Text, architecture: Text, parametersBillions: Number)

  datatype Precision = Precision(kind: Text, quantization: Option<Text>)

  datatype Workload = Workload(
    promptTokens: Number, generatedTokens: Number, contextLength: Number, batchSize: Number,
    concurrency: Number)

  datatype Metrics = Metrics(
    ttftP50: Number, tpotP50: Number, tokensPerSecond: Number, requestsPerSecond: Number,
    peakVramBytes: Number)

  datatype Record = Record(
    synthetic: bool, model: Model, runtime: Runtime, precision: Precision, hardware: Hardware,
    software: Software, workload: Workload, metrics: Metrics,
    environmentHash: Hash, resultHash: Hash, verified: bool)
  {
    predicate Valid() {
      && hardware.count.Valid() && hardware.vramBytesPerDevice.Valid()
      && workload.promptTokens.Valid() && workload.generatedTokens.Valid()
      && workload.contextLength.Valid() && workload.batchSize.Valid() && workload.concurrency.Valid()
      && metrics.ttftP50.Valid() && metrics.tpotP50.Valid()
      && metrics.tokensPerSecond.Valid() && metrics.peakVramBytes.Valid()
    }
  }

  // ---- object literals ---------------------------------------------------

  function CharUnit(c: char): Unit { if c as int < 0x1_0000 then c as int else 0xFFFD }

  /** A property name of the source, in code units. */
  function Key(s: string): Text { seq(|s|, i requires 0 <= i < |s| => CharUnit(s[i])) }

  /** Names that differ in length, or in one of their first two letters. */
  predicate Separate(s: string, t: string) {
    || |s| != |t|
    || (|s| > 0 && CharUnit(s[0]) != CharUnit(t[0]))
    || (|s| > 1 && CharUnit(s[1]) != CharUnit(t[1]))
  }

  predicate GoodNames(names: seq<string>) {
    forall i, j :: 0 <= i < j < |names| ==> Separate(names[i], names[j])
  }

  /** The property names of one object literal. */
  type Names = ns: seq<string> | GoodNames(ns) witness []

  /** An object literal: its keys in source order, with their values. */
  function Literal(names: Names, vals: seq<Json>): (t: Json)
    requires |names| == |vals|
    ensures t.Obj? && |t.props| == |vals|
    ensures forall i :: 0 <= i < |vals| ==> t.props[i] == Entry(Key(names[i]), vals[i])
  {
    Obj(seq(|names|, i requires 0 <= i < |names| => Entry(Key(names[i]), vals[i])))
  }

  lemma SeparateKeys(s: string, t: string)
    requires Separate(s, t)
    ensures Key(s) != Key(t)
  {
    assert |Key(s)| == |s| && |Key(t)| == |t|;
    if |s| == |t| {
      assert |s| > 0 ==> Key(s)[0] == CharUnit(s[0]) && Key(t)[0] == CharUnit(t[0]);
      assert |s| > 1 ==> Key(s)[1] == CharUnit(s[1]) && Key(t)[1] == CharUnit(t[1]);
    }
  }

  lemma LiteralDistinct(names: Names, vals: seq<Json>)
    requires |names| == |vals|
    ensures DistinctKeys(Literal(names, vals).props)
  {
    var ps := Literal(names, vals).props;
    forall i, j | 0 <= i < j < |ps| ensures ps[i].key != ps[j].key {
      SeparateKeys(names[i], names[j]);
    }
  }

  lemma LiteralValid(names: Names, vals: seq<Json>)
    requires |names| == |vals|
    requires forall i :: 0 <= i < |vals| ==> CanonicalJson.Valid(vals[i])
    ensures CanonicalJson.Valid(Literal(names, vals))
  {
    LiteralDistinct(names, vals);
  }

  /** Two literals with the same keys are alike exactly when their values are, position by position. */
  lemma LiteralAlike(names: Names, us: seq<Json>, vs: seq<Json>)
    requires |names| == |us| == |vs|
    ensures Alike(Literal(names, us), Literal(names, vs)) <==>
            forall i :: 0 <= i < |us| ==> Alike(us[i], vs[i])
  {
    LiteralDistinct(names, us);
    var ps, qs := Literal(names, us).props, Literal(names, vs).props;
    forall i | 0 <= i < |us| ensures HasAlike(ps[i], qs) <==> Alike(us[i], vs[i]) {
      assert qs[i].key == ps[i].key;
      forall j | 0 <= j < |qs| && j != i ensures qs[j].key != ps[i].key {
        assert ps[j].key == qs[j].key;
      }
    }
  }

  // ---- the hashed trees --------------------------------------------------

  function Optional(s: Option<Text>): Json { if s.None? then Absent else Str(s.value) }

  const HARDWARE_KEYS: Names := ["vendor", "device", "count", "vram_bytes_per_device", "interconnect"]

  function HardwareValues(h: Hardware): seq<Json> {
    [Str(h.vendor), Str(h.device), Num(h.count), Num(h.vramBytesPerDevice), Str(h.interconnect)]
  }

  function HardwareTree(h: Hardware): Json { Literal(HARDWARE_KEYS, HardwareValues(h)) }

  const SOFTWARE_KEYS: Names := ["os", "driver_version", "cuda_version", "rocm_version", "python_version"]

  function SoftwareValues(s: Software): seq<Json> {
    [Str(s.os), Optional(s.driver), Optional(s.cuda), Optional(s.rocm), Str(s.python)]
  }

  function SoftwareTree(s: Software): Json { Literal(SOFTWARE_KEYS, SoftwareValues(s)) }

  const RUNTIME_KEYS: Names := ["name", "version"]

  function RuntimeValues(r: Runtime): seq<Json> {
    [Str(r.name), Str(r.version)]
  }

  function RuntimeTree(r: Runtime): Json { Literal(RUNTIME_KEYS, RuntimeValues(r)) }

  const ENVIRONMENT_KEYS: Names := ["hardware", "software", "runtime"]

  function EnvironmentValues(r: Record): seq<Json> {
    [HardwareTree(r.hardware), SoftwareTree(r.software), RuntimeTree(r.runtime)]
  }

  function EnvironmentTree(r: Record): Json { Literal(ENVIRONMENT_KEYS, EnvironmentValues(r)) }

  const MODEL_KEYS: Names := ["provider", "repository", "revision", "architecture"]

  function ModelValues(m: Model): seq<Json> {
    [Str(m.provider), Str(m.repository), Str(m.revision), Str(m.architecture)]
  }

  function ModelTree(m: Model): Json { Literal(MODEL_KEYS, ModelValues(m)) }

  const PRECISION_KEYS: Names := ["type", "quantization_method"]

  function PrecisionValues(p: Precision): seq<Json> {
    [Str(p.kind), Optional(p.quantization)]
  }

  function PrecisionTree(p: Precision): Json { Literal(PRECISION_KEYS, PrecisionValues(p)) }

  const WORKLOAD_KEYS: Names := ["prompt_tokens", "generated_tokens", "context_length", "batch_size", "concurrency"]

  function WorkloadValues(w: Workload): seq<Json> {
    [Num(w.promptTokens), Num(w.generatedTokens), Num(w.contextLength), Num(w.batchSize),
     Num(w.concurrency)]
  }

  function WorkloadTree(w: Workload): Json { Literal(WORKLOAD_KEYS, WorkloadValues(w)) }

  const METRICS_KEYS: Names := ["ttft_p50_ms", "tpot_p50_ms", "tokens_per_second", "peak_vram_bytes"]

  function MetricsValues(m: Metrics): seq<Json> {
    [Num(m.ttftP50), Num(m.tpotP50), Num(m.tokensPerSecond), Num(m.peakVramBytes)]
  }

  function MetricsTree(m: Metrics): Json { Literal(METRICS_KEYS, MetricsValues(m)) }

  const RESULT_KEYS: Names := ["model", "precision", "workload", "metrics"]

  function ResultValues(r: Record): seq<Json> {
    [ModelTree(r.model), PrecisionTree(r.precision), WorkloadTree(r.workload),
     MetricsTree(r.metrics)]
  }

  function ResultTree(r: Record): Json { Literal(RESULT_KEYS, ResultValues(r)) }

  // ---- what stands under which name --------------------------------------

  /** A property name is its letters' code points. */
  lemma KeyMeans(s: string)
    requires forall i :: 0 <= i < |s| ==> s[i] as int < 128
    ensures |Key(s)| == |s| && forall i :: 0 <= i < |s| ==> Key(s)[i] == s[i] as int
  {
  }

  /** An object has n properties, and v under the given name. */
  predicate Has(t: Json, n: nat, name: string, v: Json) {
    t.Obj? && |t.props| == n && Entry(Key(name), v) in t.props
  }

  lemma LiteralHas(names: Names, vals: seq<Json>, i: nat)
    requires i < |names| == |vals|
    ensures Has(Literal(names, vals), |names|, names[i], vals[i])
  {
    assert Literal(names, vals).props[i] == Entry(Key(names[i]), vals[i]);
  }

  lemma HardwareFields(h: Hardware)
    ensures var t := HardwareTree(h);
            && Has(t, 5, "vendor", Str(h.vendor)) && Has(t, 5, "device", Str(h.device))
            && Has(t, 5, "count", Num(h.count)) && Has(t, 5, "vram_bytes_per_device", Num(h.vramBytesPerDevice))
            && Has(t, 5, "interconnect", Str(h.interconnect))
  {
    LiteralHas(HARDWARE_KEYS, HardwareValues(h), 0);
    LiteralHas(HARDWARE_KEYS, HardwareValues(h), 1);
    LiteralHas(HARDWARE_KEYS, HardwareValues(h), 2);
    LiteralHas(HARDWARE_KEYS, HardwareValues(h), 3);
    LiteralHas(HARDWARE_KEYS, HardwareValues(h), 4);
  }

  function OrAbsent(s: Option<Text>): Json { if s.Some? then Str(s.value) else Absent }

  lemma SoftwareFields(s: Software)
    ensures var t := SoftwareTree(s);
            && Has(t, 5, "os", Str(s.os)) && Has(t, 5, "driver_version", OrAbsent(s.driver))
            && Has(t, 5, "cuda_version", OrAbsent(s.cuda)) && Has(t, 5, "rocm_version", OrAbsent(s.rocm))
            && Has(t, 5, "python_version", Str(s.python))
  {
    LiteralHas(SOFTWARE_KEYS, SoftwareValues(s), 0);
    LiteralHas(SOFTWARE_KEYS, SoftwareValues(s), 1);
    LiteralHas(SOFTWARE_KEYS, SoftwareValues(s), 2);
    LiteralHas(SOFTWARE_KEYS, SoftwareValues(s), 3);
    LiteralHas(SOFTWARE_KEYS, SoftwareValues(s), 4);
  }

  lemma EnvironmentFields(r: Record)
    ensures var t, run := EnvironmentTree(r), RuntimeTree(r.runtime);
            && Has(t, 3, "hardware", HardwareTree(r.hardware)) && Has(t, 3, "software", SoftwareTree(r.software))
            && Has(t, 3, "runtime", run)
            && Has(run, 2, "name", Str(r.runtime.name)) && Has(run, 2, "version", Str(r.runtime.version))
  {
    LiteralHas(ENVIRONMENT_KEYS, EnvironmentValues(r), 0);
    LiteralHas(ENVIRONMENT_KEYS, EnvironmentValues(r), 1);
    LiteralHas(ENVIRONMENT_KEYS, EnvironmentValues(r), 2);
    LiteralHas(RUNTIME_KEYS, RuntimeValues(r.runtime), 0);
    LiteralHas(RUNTIME_KEYS, RuntimeValues(r.runtime), 1);
  }

  lemma ModelFields(m: Model, p: Precision)
    ensures var t, u := ModelTree(m), PrecisionTree(p);
            && Has(t, 4, "provider", Str(m.provider)) && Has(t, 4, "repository", Str(m.repository))
            && Has(t, 4, "revision", Str(m.revision)) && Has(t, 4, "architecture", Str(m.architecture))
            && Has(u, 2, "type", Str(p.kind)) && Has(u, 2, "quantization_method", OrAbsent(p.quantization))
  {
    LiteralHas(MODEL_KEYS, ModelValues(m), 0);
    LiteralHas(MODEL_KEYS, ModelValues(m), 1);
    LiteralHas(MODEL_KEYS, ModelValues(m), 2);
    LiteralHas(MODEL_KEYS, ModelValues(m), 3);
    LiteralHas(PRECISION_KEYS, PrecisionValues(p), 0);
    LiteralHas(PRECISION_KEYS, PrecisionValues(p), 1);
  }

  lemma WorkloadFields(w: Workload)
    ensures var t := WorkloadTree(w);
            && Has(t, 5, "prompt_tokens", Num(w.promptTokens)) && Has(t, 5, "generated_tokens", Num(w.generatedTokens))
            && Has(t, 5, "context_length", Num(w.contextLength)) && Has(t, 5, "batch_size", Num(w.batchSize))
            && Has(t, 5, "concurrency", Num(w.concurrency))
  {
    LiteralHas(WORKLOAD_KEYS, WorkloadValues(w), 0);
    LiteralHas(WORKLOAD_KEYS, WorkloadValues(w), 1);
    LiteralHas(WORKLOAD_KEYS, WorkloadValues(w), 2);
    LiteralHas(WORKLOAD_KEYS, WorkloadValues(w), 3);
    LiteralHas(WORKLOAD_KEYS, WorkloadValues(w), 4);
  }

  lemma MetricsFields(m: Metrics)
    ensures var t := MetricsTree(m);
            && Has(t, 4, "ttft_p50_ms", Num(m.ttftP50)) && Has(t, 4, "tpot_p50_ms", Num(m.tpotP50))
            && Has(t, 4, "tokens_per_second", Num(m.tokensPerSecond))
            && Has(t, 4, "peak_vram_bytes", Num(m.peakVramBytes))
  {
    LiteralHas(METRICS_KEYS, MetricsValues(m), 0);
    LiteralHas(METRICS_KEYS, MetricsValues(m), 1);
    LiteralHas(METRICS_KEYS, MetricsValues(m), 2);
    LiteralHas(METRICS_KEYS, MetricsValues(m), 3);
  }

  lemma ResultFields(r: Record)
    ensures var t := ResultTree(r);
            && Has(t, 4, "model", ModelTree(r.model)) && Has(t, 4, "precision", PrecisionTree(r.precision))
            && Has(t, 4, "workload", WorkloadTree(r.workload)) && Has(t, 4, "metrics", MetricsTree(r.metrics))
  {
    LiteralHas(RESULT_KEYS, ResultValues(r), 0);
    LiteralHas(RESULT_KEYS, ResultValues(r), 1);
    LiteralHas(RESULT_KEYS, ResultValues(r), 2);
    LiteralHas(RESULT_KEYS, ResultValues(r), 3);
  }

  // ---- what the trees agree on -------------------------------------------

  /** Numbers the printer cannot tell apart. */
  predicate SameNumber(x: Number, y: Number) {
    x == y || (IsZero(x) && IsZero(y)) || (x.NonFinite? && y.NonFinite?)
  }

  predicate IsLeaf(t: Json) { t.Str? || t.Absent? || (t.Num? && t.num.Valid()) }

  predicate SameLeaf(u: Json, v: Json) {
    if u.Num? && v.Num? then SameNumber(u.num, v.num) else u == v
  }

  lemma OptionalLeaf(a: Option<Text>, b: Option<Text>)
    ensures IsLeaf(Optional(a)) && (SameLeaf(Optional(a), Optional(b)) <==> a == b)
  {
  }

  /** Two lists of leaves, numbers against numbers. */
  predicate Comparable(us: seq<Json>, vs: seq<Json>) {
    |us| == |vs| && forall i :: 0 <= i < |us| ==> IsLeaf(us[i]) && (vs[i].Num? <==> us[i].Num?)
  }

  predicate AllSame(us: seq<Json>, vs: seq<Json>)
    requires |us| == |vs|
  {
    forall i :: 0 <= i < |us| ==> SameLeaf(us[i], vs[i])
  }

  /** Literals of leaves with the same keys: their trees are alike exactly when their leaves are the same. */
  lemma LeafLiteral(names: Names, us: seq<Json>, vs: seq<Json>)
    requires |names| == |us| && Comparable(us, vs)
    ensures CanonicalJson.Valid(Literal(names, us))
    ensures Alike(Literal(names, us), Literal(names, vs)) <==> AllSame(us, vs)
  {
    LiteralValid(names, us);
    LiteralAlike(names, us, vs);
    forall i | 0 <= i < |us| ensures Alike(us[i], vs[i]) <==> SameLeaf(us[i], vs[i]) {
    }
  }

  predicate SameHardware(a: Hardware, b: Hardware) {
    && a.vendor == b.vendor
    && a.device == b.device
    && a.interconnect == b.interconnect
    && SameNumber(a.count, b.count)
    && SameNumber(a.vramBytesPerDevice, b.vramBytesPerDevice)
  }

  predicate SameSoftware(a: Software, b: Software) {
    && a.os == b.os
    && a.driver == b.driver
    && a.cuda == b.cuda
    && a.rocm == b.rocm
    && a.python == b.python
  }

  predicate SameRuntime(a: Runtime, b: Runtime) {
    && a.name == b.name
    && a.version == b.version
  }

  predicate SameModel(a: Model, b: Model) {
    && a.provider == b.provider
    && a.repository == b.repository
    && a.revision == b.revision
    && a.architecture == b.architecture
  }

  predicate SamePrecision(a: Precision, b: Precision) {
    && a.kind == b.kind
    && a.quantization == b.quantization
  }

  predicate SameWorkload(a: Workload, b: Workload) {
    && SameNumber(a.promptTokens, b.promptTokens)
    && SameNumber(a.generatedTokens, b.generatedTokens)
    && SameNumber(a.contextLength, b.contextLength)
    && SameNumber(a.batchSize, b.batchSize)
    && SameNumber(a.concurrency, b.concurrency)
  }

  predicate SameMetrics(a: Metrics, b: Metrics) {
    && SameNumber(a.ttftP50, b.ttftP50)
    && SameNumber(a.tpotP50, b.tpotP50)
    && SameNumber(a.tokensPerSecond, b.tokensPerSecond)
    && SameNumber(a.peakVramBytes, b.peakVramBytes)
  }

  predicate SameEnvironment(r: Record, s: Record) {
    && SameHardware(r.hardware, s.hardware)
    && SameSoftware(r.software, s.software)
    && SameRuntime(r.runtime, s.runtime)
  }

  predicate SameResult(r: Record, s: Record) {
    && SameModel(r.model, s.model)
    && SamePrecision(r.precision, s.precision)
    && SameWorkload(r.workload, s.workload)
    && SameMetrics(r.metrics, s.metrics)
  }

  lemma HardwareLeaves(a: Hardware, b: Hardware)
    requires a.count.Valid() && a.vramBytesPerDevice.Valid()
    ensures Comparable(HardwareValues(a), HardwareValues(b))
    ensures AllSame(HardwareValues(a), HardwareValues(b)) <==> SameHardware(a, b)
  {
    var us, vs := HardwareValues(a), HardwareValues(b);
    assert SameHardware(a, b) <==>
           SameLeaf(us[0], vs[0]) && SameLeaf(us[1], vs[1]) && SameLeaf(us[2], vs[2])
           && SameLeaf(us[3], vs[3]) && SameLeaf(us[4], vs[4]);
  }

  lemma SoftwareLeaves(a: Software, b: Software)
    ensures Comparable(SoftwareValues(a), SoftwareValues(b))
    ensures AllSame(SoftwareValues(a), SoftwareValues(b)) <==> SameSoftware(a, b)
  {
    var us, vs := SoftwareValues(a), SoftwareValues(b);
    OptionalLeaf(a.driver, b.driver);
    OptionalLeaf(a.cuda, b.cuda);
    OptionalLeaf(a.rocm, b.rocm);
    assert SameSoftware(a, b) <==>
           SameLeaf(us[0], vs[0]) && SameLeaf(us[1], vs[1]) && SameLeaf(us[2], vs[2])
           && SameLeaf(us[3], vs[3]) && SameLeaf(us[4], vs[4]);
  }

  lemma RuntimeLeaves(a: Runtime, b: Runtime)
    ensures Comparable(RuntimeValues(a), RuntimeValues(b))
    ensures AllSame(RuntimeValues(a), RuntimeValues(b)) <==> SameRuntime(a, b)
  {
    var us, vs := RuntimeValues(a), RuntimeValues(b);
    assert SameRuntime(a, b) <==> SameLeaf(us[0], vs[0]) && SameLeaf(us[1], vs[1]);
  }

  lemma ModelLeaves(a: Model, b: Model)
    ensures Comparable(ModelValues(a), ModelValues(b))
    ensures AllSame(ModelValues(a), ModelValues(b)) <==> SameModel(a, b)
  {
    var us, vs := ModelValues(a), ModelValues(b);
    assert SameModel(a, b) <==>
           SameLeaf(us[0], vs[0]) && SameLeaf(us[1], vs[1]) && SameLeaf(us[2], vs[2])
           && SameLeaf(us[3], vs[3]);
  }

  lemma PrecisionLeaves(a: Precision, b: Precision)
    ensures Comparable(PrecisionValues(a), PrecisionValues(b))
    ensures AllSame(PrecisionValues(a), PrecisionValues(b)) <==> SamePrecision(a, b)
  {
    var us, vs := PrecisionValues(a), PrecisionValues(b);
    assert SamePrecision(a, b) <==> SameLeaf(us[0], vs[0]) && SameLeaf(us[1], vs[1]);
  }

  lemma WorkloadLeaves(a: Workload, b: Workload)
    requires a.promptTokens.Valid() && a.generatedTokens.Valid() && a.contextLength.Valid()
    requires a.batchSize.Valid() && a.concurrency.Valid()
    ensures Comparable(WorkloadValues(a), WorkloadValues(b))
    ensures AllSame(WorkloadValues(a), WorkloadValues(b)) <==> SameWorkload(a, b)
  {
    var us, vs := WorkloadValues(a), WorkloadValues(b);
    assert SameWorkload(a, b) <==>
           SameLeaf(us[0], vs[0]) && SameLeaf(us[1], vs[1]) && SameLeaf(us[2], vs[2])
           && SameLeaf(us[3], vs[3]) && SameLeaf(us[4], vs[4]);
  }

  lemma MetricsLeaves(a: Metrics, b: Metrics)
    requires a.ttftP50.Valid() && a.tpotP50.Valid() && a.tokensPerSecond.Valid() && a.peakVramBytes.Valid()
    ensures Comparable(MetricsValues(a), MetricsValues(b))
    ensures AllSame(MetricsValues(a), MetricsValues(b)) <==> SameMetrics(a, b)
  {
    var us, vs := MetricsValues(a), MetricsValues(b);
    assert SameMetrics(a, b) <==>
           SameLeaf(us[0], vs[0]) && SameLeaf(us[1], vs[1]) && SameLeaf(us[2], vs[2])
           && SameLeaf(us[3], vs[3]);
  }

  predicate AllValid(us: seq<Json>) { forall i :: 0 <= i < |us| ==> CanonicalJson.Valid(us[i]) }

  predicate AllAlike(us: seq<Json>, vs: seq<Json>)
    requires |us| == |vs|
  {
    forall i :: 0 <= i < |us| ==> Alike(us[i], vs[i])
  }

  lemma EnvironmentPartsValid(r: Record)
    requires r.Valid()
    ensures AllValid(EnvironmentValues(r))
  {
    HardwareLeaves(r.hardware, r.hardware);
    LeafLiteral(HARDWARE_KEYS, HardwareValues(r.hardware), HardwareValues(r.hardware));
    SoftwareLeaves(r.software, r.software);
    LeafLiteral(SOFTWARE_KEYS, SoftwareValues(r.software), SoftwareValues(r.software));
    RuntimeLeaves(r.runtime, r.runtime);
    LeafLiteral(RUNTIME_KEYS, RuntimeValues(r.runtime), RuntimeValues(r.runtime));
  }

  lemma EnvironmentPartsAlike(r: Record, s: Record)
    requires r.Valid()
    ensures AllAlike(EnvironmentValues(r), EnvironmentValues(s)) <==> SameEnvironment(r, s)
  {
    var us, vs := EnvironmentValues(r), EnvironmentValues(s);
    assert Alike(us[0], vs[0]) <==> SameHardware(r.hardware, s.hardware) by {
      HardwareLeaves(r.hardware, s.hardware);
      LeafLiteral(HARDWARE_KEYS, HardwareValues(r.hardware), HardwareValues(s.hardware));
    }
    assert Alike(us[1], vs[1]) <==> SameSoftware(r.software, s.software) by {
      SoftwareLeaves(r.software, s.software);
      LeafLiteral(SOFTWARE_KEYS, SoftwareValues(r.software), SoftwareValues(s.software));
    }
    assert Alike(us[2], vs[2]) <==> SameRuntime(r.runtime, s.runtime) by {
      RuntimeLeaves(r.runtime, s.runtime);
      LeafLiteral(RUNTIME_KEYS, RuntimeValues(r.runtime), RuntimeValues(s.runtime));
    }
  }

  lemma ResultPartsValid(r: Record)
    requires r.Valid()
    ensures AllValid(ResultValues(r))
  {
    ModelLeaves(r.model, r.model);
    LeafLiteral(MODEL_KEYS, ModelValues(r.model), ModelValues(r.model));
    PrecisionLeaves(r.precision, r.precision);
    LeafLiteral(PRECISION_KEYS, PrecisionValues(r.precision), PrecisionValues(r.precision));
    WorkloadLeaves(r.workload, r.workload);
    LeafLiteral(WORKLOAD_KEYS, WorkloadValues(r.workload), WorkloadValues(r.workload));
    MetricsLeaves(r.metrics, r.metrics);
    LeafLiteral(METRICS_KEYS, MetricsValues(r.metrics), MetricsValues(r.metrics));
  }

  lemma FourAlike(us: seq<Json>, vs: seq<Json>)
    requires |us| == |vs| == 4
    ensures AllAlike(us, vs) <==>
            Alike(us[0], vs[0]) && Alike(us[1], vs[1]) && Alike(us[2], vs[2]) && Alike(us[3], vs[3])
  {
  }

  lemma ResultPartsAlike(r: Record, s: Record)
    requires r.Valid()
    ensures AllAlike(ResultValues(r), ResultValues(s)) <==> SameResult(r, s)
  {
    assert Alike(ModelTree(r.model), ModelTree(s.model)) <==> SameModel(r.model, s.model) by {
      ModelLeaves(r.model, s.model);
      LeafLiteral(MODEL_KEYS, ModelValues(r.model), ModelValues(s.model));
    }
    assert Alike(PrecisionTree(r.precision), PrecisionTree(s.precision)) <==>
           SamePrecision(r.precision, s.precision) by {
      PrecisionLeaves(r.precision, s.precision);
      LeafLiteral(PRECISION_KEYS, PrecisionValues(r.precision), PrecisionValues(s.precision));
    }
    assert Alike(WorkloadTree(r.workload), WorkloadTree(s.workload)) <==> SameWorkload(r.workload, s.workload) by {
      WorkloadLeaves(r.workload, s.workload);
      LeafLiteral(WORKLOAD_KEYS, WorkloadValues(r.workload), WorkloadValues(s.workload));
    }
    assert Alike(MetricsTree(r.metrics), MetricsTree(s.metrics)) <==> SameMetrics(r.metrics, s.metrics) by {
      MetricsLeaves(r.metrics, s.metrics);
      LeafLiteral(METRICS_KEYS, MetricsValues(r.metrics), MetricsValues(s.metrics));
    }
    FourAlike(ResultValues(r), ResultValues(s));
  }

  lemma EnvironmentTrees(r: Record, s: Record)
    requires r.Valid()
    ensures CanonicalJson.Valid(EnvironmentTree(r))
    ensures Alike(EnvironmentTree(r), EnvironmentTree(s)) <==> SameEnvironment(r, s)
  {
    var us, vs := EnvironmentValues(r), EnvironmentValues(s);
    EnvironmentPartsValid(r);
    EnvironmentPartsAlike(r, s);
    LiteralValid(ENVIRONMENT_KEYS, us);
    LiteralAlike(ENVIRONMENT_KEYS, us, vs);
  }

  lemma ResultTrees(r: Record, s: Record)
    requires r.Valid()
    ensures CanonicalJson.Valid(ResultTree(r))
    ensures Alike(ResultTree(r), ResultTree(s)) <==> SameResult(r, s)
  {
    var us, vs := ResultValues(r), ResultValues(s);
    ResultPartsValid(r);
    ResultPartsAlike(r, s);
    LiteralValid(RESULT_KEYS, us);
    LiteralAlike(RESULT_KEYS, us, vs);
  }

  // ---- hashing -----------------------------------------------------------

  /** The bytes `computeSha256` hashes: the canonical text in UTF-8, which always exists. */
  function CanonicalBytes(t: Json): seq<Byte>
    requires CanonicalJson.Valid(t)
  {
    PrintWellFormed(t);
    EncodeDefined(ValueText(t));
    Encode(ValueText(t)).value
  }

  /** The bytes are UTF-8 of the canonical text, and from them the value is read back. */
  lemma BytesReadBack(t: Json)
    requires CanonicalJson.Valid(t) && t.Obj?
    ensures CanonicalJson.Print(t).Some? && Decode(CanonicalBytes(t)) == CanonicalJson.Print(t)
    ensures ParseValue(Decode(CanonicalBytes(t)).value) == Ok(Norm(t), []) && Alike(Norm(t), t)
  {
    PrintWellFormed(t);
    EncodeDefined(ValueText(t));
    DecodeEncode(ValueText(t));
    ParsePrint(t, []);
    assert ValueText(t) + [] == ValueText(t);
    NormPrints(t);
    PrintsAlike(Norm(t), t);
  }

  /** Values of the same bytes are alike, and alike values have the same bytes. */
  lemma SameBytes(a: Json, b: Json)
    requires CanonicalJson.Valid(a) && CanonicalJson.Valid(b) && a.Obj? && b.Obj?
    ensures CanonicalBytes(a) == CanonicalBytes(b) <==> Alike(a, b)
  {
    PrintWellFormed(a);
    PrintWellFormed(b);
    EncodeDefined(ValueText(a));
    EncodeDefined(ValueText(b));
    if CanonicalBytes(a) == CanonicalBytes(b) {
      EncodeInjective(ValueText(a), ValueText(b));
    }
    PrintsAlike(a, b);
  }

  function EnvironmentBytes(r: Record): seq<Byte>
    requires r.Valid()
  {
    EnvironmentTrees(r, r);
    CanonicalBytes(EnvironmentTree(r))
  }

  function ResultBytes(r: Record): seq<Byte>
    requires r.Valid()
  {
    ResultTrees(r, r);
    CanonicalBytes(ResultTree(r))
  }

  /** The environment bytes determine exactly the hardware, software and runtime fields named in them. */
  lemma EnvironmentBytesAgree(r: Record, s: Record)
    requires r.Valid() && s.Valid()
    ensures EnvironmentBytes(r) == EnvironmentBytes(s) <==> SameEnvironment(r, s)
  {
    EnvironmentTrees(r, s);
    EnvironmentTrees(s, r);
    SameBytes(EnvironmentTree(r), EnvironmentTree(s));
  }

  lemma ResultBytesAgree(r: Record, s: Record)
    requires r.Valid() && s.Valid()
    ensures ResultBytes(r) == ResultBytes(s) <==> SameResult(r, s)
  {
    ResultTrees(r, s);
    ResultTrees(s, r);
    SameBytes(ResultTree(r), ResultTree(s));
  }

  // ---- the integrity check -----------------------------------------------

  datatype IntegrityError =
    | EnvironmentHashMismatch(got: Hash, expected: Hash)
    | ResultHashMismatch(got: Hash, expected: Hash)
    | SyntheticVerified

  /** `validateBenchmarkIntegrity`: the errors in the order they are found. */
  method ValidateBenchmarkIntegrity(sha: HashFunction, r: Record)
    returns (isValid: bool, errors: seq<IntegrityError>)
    requires r.Valid()
    ensures isValid <==> errors == []
    ensures isValid <==>
              && r.environmentHash == sha(EnvironmentBytes(r))
              && r.resultHash == sha(ResultBytes(r))
              && !(r.synthetic && r.verified)
    ensures EnvironmentHashMismatch(r.environmentHash, sha(EnvironmentBytes(r))) in errors
            <==> r.environmentHash != sha(EnvironmentBytes(r))
    ensures ResultHashMismatch(r.resultHash, sha(ResultBytes(r))) in errors
            <==> r.resultHash != sha(ResultBytes(r))
    ensures SyntheticVerified in errors <==> r.synthetic && r.verified
    ensures forall i, j :: 0 <= i < j < |errors| ==>
              errors[i].EnvironmentHashMismatch? || (errors[i].ResultHashMismatch? && errors[j].SyntheticVerified?)
    ensures |errors| <= 3 && forall i, j :: 0 <= i < j < |errors| ==> errors[i] != errors[j]
  {
    errors := [];
    var expectedEnvironment := sha(EnvironmentBytes(r));
    if r.environmentHash != expectedEnvironment {
      errors := errors + [EnvironmentHashMismatch(r.environmentHash, expectedEnvironment)];
    }
    var expectedResult := sha(ResultBytes(r));
    if r.resultHash != expectedResult {
      errors := errors + [ResultHashMismatch(r.resultHash, expectedResult)];
    }
    if r.synthetic && r.verified {
      errors := errors + [SyntheticVerified];
    }
    isValid := |errors| == 0;
  }

  predicate NoCollision(sha: HashFunction, x: seq<Byte>, y: seq<Byte>) { sha(x) == sha(y) ==> x == y }

  /**
    A record whose hashes validate, and were computed from `original`, agrees with it on every hashed
    field, unless SHA-256 collides on the two texts; and a record that agrees with `original` there
    has the same hashes whatever its other fields say.
   */
  lemma HashesPinHashedFields(sha: HashFunction, r: Record, original: Record)
    requires r.Valid() && original.Valid()
    requires r.environmentHash == sha(EnvironmentBytes(original))
    requires r.resultHash == sha(ResultBytes(original))
    requires NoCollision(sha, EnvironmentBytes(r), EnvironmentBytes(original))
    requires NoCollision(sha, ResultBytes(r), ResultBytes(original))
    ensures r.environmentHash == sha(EnvironmentBytes(r)) <==> SameEnvironment(r, original)
    ensures r.resultHash == sha(ResultBytes(r)) <==> SameResult(r, original)
  {
    EnvironmentBytesAgree(r, original);
    ResultBytesAgree(r, original);
  }
}
