/** The learned latency store: per-model, per-lane counters, the best lane, and the file they survive in. */
module LaneMetrics {
  import opened Options
  import opened Rounding
  import opened Storage

  datatype Metric = Metric(requests: nat, errors: nat, totalMs: real, lastMs: real, lastError: string) {
    function AvgMs(): real {
      if requests == 0 then 0.0 else Round1(totalMs / requests as real)
    }

    function ErrorRate(): real {
      if requests == 0 then 0.0 else Round3(errors as real / requests as real)
    }

    function Score(): real { AvgMs() + ErrorRate() * 5000.0 }

    /** One recorded request; only a non-empty error text counts as an error. */
    function Add(ms: real, error: string): Metric {
      Metric(requests + 1, if error != "" then errors + 1 else errors, totalMs + ms, Round1(ms), error)
    }
  }

  const EMPTY_METRIC := Metric(0, 0, 0.0, 0.0, "")

  datatype Cell = Cell(lane: string, metric: Metric)

  // A Python dict keeps insertion order; the lanes of a model are therefore a list.
  type Data = map<string, seq<Cell>>

  function CellsFor(data: Data, model: string): seq<Cell> { if model in data then data[model] else [] }

  function FindCell(cells: seq<Cell>, lane: string, i: nat := 0): (k: nat)
    requires i <= |cells|
    ensures i <= k <= |cells| && (forall j :: i <= j < k ==> cells[j].lane != lane)
    ensures k < |cells| ==> cells[k].lane == lane
    decreases |cells| - i
  {
    if i == |cells| || cells[i].lane == lane then i else FindCell(cells, lane, i + 1)
  }

  function AddToCells(cells: seq<Cell>, lane: string, ms: real, error: string): seq<Cell> {
    var k := FindCell(cells, lane);
    if k == |cells| then cells + [Cell(lane, EMPTY_METRIC.Add(ms, error))]
    else cells[k := Cell(lane, cells[k].metric.Add(ms, error))]
  }

  // ---- the full history --------------------------------------------------

  datatype Event = Event(model: string, lane: string, ms: real, error: string)

  predicate Concerns(e: Event, model: string, lane: string) { e.model == model && e.lane == lane }

  function Count(log: seq<Event>, model: string, lane: string): nat {
    if log == [] then 0
    else Count(log[..|log| - 1], model, lane) + if Concerns(log[|log| - 1], model, lane) then 1 else 0
  }

  function CountErrors(log: seq<Event>, model: string, lane: string): nat {
    if log == [] then 0
    else
      var e := log[|log| - 1];
      CountErrors(log[..|log| - 1], model, lane) + if Concerns(e, model, lane) && e.error != "" then 1 else 0
  }

  function SumMs(log: seq<Event>, model: string, lane: string): real {
    if log == [] then 0.0
    else
      var e := log[|log| - 1];
      SumMs(log[..|log| - 1], model, lane) + if Concerns(e, model, lane) then e.ms else 0.0
  }

  function LastOf(log: seq<Event>, model: string, lane: string): Option<Event> {
    if log == [] then None
    else if Concerns(log[|log| - 1], model, lane) then Some(log[|log| - 1])
    else LastOf(log[..|log| - 1], model, lane)
  }

  /** What the log says about one lane under one model. */
  function MetricOf(log: seq<Event>, model: string, lane: string): Metric {
    match LastOf(log, model, lane)
    case None => EMPTY_METRIC
    case Some(e) =>
      Metric(Count(log, model, lane), CountErrors(log, model, lane), SumMs(log, model, lane), Round1(e.ms), e.error)
  }

  /** The lanes a model was recorded on, in order of first appearance. */
  function LanesSeen(log: seq<Event>, model: string): (r: seq<string>)
    ensures forall i, j :: 0 <= i < j < |r| ==> r[i] != r[j]
    ensures forall l :: l in r <==> LastOf(log, model, l).Some?
  {
    if log == [] then []
    else
      var before, e := LanesSeen(log[..|log| - 1], model), log[|log| - 1];
      if e.model == model && e.lane !in before then before + [e.lane] else before
  }

  function CellsOf(log: seq<Event>, model: string): (cells: seq<Cell>)
    ensures |cells| == |LanesSeen(log, model)|
    ensures forall i :: 0 <= i < |cells| ==>
              && cells[i].lane == LanesSeen(log, model)[i]
              && cells[i].metric == MetricOf(log, model, cells[i].lane)
  {
    var lanes := LanesSeen(log, model);
    seq(|lanes|, i requires 0 <= i < |lanes| => Cell(lanes[i], MetricOf(log, model, lanes[i])))
  }

  /** The store holds exactly what its log of recorded requests says. */
  ghost predicate Tells(data: Data, log: seq<Event>) {
    forall model :: CellsFor(data, model) == CellsOf(log, model)
  }

  lemma {:induction false} CountsOfUnseen(log: seq<Event>, model: string, lane: string)
    requires LastOf(log, model, lane).None?
    ensures Count(log, model, lane) == 0 == CountErrors(log, model, lane) && SumMs(log, model, lane) == 0.0
  {
    if log != [] {
      CountsOfUnseen(log[..|log| - 1], model, lane);
    }
  }

  lemma MetricStep(log: seq<Event>, e: Event, model: string, lane: string)
    ensures MetricOf(log + [e], model, lane) ==
            if Concerns(e, model, lane) then MetricOf(log, model, lane).Add(e.ms, e.error)
            else MetricOf(log, model, lane)
  {
    assert (log + [e])[..|log|] == log;
    if LastOf(log, model, lane).None? {
      CountsOfUnseen(log, model, lane);
    }
  }

  lemma LanesStep(log: seq<Event>, e: Event, model: string)
    ensures LanesSeen(log + [e], model) ==
            LanesSeen(log, model) + if e.model == model && e.lane !in LanesSeen(log, model) then [e.lane] else []
  {
  }

  lemma RecordTells(log: seq<Event>, e: Event, model: string)
    ensures CellsOf(log + [e], model) ==
            if e.model == model then AddToCells(CellsOf(log, model), e.lane, e.ms, e.error)
            else CellsOf(log, model)
  {
    LanesStep(log, e, model);
    var lanes, after := LanesSeen(log, model), LanesSeen(log + [e], model);
    forall i | 0 <= i < |after|
      ensures MetricOf(log + [e], model, after[i]) ==
              if Concerns(e, model, after[i]) then MetricOf(log, model, after[i]).Add(e.ms, e.error)
              else MetricOf(log, model, after[i])
    {
      MetricStep(log, e, model, after[i]);
    }
    if e.model == model {
      var k := FindCell(CellsOf(log, model), e.lane);
      if k < |lanes| {
        assert lanes[k] == e.lane;
      } else {
        assert e.lane !in lanes;
      }
    }
  }

  function Recorded(data: Data, e: Event): Data {
    data[e.model := AddToCells(CellsFor(data, e.model), e.lane, e.ms, e.error)]
  }

  /** Recording a request keeps the store in step with the log. */
  lemma RecordedTells(data: Data, log: seq<Event>, e: Event)
    requires Tells(data, log)
    ensures Tells(Recorded(data, e), log + [e])
  {
    forall model ensures CellsFor(Recorded(data, e), model) == CellsOf(log + [e], model) {
      RecordTells(log, e, model);
      assert CellsFor(data, model) == CellsOf(log, model);
    }
  }

  // ---- the store ---------------------------------------------------------

  /** A restart from the file would tell the log up to the last successful write. */
  ghost predicate Resumes(file: Option<Saved>, savedLog: seq<Event>, log: seq<Event>) {
    savedLog <= log && (file.Some? ==> Tells(Load(file.value), savedLog))
  }

  class MetricsStore {
    var data: Data
    var file: Option<Saved>  // None: missing or unreadable
    ghost var log: seq<Event>
    ghost var savedLog: seq<Event>  // the log when the file was written

    /** The store tells its log, and the file an earlier state of it. */
    ghost predicate Valid()
      reads this
    {
      Tells(data, log) && Resumes(file, savedLog, log)
    }

    /** A store without a readable file starts empty; otherwise it resumes from the file. */
    constructor (file: Option<Saved>, ghost history: seq<Event>)
      ensures data == (if file.Some? then Load(file.value) else map[]) && this.file == file
      ensures log == savedLog == history && (Tells(data, history) ==> Valid())
    {
      this.data := if file.Some? then Load(file.value) else map[];
      this.file := file;
      this.log := history;
      this.savedLog := history;
    }

    method Record(model: string, lane: string, ms: real, error: string, w: WriteResult)
      requires Valid()
      modifies this
      ensures Valid() && log == old(log) + [Event(model, lane, ms, error)]
      ensures data == Recorded(old(data), Event(model, lane, ms, error))
      ensures file == if w.Written? then Some(Save(data)) else if w.truncated then None else old(file)
      ensures savedLog == if w.Written? then log else old(savedLog)
    {
      ghost var e := Event(model, lane, ms, error);
      RecordedTells(data, log, e);
      var cells := CellsFor(data, model);
      data := data[model := AddToCells(cells, lane, ms, error)];
      log := log + [e];
      Store(w);
    }

    /** `_save`, whose failures go unnoticed. */
    method Store(w: WriteResult)
      requires Tells(data, log) && Resumes(file, savedLog, log)
      modifies `file, `savedLog
      ensures Resumes(file, savedLog, log)
      ensures file == if w.Written? then Some(Save(data)) else if w.truncated then None else old(file)
      ensures savedLog == if w.Written? then log else old(savedLog)
    {
      match w {
        case Written =>
          SaveLoad(data, log);
          file := Some(Save(data));
          savedLog := log;
        case Failed(truncated) =>
          if truncated {
            file := None;
          }
      }
    }
  }

  // ---- the best lane -----------------------------------------------------

  predicate Qualifies(c: Cell) { c.metric.requests >= 3 }

  /** Index of the head of the stable sort by score among the cells with three samples. */
  function BestCell(cells: seq<Cell>, i: nat := 0): (r: Option<nat>)
    requires i <= |cells|
    ensures r.None? <==> forall j :: i <= j < |cells| ==> !Qualifies(cells[j])
    ensures r.Some? ==> i <= r.value < |cells| && Qualifies(cells[r.value])
    ensures r.Some? ==> forall j :: i <= j < |cells| && Qualifies(cells[j]) ==>
                          && cells[r.value].metric.Score() <= cells[j].metric.Score()
                          && (j < r.value ==> cells[r.value].metric.Score() < cells[j].metric.Score())
    decreases |cells| - i
  {
    if i == |cells| then None
    else
      var later := BestCell(cells, i + 1);
      if Qualifies(cells[i]) && (later.None? || cells[i].metric.Score() <= cells[later.value].metric.Score())
      then Some(i) else later
  }

  function BestLane(cells: seq<Cell>): Option<string> {
    match BestCell(cells)
    case None => None
    case Some(k) => Some(cells[k].lane)
  }

  datatype Score = Finite(x: real) | Infinite {
    predicate Less(that: Score) { Finite? && (that.Infinite? || x < that.x) }
  }

  function BestLaneScore(cells: seq<Cell>, lane: string): Score {
    var k := FindCell(cells, lane);
    if k == |cells| || cells[k].metric.requests == 0 then Infinite else Finite(cells[k].metric.Score())
  }

  predicate Sampled(log: seq<Event>, model: string, lane: string) { Count(log, model, lane) >= 3 }

  /** The k-th lane seen has three samples and the least score among such lanes, the first of them on a tie. */
  predicate IsFirstBestLane(log: seq<Event>, model: string, k: nat) {
    var lanes := LanesSeen(log, model);
    k < |lanes| && Sampled(log, model, lanes[k]) &&
    forall j :: 0 <= j < |lanes| && Sampled(log, model, lanes[j]) ==>
      var mine, other := MetricOf(log, model, lanes[k]).Score(), MetricOf(log, model, lanes[j]).Score();
      mine <= other && (j < k ==> mine < other)
  }

  /** In terms of the log: the best lane is exactly the first minimiser of the score over such lanes. */
  lemma BestLaneOfLog(data: Data, log: seq<Event>, model: string, k: nat)
    requires Tells(data, log) && k < |LanesSeen(log, model)|
    ensures BestLane(CellsFor(data, model)) == Some(LanesSeen(log, model)[k]) <==> IsFirstBestLane(log, model, k)
  {
    var cells := CellsOf(log, model);
    assert CellsFor(data, model) == cells;
    forall j | 0 <= j < |cells| ensures cells[j].metric.requests == Count(log, model, cells[j].lane) {
      assert cells[j].lane in LanesSeen(log, model);
    }
    var best := BestCell(cells);
    if best.Some? && best.value != k {
      assert cells[best.value].lane != cells[k].lane;
    }
  }

  /** A lane whose every request ended in error. */
  predicate AlwaysFails(log: seq<Event>, model: string, lane: string) {
    Sampled(log, model, lane) && CountErrors(log, model, lane) == Count(log, model, lane)
  }

  lemma AlwaysFailingScore(log: seq<Event>, model: string, lane: string)
    requires AlwaysFails(log, model, lane)
    ensures MetricOf(log, model, lane).Score() == MetricOf(log, model, lane).AvgMs() + 5000.0
  {
    if LastOf(log, model, lane).None? {
      CountsOfUnseen(log, model, lane);
    }
    var m := MetricOf(log, model, lane);
    assert m.errors as real / m.requests as real == 1.0;
  }

  /**
    There is no acceptable error rate: a lane that always fails only scores 5000 above its average latency,
    and is the best lane exactly when that is the first least score.
   */
  lemma AlwaysFailingWinsExactly(data: Data, log: seq<Event>, model: string, k: nat)
    requires Tells(data, log) && k < |LanesSeen(log, model)| && AlwaysFails(log, model, LanesSeen(log, model)[k])
    ensures
      var lanes := LanesSeen(log, model);
      BestLane(CellsFor(data, model)) == Some(lanes[k]) <==>
      forall j :: 0 <= j < |lanes| && Sampled(log, model, lanes[j]) && j != k ==>
        var mine := MetricOf(log, model, lanes[k]).AvgMs() + 5000.0;
        var other := MetricOf(log, model, lanes[j]).Score();
        mine <= other && (j < k ==> mine < other)
  {
    AlwaysFailingScore(log, model, LanesSeen(log, model)[k]);
    BestLaneOfLog(data, log, model, k);
  }

  /** The only lane tried is best even if all of its three requests failed. */
  lemma AlwaysFailingMayWin()
    ensures
      var e := Event("llama", "p40", 100.0, "HTTP 500");
      var data := Recorded(Recorded(Recorded(map[], e), e), e);
      data["llama"] == [Cell("p40", Metric(3, 3, 300.0, 100.0, "HTTP 500"))] && BestLane(data["llama"]) == Some("p40")
  {
  }

  /** There is a best lane exactly when some lane has three samples in the log. */
  lemma BestLaneExists(data: Data, log: seq<Event>, model: string)
    requires Tells(data, log)
    ensures BestLane(CellsFor(data, model)).Some? <==> exists lane :: Count(log, model, lane) >= 3
  {
    var cells := CellsOf(log, model);
    assert CellsFor(data, model) == cells;
    forall j | 0 <= j < |cells| ensures cells[j].metric.requests == Count(log, model, cells[j].lane) {
      assert cells[j].lane in LanesSeen(log, model);
    }
    if lane :| Count(log, model, lane) >= 3 {
      if LastOf(log, model, lane).None? {
        CountsOfUnseen(log, model, lane);
      }
      assert lane in LanesSeen(log, model);
      var j :| 0 <= j < |cells| && LanesSeen(log, model)[j] == lane;
      assert Qualifies(cells[j]);
    }
  }

  /** The three sums over a log add up over its parts, and a single event counts once, with its time and error. */
  lemma {:induction false} LogAdds(a: seq<Event>, b: seq<Event>, model: string, lane: string)
    ensures Count(a + b, model, lane) == Count(a, model, lane) + Count(b, model, lane)
    ensures CountErrors(a + b, model, lane) == CountErrors(a, model, lane) + CountErrors(b, model, lane)
    ensures SumMs(a + b, model, lane) == SumMs(a, model, lane) + SumMs(b, model, lane)
  {
    if b == [] {
      assert a + b == a;
    } else {
      assert (a + b)[..|a + b| - 1] == a + b[..|b| - 1];
      LogAdds(a, b[..|b| - 1], model, lane);
    }
  }

  lemma OneEvent(e: Event, model: string, lane: string)
    ensures e.model != model || e.lane != lane ==>
              Count([e], model, lane) == CountErrors([e], model, lane) == 0 && SumMs([e], model, lane) == 0.0
    ensures e.model == model && e.lane == lane ==>
              && Count([e], model, lane) == 1 && SumMs([e], model, lane) == e.ms
              && CountErrors([e], model, lane) == if e.error == "" then 0 else 1
  {
    assert [e][..0] == [];
  }

  lemma RoundedSum(avg: real, rate: real, x: real, y: real)
    requires x - 0.05 <= avg <= x + 0.05 && y - 0.0005 <= rate <= y + 0.0005
    ensures x + 5000.0 * y - 2.55 <= avg + rate * 5000.0 <= x + 5000.0 * y + 2.55
  {
  }

  /** The score is the mean latency plus 5000 times the share of errors in the log, but for two roundings. */
  lemma ScoreFromLog(log: seq<Event>, model: string, lane: string)
    requires Count(log, model, lane) > 0
    ensures
      var n := Count(log, model, lane) as real;
      var exact := SumMs(log, model, lane) / n + 5000.0 * (CountErrors(log, model, lane) as real / n);
      exact - 2.55 <= MetricOf(log, model, lane).Score() <= exact + 2.55
  {
    if LastOf(log, model, lane).None? {
      CountsOfUnseen(log, model, lane);
    }
    var m := MetricOf(log, model, lane);
    RoundedSum(m.AvgMs(), m.ErrorRate(), m.totalMs / m.requests as real, m.errors as real / m.requests as real);
  }

  /** The last event of a lane leaves its latency, to the tenth, and its error text. */
  lemma LastEventKept(log: seq<Event>, e: Event)
    ensures var m := MetricOf(log + [e], e.model, e.lane);
            m.lastError == e.error && e.ms - 0.05 <= m.lastMs <= e.ms + 0.05
  {
    assert (log + [e])[..|log|] == log;
  }

  /** In terms of the log: an unseen lane scores infinity, any other its metric's score. */
  lemma BestLaneScoreOfLog(data: Data, log: seq<Event>, model: string, lane: string)
    requires Tells(data, log)
    ensures BestLaneScore(CellsFor(data, model), lane) ==
            if Count(log, model, lane) == 0 then Infinite else Finite(MetricOf(log, model, lane).Score())
  {
    var cells := CellsOf(log, model);
    assert CellsFor(data, model) == cells;
    var k := FindCell(cells, lane);
    if k < |cells| {
      assert cells[k].lane in LanesSeen(log, model);
    } else {
      assert lane !in LanesSeen(log, model);
      CountsOfUnseen(log, model, lane);
    }
  }

  // ---- saving and loading ------------------------------------------------

  /** A metric as a JSON object: any key may be missing, and there may be others. */
  datatype SavedMetric = SavedMetric(
    requests: Option<nat>, errors: Option<nat>, totalMs: Option<real>, lastMs: Option<real>,
    lastError: Option<string>, otherKeys: bool)

  datatype SavedCell = SavedCell(lane: string, metric: SavedMetric)

  type Saved = map<string, seq<SavedCell>>

  function SaveMetric(m: Metric): SavedMetric {
    SavedMetric(Some(m.requests), Some(m.errors), Some(m.totalMs), Some(m.lastMs), Some(m.lastError), false)
  }

  function SaveCells(cells: seq<Cell>): (r: seq<SavedCell>)
    ensures |r| == |cells|
  {
    if cells == [] then []
    else [SavedCell(cells[0].lane, SaveMetric(cells[0].metric))] + SaveCells(cells[1..])
  }

  function Save(data: Data): Saved { map model | model in data :: SaveCells(data[model]) }

  function OrElse<T>(o: Option<T>, default: T): T { if o.Some? then o.value else default }

  /** `LaneMetric(**fields)`: absent fields take their defaults, an unknown one is an error. */
  function LoadMetric(f: SavedMetric): Option<Metric> {
    if f.otherKeys then None
    else Some(Metric(OrElse(f.requests, 0), OrElse(f.errors, 0), OrElse(f.totalMs, 0.0),
                     OrElse(f.lastMs, 0.0), OrElse(f.lastError, "")))
  }

  function LoadCells(cells: seq<SavedCell>): Option<seq<Cell>> {
    if cells == [] then Some([])
    else
      match (LoadMetric(cells[0].metric), LoadCells(cells[1..]))
      case (Some(m), Some(tail)) => Some([Cell(cells[0].lane, m)] + tail)
      case _ => None
  }

  /** A file with any unreadable cell is treated as empty. */
  function Load(saved: Saved): Data {
    if forall model :: model in saved ==> LoadCells(saved[model]).Some?
    then map model | model in saved :: LoadCells(saved[model]).value
    else map[]
  }

  /** An object without unknown keys is read, what it lacks as zero or empty; any other is not. */
  lemma MissingFieldsDefault(f: SavedMetric)
    ensures LoadMetric(f).Some? <==> !f.otherKeys
    ensures LoadMetric(SavedMetric(None, None, None, None, None, false)) == Some(Metric(0, 0, 0.0, 0.0, ""))
    ensures LoadMetric(f).Some? ==>
              var m := LoadMetric(f).value;
              && (f.requests.Some? ==> m.requests == f.requests.value)
              && (f.errors.Some? ==> m.errors == f.errors.value)
              && (f.totalMs.Some? ==> m.totalMs == f.totalMs.value)
              && (f.lastMs.Some? ==> m.lastMs == f.lastMs.value)
              && (f.lastError.Some? ==> m.lastError == f.lastError.value)
  {
  }

  lemma {:induction false} LoadCellsMeans(cells: seq<SavedCell>)
    ensures LoadCells(cells).Some? <==> forall c :: c in cells ==> !c.metric.otherKeys
    ensures LoadCells(cells).Some? ==>
              && |LoadCells(cells).value| == |cells|
              && forall i :: 0 <= i < |cells| ==>
                   && LoadCells(cells).value[i].lane == cells[i].lane
                   && Some(LoadCells(cells).value[i].metric) == LoadMetric(cells[i].metric)
  {
    if cells != [] {
      LoadCellsMeans(cells[1..]);
      MissingFieldsDefault(cells[0].metric);
    }
  }

  /** One unreadable cell anywhere empties the store. */
  lemma LoadAllOrNothing(saved: Saved)
    ensures (exists model :: model in saved && exists c :: c in saved[model] && c.metric.otherKeys) ==>
              Load(saved) == map[]
    ensures (forall model :: model in saved ==> forall c :: c in saved[model] ==> !c.metric.otherKeys) ==>
              Load(saved).Keys == saved.Keys
  {
    forall model | model in saved
      ensures LoadCells(saved[model]).Some? <==> forall c :: c in saved[model] ==> !c.metric.otherKeys
    {
      LoadCellsMeans(saved[model]);
    }
  }

  lemma FirstCellSurvives(c: Cell, saved: seq<SavedCell>, cells: seq<Cell>)
    requires LoadCells(saved) == Some(cells)
    ensures LoadCells([SavedCell(c.lane, SaveMetric(c.metric))] + saved) == Some([c] + cells)
  {
    var all := [SavedCell(c.lane, SaveMetric(c.metric))] + saved;
    assert all[1..] == saved;
  }

  lemma {:induction false} CellsSurvive(cells: seq<Cell>)
    ensures LoadCells(SaveCells(cells)) == Some(cells)
  {
    if cells != [] {
      CellsSurvive(cells[1..]);
      FirstCellSurvives(cells[0], SaveCells(cells[1..]), cells[1..]);
      assert cells == [cells[0]] + cells[1..];
    }
  }

  /** A restart loses nothing: loading what was saved restores the store, so it still tells its log. */
  lemma SaveLoad(data: Data, log: seq<Event>)
    requires Tells(data, log)
    ensures Load(Save(data)) == data && Tells(Load(Save(data)), log)
  {
    forall model | model in data ensures LoadCells(Save(data)[model]) == Some(data[model]) {
      CellsSurvive(data[model]);
    }
  }
}
