/**
  The prefix-affinity dispatcher: a request goes to the backend that is warm for its prompt prefix, else
  to the least loaded one, and a drained backend hands its requests over.  A prefix is its hash.
 */
module SmartRouter {
  import opened Options

  datatype Status = Active | Draining

  /** What a backend record holds at one moment. */
  datatype Snapshot = Snapshot(id: string, model: string, status: Status, load: nat, warm: set<string>)

  type Pool = seq<Snapshot>

  predicate Serves(b: Snapshot, model: string) { b.status == Active && b.model == model }

  predicate IsHit(b: Snapshot, prefix: string, model: string) { Serves(b, model) && prefix in b.warm }

  // ---- choosing a backend ------------------------------------------------

  function FirstHit(v: Pool, prefix: string, model: string, i: nat := 0): (r: Option<nat>)
    requires i <= |v|
    ensures r.None? ==> forall j :: i <= j < |v| ==> !IsHit(v[j], prefix, model)
    ensures r.Some? ==> i <= r.value < |v| && IsHit(v[r.value], prefix, model)
    ensures r.Some? ==> forall j :: i <= j < r.value ==> !IsHit(v[j], prefix, model)
    decreases |v| - i
  {
    if i == |v| then None
    else if IsHit(v[i], prefix, model) then Some(i)
    else FirstHit(v, prefix, model, i + 1)
  }

  predicate IsLeastLoaded(v: Pool, model: string, k: nat, i: nat) {
    && i <= k < |v| && Serves(v[k], model)
    && (forall j :: i <= j < |v| && Serves(v[j], model) ==> v[k].load <= v[j].load)
    && forall j :: i <= j < k && Serves(v[j], model) ==> v[k].load < v[j].load
  }

  /** The head of the stable sort by load: the first backend of least load. */
  function LeastLoaded(v: Pool, model: string, i: nat := 0): (r: Option<nat>)
    requires i <= |v|
    ensures r.None? ==> forall j :: i <= j < |v| ==> !Serves(v[j], model)
    ensures r.Some? ==> IsLeastLoaded(v, model, r.value, i)
    decreases |v| - i
  {
    if i == |v| then None
    else
      var later := LeastLoaded(v, model, i + 1);
      if Serves(v[i], model) && (later.None? || v[i].load <= v[later.value].load) then Some(i) else later
  }

  function Choose(v: Pool, prefix: string, model: string): (r: Option<nat>)
    ensures r.Some? ==> r.value < |v| && Serves(v[r.value], model)
    ensures r.None? <==> forall j :: 0 <= j < |v| ==> !Serves(v[j], model)
  {
    var hit := FirstHit(v, prefix, model);
    if hit.Some? then hit else LeastLoaded(v, model)
  }

  function Routed(v: Pool, prefix: string, model: string): Pool {
    match Choose(v, prefix, model)
    case None => v
    case Some(i) => v[i := v[i].(load := v[i].load + 1, warm := v[i].warm + {prefix})]
  }

  // ---- draining ----------------------------------------------------------

  function IndexOf(v: Pool, id: string, i: nat := 0): (r: Option<nat>)
    requires i <= |v|
    ensures r.None? ==> forall j :: i <= j < |v| ==> v[j].id != id
    ensures r.Some? ==> i <= r.value < |v| && v[r.value].id == id
    decreases |v| - i
  {
    if i == |v| then None else if v[i].id == id then Some(i) else IndexOf(v, id, i + 1)
  }

  /** The first other active backend, of whatever model. */
  function Alternative(v: Pool, id: string, i: nat := 0): (r: Option<nat>)
    requires i <= |v|
    ensures r.None? ==> forall j :: i <= j < |v| ==> v[j].id == id || v[j].status != Active
    ensures r.Some? ==> i <= r.value < |v| && v[r.value].id != id && v[r.value].status == Active
    ensures r.Some? ==> forall j :: i <= j < r.value ==> v[j].id == id || v[j].status != Active
    decreases |v| - i
  {
    if i == |v| then None
    else if v[i].id != id && v[i].status == Active then Some(i)
    else Alternative(v, id, i + 1)
  }

  function Drained(v: Pool, id: string): Pool {
    match IndexOf(v, id)
    case None => v
    case Some(t) =>
      var emptied := v[t := v[t].(status := Draining, warm := {}, load := 0)];
      match Alternative(v, id)
      case None => emptied
      case Some(a) => emptied[a := v[a].(load := v[a].load + v[t].load)]
  }

  // ---- the stateful client -----------------------------------------------

  class Backend {
    const id: string
    const model: string
    var status: Status
    var activeRequests: nat
    var warmPrefixes: set<string>

    constructor (id: string, model: string, activeRequests: nat)
      ensures View() == Snapshot(id, model, Active, activeRequests, {})
    {
      this.id := id;
      this.model := model;
      this.status := Active;
      this.activeRequests := activeRequests;
      this.warmPrefixes := {};
    }

    function View(): Snapshot
      reads this
    {
      Snapshot(id, model, status, activeRequests, warmPrefixes)
    }
  }

  const DEFAULT_MODEL := "meta-llama/Llama-3-70B"
  const EAST_1 := "worker-h100-east-01"
  const EAST_2 := "worker-h100-east-02"

  /** The pool a new client starts with. */
  const DEFAULT_POOL: Pool :=
    [Snapshot(EAST_1, DEFAULT_MODEL, Active, 0, {}), Snapshot(EAST_2, DEFAULT_MODEL, Active, 4, {})]

  class Client {
    const backends: seq<Backend>

    ghost predicate Valid() {
      forall i, j :: 0 <= i < j < |backends| ==> backends[i] != backends[j] && backends[i].id != backends[j].id
    }

    function View(): (v: Pool)
      reads backends
      ensures |v| == |backends| && forall i :: 0 <= i < |v| ==> v[i] == backends[i].View()
    {
      seq(|backends|, i requires 0 <= i < |backends| reads backends => backends[i].View())
    }

    constructor ()
      ensures Valid() && fresh(backends) && View() == DEFAULT_POOL
    {
      var east1 := new Backend(EAST_1, DEFAULT_MODEL, 0);
      var east2 := new Backend(EAST_2, DEFAULT_MODEL, 4);
      assert east1.id[18] != east2.id[18];
      backends := [east1, east2];
    }

    /** The first warm backend, if any. */
    method FindHit(prefix: string, model: string) returns (hit: Option<nat>)
      ensures hit == FirstHit(View(), prefix, model)
    {
      var i := 0;
      while i < |backends|
        invariant 0 <= i <= |backends|
        invariant FirstHit(View(), prefix, model) == FirstHit(View(), prefix, model, i)
      {
        if IsHit(backends[i].View(), prefix, model) {
          return Some(i);
        }
        i := i + 1;
      }
      hit := None;
    }

    /** The chosen worker and whether it was warm, or None where the source raises. */
    method RouteRequest(prefix: string, model: string) returns (r: Option<(string, bool)>)
      requires Valid()
      modifies backends
      ensures View() == Routed(old(View()), prefix, model)
      ensures r == match Choose(old(View()), prefix, model)
                   case None => None
                   case Some(i) => Some((backends[i].id, IsHit(old(View())[i], prefix, model)))
    {
      var selected := FindHit(prefix, model);
      var cacheHit := selected.Some?;
      if !cacheHit {
        selected := LeastLoaded(View(), model);
        if selected.None? {
          return None;
        }
      }
      assert selected == Choose(View(), prefix, model);
      AddRequest(selected.value, prefix);
      r := Some((backends[selected.value].id, cacheHit));
    }

    method AddRequest(i: nat, prefix: string)
      requires Valid() && i < |backends|
      modifies backends[i]
      ensures View() == var b := old(View())[i];
                        old(View())[i := b.(load := b.load + 1, warm := b.warm + {prefix})]
    {
      ghost var before := View();
      var b := backends[i];
      b.activeRequests := b.activeRequests + 1;
      b.warmPrefixes := b.warmPrefixes + {prefix};
      assert forall k :: 0 <= k < |backends| && k != i ==> backends[k].View() == before[k];
    }

    /** The worker drains: its warm prefixes and its requests are gone. */
    method Empty(t: nat) returns (moved: nat)
      requires Valid() && t < |backends|
      modifies backends[t]
      ensures moved == old(View())[t].load
      ensures View() == old(View())[t := old(View())[t].(status := Draining, warm := {}, load := 0)]
    {
      ghost var before := View();
      var target := backends[t];
      target.status := Draining;
      target.warmPrefixes := {};
      moved := target.activeRequests;
      target.activeRequests := 0;
      assert forall k :: 0 <= k < |backends| && k != t ==> backends[k].View() == before[k];
    }

    method TakeOver(a: nat, moved: nat)
      requires Valid() && a < |backends|
      modifies backends[a]
      ensures View() == old(View())[a := old(View())[a].(load := old(View())[a].load + moved)]
    {
      ghost var before := View();
      backends[a].activeRequests := backends[a].activeRequests + moved;
      assert forall k :: 0 <= k < |backends| && k != a ==> backends[k].View() == before[k];
    }

    /** The number of requests taken from the worker, or None where the source raises. */
    method TriggerSpotDrain(workerId: string) returns (migrated: Option<nat>)
      requires Valid()
      modifies backends
      ensures View() == Drained(old(View()), workerId)
      ensures migrated.None? <==> IndexOf(old(View()), workerId).None?
      ensures migrated.Some? ==> migrated.value == old(View())[IndexOf(old(View()), workerId).value].load
    {
      ghost var before := View();
      var t := IndexOf(View(), workerId);
      if t.None? {
        return None;
      }
      var moved := Empty(t.value);
      SameAlternative(before, View(), workerId, 0);
      var alt := Alternative(View(), workerId);
      if alt.Some? {
        TakeOver(alt.value, moved);
      }
      migrated := Some(moved);
    }
  }

  lemma {:induction false} SameAlternative(v: Pool, w: Pool, id: string, i: nat)
    requires |v| == |w| && i <= |v|
    requires forall j :: 0 <= j < |v| ==> v[j].id == w[j].id && (v[j].id != id ==> v[j] == w[j])
    ensures Alternative(v, id, i) == Alternative(w, id, i)
    decreases |v| - i
  {
  }

  // ---- one request, one drain, record by record ----------------------------

  /** A request changes one record: it goes to the first warm backend of its model, else to a least loaded one. */
  lemma RouteEffect(v: Pool, prefix: string, model: string, i: nat)
    requires Choose(v, prefix, model) == Some(i)
    ensures i < |v| == |Routed(v, prefix, model)| && v[i].status.Active? && v[i].model == model
    ensures prefix in v[i].warm ==>
              forall j :: 0 <= j < i && v[j].status.Active? && v[j].model == model ==> prefix !in v[j].warm
    ensures prefix !in v[i].warm ==>
              forall j :: 0 <= j < |v| && v[j].status.Active? && v[j].model == model ==>
                prefix !in v[j].warm && v[i].load <= v[j].load
    ensures forall j :: 0 <= j < |v| ==>
              Routed(v, prefix, model)[j] ==
              if j == i then Snapshot(v[i].id, v[i].model, Active, v[i].load + 1, v[i].warm + {prefix}) else v[j]
  {
    assert IsHit(v[i], prefix, model) <==> prefix in v[i].warm;
  }

  /** A drain empties one record, and only the first other active one takes up what it held. */
  lemma DrainEffect(v: Pool, id: string, t: nat)
    requires IndexOf(v, id) == Some(t) && DistinctIds(v)
    ensures t < |v| == |Drained(v, id)| && v[t].id == id
    ensures Drained(v, id)[t] == Snapshot(id, v[t].model, Draining, 0, {})
    ensures forall j :: 0 <= j < |v| && j != t ==>
              Drained(v, id)[j] ==
              if Alternative(v, id) == Some(j) then v[j].(load := v[j].load + v[t].load) else v[j]
  {
  }

  /** Who takes over: the first other record that is active, whatever its model. */
  lemma TakerMeans(v: Pool, id: string, t: nat)
    requires IndexOf(v, id) == Some(t) && DistinctIds(v)
    ensures Alternative(v, id).Some? ==>
              var a := Alternative(v, id).value;
              a < |v| && a != t && v[a].status.Active? && forall j :: 0 <= j < a && j != t ==> !v[j].status.Active?
    ensures Alternative(v, id).None? ==> forall j :: 0 <= j < |v| && j != t ==> !v[j].status.Active?
  {
  }

  // ---- whole runs --------------------------------------------------------

  datatype Event = Route(prefix: string, model: string) | Drain(id: string)

  function Step(v: Pool, e: Event): Pool {
    match e
    case Route(prefix, model) => Routed(v, prefix, model)
    case Drain(id) => Drained(v, id)
  }

  function Run(v: Pool, events: seq<Event>): Pool
    decreases |events|
  {
    if events == [] then v else Run(Step(v, events[0]), events[1..])
  }

  predicate DistinctIds(v: Pool) {
    forall i, j :: 0 <= i < |v| && 0 <= j < |v| && v[i].id == v[j].id ==> i == j
  }

  predicate Cold(v: Pool) { forall b :: b in v ==> b.warm == {} }

  /** The abstract router: which backend holds which prefix. */
  type Affinity = map<(string, string), string>

  function AffinityStep(a: Affinity, v: Pool, e: Event): Affinity {
    match e
    case Route(prefix, model) =>
      if (model, prefix) in a || Choose(v, prefix, model).None? then a
      else a[(model, prefix) := v[LeastLoaded(v, model).value].id]
    case Drain(id) => map k | k in a && a[k] != id :: a[k]
  }

  function AffinityRun(a: Affinity, v: Pool, events: seq<Event>): Affinity
    decreases |events|
  {
    if events == [] then a else AffinityRun(AffinityStep(a, v, events[0]), Step(v, events[0]), events[1..])
  }

  predicate Holds(b: Snapshot, k: (string, string)) {
    b.status == Active && b.model == k.0 && k.1 in b.warm
  }

  predicate DrainingCold(v: Pool) { forall i :: 0 <= i < |v| && v[i].status == Draining ==> v[i].warm == {} }

  ghost predicate WarmInMap(v: Pool, a: Affinity) {
    forall i, k :: 0 <= i < |v| && Holds(v[i], k) ==> k in a && a[k] == v[i].id
  }

  ghost predicate MapHeld(v: Pool, a: Affinity) {
    forall k :: k in a ==> exists i :: 0 <= i < |v| && v[i].id == a[k] && Holds(v[i], k)
  }

  /** The warm sets are exactly the abstract map; so a prefix is warm in one place only. */
  ghost predicate Agrees(v: Pool, a: Affinity) {
    DistinctIds(v) && DrainingCold(v) && WarmInMap(v, a) && MapHeld(v, a)
  }

  lemma HitMatchesMap(v: Pool, a: Affinity, prefix: string, model: string)
    requires Agrees(v, a)
    ensures FirstHit(v, prefix, model).Some? <==> (model, prefix) in a
    ensures (model, prefix) in a ==> v[FirstHit(v, prefix, model).value].id == a[(model, prefix)]
  {
  }

  lemma RouteKeepsAgreement(v: Pool, a: Affinity, prefix: string, model: string)
    requires Agrees(v, a)
    ensures Agrees(Routed(v, prefix, model), AffinityStep(a, v, Route(prefix, model)))
  {
    HitMatchesMap(v, a, prefix, model);
    match Choose(v, prefix, model)
    case None =>
    case Some(c) =>
      var w, b := Routed(v, prefix, model), AffinityStep(a, v, Route(prefix, model));
      var key := (model, prefix);
      assert b == a[key := v[c].id];
      forall i, k | 0 <= i < |w| && Holds(w[i], k) ensures k in b && b[k] == w[i].id {
        assert Holds(v[i], k) || (i == c && k == key);
      }
      forall k | k in b ensures exists i :: 0 <= i < |w| && w[i].id == b[k] && Holds(w[i], k) {
        if k == key {
          assert Holds(w[c], key);
        } else {
          var i :| 0 <= i < |v| && v[i].id == a[k] && Holds(v[i], k);
          assert Holds(w[i], k);
        }
      }
  }

  lemma DrainedShape(v: Pool, id: string)
    requires DistinctIds(v)
    ensures |Drained(v, id)| == |v|
    ensures forall i :: 0 <= i < |v| ==>
              && Drained(v, id)[i].id == v[i].id && Drained(v, id)[i].model == v[i].model
              && (v[i].id != id ==> Drained(v, id)[i].status == v[i].status && Drained(v, id)[i].warm == v[i].warm)
              && (v[i].id == id ==> Drained(v, id)[i].status == Draining && Drained(v, id)[i].warm == {})
  {
  }

  lemma HeldAfterDrain(v: Pool, id: string, i: nat, k: (string, string))
    requires DistinctIds(v) && i < |v|
    ensures |Drained(v, id)| == |v| && (Holds(Drained(v, id)[i], k) <==> Holds(v[i], k) && v[i].id != id)
  {
    DrainedShape(v, id);
  }

  lemma DrainKeepsHolders(v: Pool, a: Affinity, id: string, k: (string, string)) returns (i: nat)
    requires Agrees(v, a) && k in a && a[k] != id
    ensures i < |v| == |Drained(v, id)| && Drained(v, id)[i].id == a[k] && Holds(Drained(v, id)[i], k)
  {
    i :| 0 <= i < |v| && v[i].id == a[k] && Holds(v[i], k);
    DrainedShape(v, id);
    HeldAfterDrain(v, id, i, k);
  }

  lemma DrainKeepsShape(v: Pool, id: string)
    requires DistinctIds(v) && DrainingCold(v)
    ensures DistinctIds(Drained(v, id)) && DrainingCold(Drained(v, id))
  {
    DrainedShape(v, id);
  }

  lemma DrainWarmInMap(v: Pool, a: Affinity, id: string)
    requires Agrees(v, a)
    ensures WarmInMap(Drained(v, id), AffinityStep(a, v, Drain(id)))
  {
    var w, b := Drained(v, id), AffinityStep(a, v, Drain(id));
    DrainedShape(v, id);
    forall i, k | 0 <= i < |w| && Holds(w[i], k) ensures k in b && b[k] == w[i].id {
      HeldAfterDrain(v, id, i, k);
    }
  }

  lemma DrainMapHeld(v: Pool, a: Affinity, id: string)
    requires Agrees(v, a)
    ensures MapHeld(Drained(v, id), AffinityStep(a, v, Drain(id)))
  {
    var w, b := Drained(v, id), AffinityStep(a, v, Drain(id));
    forall k | k in b ensures exists i :: 0 <= i < |w| && w[i].id == b[k] && Holds(w[i], k) {
      var i := DrainKeepsHolders(v, a, id, k);
    }
  }

  lemma DrainKeepsAgreement(v: Pool, a: Affinity, id: string)
    requires Agrees(v, a)
    ensures Agrees(Drained(v, id), AffinityStep(a, v, Drain(id)))
  {
    DrainKeepsShape(v, id);
    DrainWarmInMap(v, a, id);
    DrainMapHeld(v, a, id);
  }

  /** Over any run from cold backends the warm sets stay exactly the abstract map. */
  lemma {:induction false} RunAgrees(v: Pool, a: Affinity, events: seq<Event>)
    requires Agrees(v, a)
    ensures Agrees(Run(v, events), AffinityRun(a, v, events))
    decreases |events|
  {
    if events != [] {
      match events[0] {
        case Route(prefix, model) => RouteKeepsAgreement(v, a, prefix, model);
        case Drain(id) => DrainKeepsAgreement(v, a, id);
      }
      RunAgrees(Step(v, events[0]), AffinityStep(a, v, events[0]), events[1..]);
    }
  }

  lemma ColdAgrees(v: Pool)
    requires DistinctIds(v) && Cold(v)
    ensures Agrees(v, map[])
  {
  }

  lemma AgreesExclusive(w: Pool, a: Affinity, i: nat, j: nat, prefix: string)
    requires Agrees(w, a) && i < |w| && j < |w|
    requires prefix in w[i].warm && prefix in w[j].warm && w[i].model == w[j].model
    ensures i == j && w[i].status == Active
  {
    var k := (w[i].model, prefix);
    assert w[i].warm != {} && w[j].warm != {};
    assert Holds(w[i], k) && Holds(w[j], k);
    assert w[i].id == a[k] == w[j].id;
  }

  /** In every reachable state a prefix is warm in at most one active backend per model, and in no draining one. */
  lemma WarmPrefixesExclusive(v: Pool, events: seq<Event>, i: nat, j: nat, prefix: string)
    requires DistinctIds(v) && Cold(v)
    requires i < |Run(v, events)| && j < |Run(v, events)|
    requires prefix in Run(v, events)[i].warm && prefix in Run(v, events)[j].warm
    requires Run(v, events)[i].model == Run(v, events)[j].model
    ensures i == j && Run(v, events)[i].status == Active
  {
    ColdAgrees(v);
    RunAgrees(v, map[], events);
    AgreesExclusive(Run(v, events), AffinityRun(map[], v, events), i, j, prefix);
  }

  /** A request hits exactly when the abstract map knows its prefix, and then goes where the map says. */
  lemma StickyRouting(v: Pool, events: seq<Event>, prefix: string, model: string)
    requires DistinctIds(v) && Cold(v)
    ensures
      var w, a := Run(v, events), AffinityRun(map[], v, events);
      && (FirstHit(w, prefix, model).Some? <==> (model, prefix) in a)
      && ((model, prefix) in a ==> w[Choose(w, prefix, model).value].id == a[(model, prefix)])
  {
    ColdAgrees(v);
    RunAgrees(v, map[], events);
    HitMatchesMap(Run(v, events), AffinityRun(map[], v, events), prefix, model);
  }

  /** An entry of the map dies only when the backend it names is drained. */
  lemma {:induction false} StickyUntilDrained(v: Pool, a: Affinity, events: seq<Event>, k: (string, string))
    requires k in a && Drain(a[k]) !in events
    ensures k in AffinityRun(a, v, events) && AffinityRun(a, v, events)[k] == a[k]
    decreases |events|
  {
    if events != [] {
      var b := AffinityStep(a, v, events[0]);
      assert events[0] in events;
      assert k in b && b[k] == a[k];
      StickyUntilDrained(Step(v, events[0]), b, events[1..], k);
    }
  }

  // ---- load --------------------------------------------------------------

  function TotalLoad(v: Pool): nat {
    if v == [] then 0 else v[0].load + TotalLoad(v[1..])
  }

  lemma {:induction false} UpdateLoad(v: Pool, i: nat, b: Snapshot)
    requires i < |v|
    ensures TotalLoad(v[i := b]) == TotalLoad(v) - v[i].load + b.load
  {
    if i == 0 {
      assert v[i := b][1..] == v[1..];
    } else {
      assert v[i := b][1..] == v[1..][i - 1 := b];
      UpdateLoad(v[1..], i - 1, b);
    }
  }

  /** Every routed request adds exactly one to the total; a refused one adds nothing. */
  lemma RouteAddsOne(v: Pool, prefix: string, model: string)
    ensures TotalLoad(Routed(v, prefix, model)) ==
            TotalLoad(v) + if Choose(v, prefix, model).Some? then 1 else 0
  {
    match Choose(v, prefix, model)
    case None =>
    case Some(i) => UpdateLoad(v, i, v[i].(load := v[i].load + 1, warm := v[i].warm + {prefix}));
  }

  /** Draining conserves the total exactly when the worker was idle or another backend is active. */
  lemma DrainConserves(v: Pool, id: string)
    requires IndexOf(v, id).Some?
    ensures TotalLoad(Drained(v, id)) == TotalLoad(v) <==>
            v[IndexOf(v, id).value].load == 0 || exists b :: b in v && b.id != id && b.status == Active
    ensures TotalLoad(Drained(v, id)) <= TotalLoad(v)
  {
    var t := IndexOf(v, id).value;
    var emptied := v[t := v[t].(status := Draining, warm := {}, load := 0)];
    UpdateLoad(v, t, emptied[t]);
    match Alternative(v, id)
    case None =>
    case Some(a) =>
      UpdateLoad(emptied, a, v[a].(load := v[a].load + v[t].load));
      assert v[a] in v;
  }

  lemma LoadOfTwo(a: Snapshot, b: Snapshot)
    ensures TotalLoad([a, b]) == a.load + b.load
  {
    assert [a, b][1..] == [b];
    assert TotalLoad([b]) == b.load;
  }

  /** The default pool's four requests survive the first drain and are dropped by the second. */
  lemma SecondDrainDropsAll()
    ensures TotalLoad(DEFAULT_POOL) == 4
    ensures TotalLoad(Run(DEFAULT_POOL, [Drain(EAST_2)])) == 4
    ensures TotalLoad(Run(DEFAULT_POOL, [Drain(EAST_2), Drain(EAST_1)])) == 0
  {
    assert EAST_1[18] != EAST_2[18];
    var east1, east2 := DEFAULT_POOL[0], DEFAULT_POOL[1];
    var once := [east1.(load := 4), east2.(status := Draining, load := 0)];
    var twice := [once[0].(status := Draining, load := 0), once[1]];
    assert Drained(DEFAULT_POOL, EAST_2) == once && Drained(once, EAST_1) == twice;
    assert Run(once, [Drain(EAST_1)]) == Run(twice, []);
    assert [Drain(EAST_2), Drain(EAST_1)][1..] == [Drain(EAST_1)];
    LoadOfTwo(east1, east2);
    LoadOfTwo(once[0], once[1]);
    LoadOfTwo(twice[0], twice[1]);
  }

  predicate SpreadAtMost(v: Pool, model: string, k: int) {
    forall i, j :: 0 <= i < |v| && 0 <= j < |v| && Serves(v[i], model) && Serves(v[j], model) ==>
      v[i].load <= v[j].load + k
  }

  predicate AllCold(v: Pool, model: string, prefixes: seq<string>)
    decreases |prefixes|
  {
    prefixes == [] || (FirstHit(v, prefixes[0], model).None? &&
                       AllCold(Routed(v, prefixes[0], model), model, prefixes[1..]))
  }

  function RouteAll(v: Pool, model: string, prefixes: seq<string>): Pool
    decreases |prefixes|
  {
    if prefixes == [] then v else RouteAll(Routed(v, prefixes[0], model), model, prefixes[1..])
  }

  /** Cold requests to one model never widen its load spread beyond the larger of its start and one. */
  lemma {:induction false} ColdDispatchBalances(v: Pool, model: string, prefixes: seq<string>, k: int)
    requires SpreadAtMost(v, model, k) && k >= 1 && AllCold(v, model, prefixes)
    ensures SpreadAtMost(RouteAll(v, model, prefixes), model, k)
    decreases |prefixes|
  {
    if prefixes != [] {
      var w := Routed(v, prefixes[0], model);
      assert SpreadAtMost(w, model, k);
      ColdDispatchBalances(w, model, prefixes[1..], k);
    }
  }
}
