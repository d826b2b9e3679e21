/**
 The check of a prediction snapshot against its Direct task manifest: the latest task of each market
 and Direct model must be completed, must have produced exactly the fresh effective result, and the
 results must form one full grid of markets by Direct models.
 */
module SnapshotManifest {
  import opened Outcomes
  import opened Sorting
  import opened EffectivePredictions

  datatype Task = Task(
    id: nat, sourceJob: nat, key: Key, selection: nat, run: nat, condition: nat, outcomes: nat,
    asOf: int, taskAvailableAt: int, completed: bool, resultAvailableAt: int)

  /** _snapshot_expectation */
  predicate TaskVisible(t: Task, r: Rules) {
    && t.selection >= 1 && t.run >= 1
    && t.asOf <= t.taskAvailableAt <= r.decisionAt
    && (t.completed ==> t.taskAvailableAt <= t.resultAvailableAt <= r.decisionAt)
  }

  /** Greater by (as_of, task_available_at, selection_run_id, selection_id, prediction_id). */
  predicate Later(a: Task, b: Task) {
    || a.asOf > b.asOf
    || (a.asOf == b.asOf
        && (|| a.taskAvailableAt > b.taskAvailableAt
            || (a.taskAvailableAt == b.taskAvailableAt
                && (|| a.run > b.run
                    || (a.run == b.run && (a.selection > b.selection
                                           || (a.selection == b.selection && a.id > b.id)))))))
  }

  lemma LaterIsTupleOrder(a: Task, b: Task)
    ensures Later(a, b) <==> TupleLess([b.asOf, b.taskAvailableAt, b.run, b.selection, b.id],
                                       [a.asOf, a.taskAvailableAt, a.run, a.selection, a.id])
  {
    Tuples5(b.asOf, b.taskAvailableAt, b.run, b.selection, b.id, a.asOf, a.taskAvailableAt, a.run, a.selection, a.id);
  }

  function ModelsOf(r: Rules, mode: SourceMode): set<nat>
    requires Configured(r)
  {
    set m | m in r.models && r.modes[m] == mode
  }

  ghost predicate LatestTask(tasks: seq<Task>, direct: set<nat>, t: Task) {
    && t in tasks && t.key.model in direct
    && forall u :: u in tasks && u.key == t.key ==> u == t || Later(t, u)
  }

  /** latest holds for each market and Direct model exactly its latest task. */
  ghost predicate HoldsLatest(latest: map<Key, Task>, tasks: seq<Task>, direct: set<nat>) {
    && (forall k :: k in latest ==> latest[k].key == k && LatestTask(tasks, direct, latest[k]))
    && (forall t :: t in tasks && t.key.model in direct ==> t.key in latest)
  }

  lemma LaterIsTransitive(a: Task, b: Task, c: Task)
    ensures Later(a, b) && (b == c || Later(b, c)) ==> Later(a, c)
  {
  }

  /** A Direct task replaces an earlier one of its market and model. */
  function Replaced(latest: map<Key, Task>, direct: set<nat>, t: Task): map<Key, Task> {
    if t.key.model in direct && (t.key !in latest || Later(t, latest[t.key])) then latest[t.key := t] else latest
  }

  lemma {:induction false} NextLatest(latest: map<Key, Task>, tasks: seq<Task>, direct: set<nat>, t: Task)
    requires HoldsLatest(latest, tasks, direct)
    requires forall u :: u in tasks ==> u.id != t.id
    ensures HoldsLatest(Replaced(latest, direct, t), tasks + [t], direct)
  {
    var next := Replaced(latest, direct, t);
    forall k | k in next
      ensures next[k].key == k && LatestTask(tasks + [t], direct, next[k])
    {
      forall u | u in tasks + [t] && u.key == next[k].key ensures u == next[k] || Later(next[k], u) {
        if next[k] == t && u != t && k in latest {
          LaterIsTransitive(t, latest[k], u);
        }
      }
    }
  }

  predicate DistinctTasks(tasks: seq<Task>) {
    forall i, j :: 0 <= i < j < |tasks| ==>
      && tasks[i].id != tasks[j].id && tasks[i].sourceJob != tasks[j].sourceJob
      && !(tasks[i].key == tasks[j].key && tasks[i].run == tasks[j].run && tasks[i].asOf == tasks[j].asOf)
  }

  predicate Expected(t: Task, r: Rules) {
    TaskVisible(t, r) && !(t.key.model in r.modes && r.modes[t.key.model].Sandbox?)
  }

  /** What the first loop accepts. */
  ghost predicate TasksAccepted(tasks: seq<Task>, r: Rules)
    requires Configured(r)
  {
    && (forall t :: t in tasks ==> Expected(t, r))
    && DistinctTasks(tasks)
    && (ModelsOf(r, Direct) != {} ==> exists t :: t in tasks && t.key.model in ModelsOf(r, Direct))
  }

  /** What the loop over the manifest holds after some first tasks. */
  ghost predicate Collected(
    tasks: seq<Task>, r: Rules, held: map<Key, Task>, ids: set<nat>, jobs: set<nat>, dimensions: set<(nat, Key, int)>)
    requires Configured(r)
  {
    && HoldsLatest(held, tasks, ModelsOf(r, Direct))
    && (forall t :: t in tasks ==> Expected(t, r))
    && DistinctTasks(tasks)
    && ids == (set t | t in tasks :: t.id)
    && jobs == (set t | t in tasks :: t.sourceJob)
    && dimensions == (set t | t in tasks :: Dimension(t))
  }

  function Dimension(t: Task): (nat, Key, int) {
    (t.run, t.key, t.asOf)
  }

  lemma {:induction false} NextCollected(
    tasks: seq<Task>, r: Rules, held: map<Key, Task>, ids: set<nat>, jobs: set<nat>, dimensions: set<(nat, Key, int)>,
    t: Task)
    requires Configured(r) && Collected(tasks, r, held, ids, jobs, dimensions)
    requires Expected(t, r) && t.id !in ids && t.sourceJob !in jobs && Dimension(t) !in dimensions
    ensures Collected(tasks + [t], r, Replaced(held, ModelsOf(r, Direct), t),
                      ids + {t.id}, jobs + {t.sourceJob}, dimensions + {Dimension(t)})
  {
    NextLatest(held, tasks, ModelsOf(r, Direct), t);
    assert forall u :: u in tasks + [t] <==> u in tasks || u == t;
    forall i, j | 0 <= i < j < |tasks + [t]|
      ensures (tasks + [t])[i].id != (tasks + [t])[j].id && (tasks + [t])[i].sourceJob != (tasks + [t])[j].sourceJob
      ensures Dimension((tasks + [t])[i]) != Dimension((tasks + [t])[j])
    {
      assert (tasks + [t])[i] == tasks[i];
      assert tasks[i] in tasks;
    }
  }

  /** A task that repeats an earlier one, or is not to be expected, makes the loop refuse. */
  lemma RefusedTask(tasks: seq<Task>, r: Rules, n: nat)
    requires Configured(r) && n < |tasks|
    requires !Expected(tasks[n], r)
             || exists t :: t in tasks[..n] && (|| t.id == tasks[n].id || t.sourceJob == tasks[n].sourceJob
                                                || Dimension(t) == Dimension(tasks[n]))
    ensures !TasksAccepted(tasks, r)
  {
    if Expected(tasks[n], r) {
      var t :| t in tasks[..n] && (|| t.id == tasks[n].id || t.sourceJob == tasks[n].sourceJob
                                   || Dimension(t) == Dimension(tasks[n]));
      var i :| 0 <= i < n && tasks[i] == t;
    }
  }

  /** The loop over the manifest. */
  method CollectLatest(tasks: seq<Task>, r: Rules) returns (latest: Option<map<Key, Task>>)
    requires Configured(r)
    ensures latest.Some? <==> TasksAccepted(tasks, r)
    ensures latest.Some? ==> HoldsLatest(latest.value, tasks, ModelsOf(r, Direct))
  {
    var direct := ModelsOf(r, Direct);
    var held: map<Key, Task> := map[];
    var ids: set<nat>, jobs: set<nat>, dimensions: set<(nat, Key, int)> := {}, {}, {};
    for n := 0 to |tasks|
      invariant Collected(tasks[..n], r, held, ids, jobs, dimensions)
    {
      var t := tasks[n];
      var dimension := Dimension(t);
      if || t.selection < 1 || t.run < 1 || t.asOf > r.decisionAt || t.taskAvailableAt > r.decisionAt
         || t.taskAvailableAt < t.asOf {
        RefusedTask(tasks, r, n);
        return None;
      }
      if t.completed && (t.resultAvailableAt > r.decisionAt || t.resultAvailableAt < t.taskAvailableAt) {
        RefusedTask(tasks, r, n);
        return None;
      }
      if t.id in ids || t.sourceJob in jobs || dimension in dimensions {
        RefusedTask(tasks, r, n);
        return None;
      }
      if t.key.model in r.modes && r.modes[t.key.model].Sandbox? {
        RefusedTask(tasks, r, n);
        return None;
      }
      NextCollected(tasks[..n], r, held, ids, jobs, dimensions, t);
      assert tasks[..n + 1] == tasks[..n] + [t];
      ids, jobs, dimensions := ids + {t.id}, jobs + {t.sourceJob}, dimensions + {dimension};
      held := Replaced(held, direct, t);
    }
    assert tasks[..|tasks|] == tasks;
    if direct != {} && held == map[] {
      return None;
    }
    assert direct == {} || exists k :: k in held;
    return Some(held);
  }

  lemma LatestIsUnique(latest: map<Key, Task>, other: map<Key, Task>, tasks: seq<Task>, direct: set<nat>)
    requires HoldsLatest(latest, tasks, direct) && HoldsLatest(other, tasks, direct)
    ensures latest == other
  {
    forall k | k in latest ensures k in other && latest[k] == other[k] {
      assert latest[k] in tasks && other[k] in tasks;
    }
  }

  lemma SelectionIsUnique(
    selected: map<Key, Prediction>, other: map<Key, Prediction>, s: seq<Prediction>, r: Rules)
    requires Configured(r) && Selects(selected, s, r) && Selects(other, s, r)
    ensures selected == other
  {
    forall k | k in selected ensures k in other && selected[k] == other[k] {
    }
    forall k | k in other ensures k in selected {
    }
  }

  // ----- the results

  /** The completed task t produced p. */
  predicate Produced(t: Task, p: Prediction) {
    && t.completed && p.id == t.id && p.sourceJob == t.sourceJob && p.key == t.key
    && p.condition == t.condition && !p.sandboxed && p.asOf == t.asOf
    && p.outcomes == t.outcomes && p.availableAt == t.resultAvailableAt
  }

  ghost predicate AllProduced(latest: map<Key, Task>, selected: map<Key, Prediction>) {
    forall k :: k in latest ==> k in selected && Produced(latest[k], selected[k])
  }

  /** The loop over the latest tasks. */
  method CheckResults(latest: map<Key, Task>, selected: map<Key, Prediction>, byId: map<nat, Prediction>,
                      ghost s: seq<Prediction>)
    returns (ok: bool)
    requires forall k :: k in latest ==> latest[k].key == k
    requires Indexes(byId, s) && forall k :: k in selected ==> selected[k] in s
    ensures ok <==> AllProduced(latest, selected)
  {
    var rest := latest.Keys;
    while rest != {}
      invariant rest <= latest.Keys
      invariant forall k :: k in latest.Keys - rest ==> k in selected && Produced(latest[k], selected[k])
      decreases |rest|
    {
      var k :| k in rest;
      var t := latest[k];
      if !t.completed || t.id !in byId {
        return false;
      }
      var result := byId[t.id];
      if || result.sourceJob != t.sourceJob || result.key != k || result.condition != t.condition
         || result.sandboxed || result.asOf != t.asOf || result.outcomes != t.outcomes
         || result.availableAt != t.resultAvailableAt {
        return false;
      }
      if k !in selected || selected[k].id != t.id {
        return false;
      }
      rest := rest - {k};
    }
    return true;
  }

  // ----- the grid

  /** Every market of the manifest has one task for each of the models and for no other. */
  ghost predicate Complete(latest: map<Key, Task>, models: set<nat>) {
    forall k, d :: k in latest ==> (Key(k.market, d) in latest <==> d in models)
  }

  predicate SameGeneration(t: Task, u: Task) {
    t.run == u.run && t.selection == u.selection && t.asOf == u.asOf && t.condition == u.condition
  }

  /** Every task of a market belongs to one run, selection and generation of one condition. */
  ghost predicate OneGeneration(latest: map<Key, Task>) {
    forall k, l :: k in latest && l in latest && k.market == l.market ==>
      SameGeneration(latest[k], latest[l])
  }

  function MarketsOf(latest: map<Key, Task>): set<nat> {
    set k | k in latest :: k.market
  }

  /** The dictionaries of sets that the loop keeps for one market. */
  datatype MarketView = MarketView(
    models: set<nat>, runs: set<nat>, selections: set<nat>, generations: set<int>, conditions: set<nat>)

  ghost predicate IsView(v: MarketView, latest: map<Key, Task>, keys: set<Key>, m: nat)
    requires keys <= latest.Keys
  {
    && v.models == (set k | k in keys && k.market == m :: k.model)
    && v.runs == (set k | k in keys && k.market == m :: latest[k].run)
    && v.selections == (set k | k in keys && k.market == m :: latest[k].selection)
    && v.generations == (set k | k in keys && k.market == m :: latest[k].asOf)
    && v.conditions == (set k | k in keys && k.market == m :: latest[k].condition)
  }

  function Added(v: MarketView, model: nat, t: Task): MarketView {
    MarketView(v.models + {model}, v.runs + {t.run}, v.selections + {t.selection},
               v.generations + {t.asOf}, v.conditions + {t.condition})
  }

  lemma ViewGrows(v: MarketView, latest: map<Key, Task>, keys: set<Key>, m: nat, k: Key)
    requires keys <= latest.Keys && k in latest && IsView(v, latest, keys, m)
    ensures IsView(if k.market == m then Added(v, k.model, latest[k]) else v, latest, keys + {k}, m)
  {
  }

  ghost predicate Grouped(views: map<nat, MarketView>, latest: map<Key, Task>, keys: set<Key>)
    requires keys <= latest.Keys
  {
    && views.Keys == (set k | k in keys :: k.market)
    && forall m :: m in views ==> IsView(views[m], latest, keys, m)
  }

  function ViewAt(views: map<nat, MarketView>, m: nat): MarketView {
    if m in views then views[m] else MarketView({}, {}, {}, {}, {})
  }

  function WithTask(views: map<nat, MarketView>, k: Key, t: Task): map<nat, MarketView> {
    views[k.market := Added(ViewAt(views, k.market), k.model, t)]
  }

  lemma {:induction false} NextGrouped(views: map<nat, MarketView>, latest: map<Key, Task>, keys: set<Key>, k: Key)
    requires keys <= latest.Keys && k in latest && Grouped(views, latest, keys)
    ensures Grouped(WithTask(views, k, latest[k]), latest, keys + {k})
  {
    var next := WithTask(views, k, latest[k]);
    forall m | m in next ensures IsView(next[m], latest, keys + {k}, m) {
      if m !in views {
        assert forall l :: l in keys ==> l.market in views;
        assert IsView(ViewAt(views, m), latest, keys, m);
      }
      ViewGrows(ViewAt(views, m), latest, keys, m, k);
    }
  }

  /** Every key outside rest is grouped. */
  ghost predicate GroupedBut(views: map<nat, MarketView>, latest: map<Key, Task>, rest: set<Key>) {
    rest <= latest.Keys && Grouped(views, latest, latest.Keys - rest)
  }

  lemma {:induction false} NextGroupedBut(views: map<nat, MarketView>, latest: map<Key, Task>, rest: set<Key>, k: Key)
    requires GroupedBut(views, latest, rest) && k in rest
    ensures GroupedBut(WithTask(views, k, latest[k]), latest, rest - {k})
  {
    NextGrouped(views, latest, latest.Keys - rest, k);
    assert latest.Keys - (rest - {k}) == latest.Keys - rest + {k};
  }

  lemma NoneIsGrouped(latest: map<Key, Task>)
    ensures GroupedBut(map[], latest, latest.Keys)
  {
  }

  lemma AllIsGrouped(views: map<nat, MarketView>, latest: map<Key, Task>)
    requires GroupedBut(views, latest, {})
    ensures Grouped(views, latest, latest.Keys)
  {
    assert latest.Keys - {} == latest.Keys;
  }

  /** The sets that the loop over the latest tasks collects for each market. */
  method GroupByMarket(latest: map<Key, Task>) returns (views: map<nat, MarketView>)
    ensures Grouped(views, latest, latest.Keys)
  {
    views := map[];
    var rest := latest.Keys;
    NoneIsGrouped(latest);
    while rest != {}
      invariant GroupedBut(views, latest, rest)
      decreases |rest|
    {
      var k :| k in rest;
      NextGroupedBut(views, latest, rest, k);
      views := WithTask(views, k, latest[k]);
      rest := rest - {k};
    }
    AllIsGrouped(views, latest);
  }

  predicate Uniform(v: MarketView, direct: set<nat>) {
    v.models == direct && |v.runs| == 1 && |v.selections| == 1 && |v.generations| == 1 && |v.conditions| == 1
  }

  ghost predicate CompleteAt(latest: map<Key, Task>, models: set<nat>, m: nat) {
    forall d :: Key(m, d) in latest <==> d in models
  }

  ghost predicate OneGenerationAt(latest: map<Key, Task>, m: nat) {
    forall k, l :: k in latest && l in latest && k.market == m && l.market == m ==>
      SameGeneration(latest[k], latest[l])
  }

  ghost predicate MarketHolds(latest: map<Key, Task>, models: set<nat>, m: nat) {
    CompleteAt(latest, models, m) && OneGenerationAt(latest, m)
  }

  /** The five set sizes decide whether a market is complete and of one generation. */
  lemma {:induction false} UniformMarket(latest: map<Key, Task>, direct: set<nat>, m: nat, v: MarketView)
    requires m in MarketsOf(latest) && IsView(v, latest, latest.Keys, m)
    ensures Uniform(v, direct) <==> MarketHolds(latest, direct, m)
  {
    var k0 :| k0 in latest && k0.market == m;
    var t := latest[k0];
    OneElement(v.runs, t.run);
    OneElement(v.selections, t.selection);
    OneElement(v.generations, t.asOf);
    OneElement(v.conditions, t.condition);
    assert v.models == direct <==> CompleteAt(latest, direct, m) by {
      forall d ensures d in v.models <==> Key(m, d) in latest {
        if d in v.models {
          var k :| k in latest && k.market == m && k.model == d;
          assert k == Key(m, d);
        }
      }
    }
    if |v.runs| == 1 && |v.selections| == 1 && |v.generations| == 1 && |v.conditions| == 1 {
      forall k | k in latest && k.market == m ensures SameGeneration(latest[k], t) {
        assert latest[k].run in v.runs && latest[k].selection in v.selections;
        assert latest[k].asOf in v.generations && latest[k].condition in v.conditions;
      }
    }
  }

  lemma OneElement<T>(s: set<T>, x: T)
    requires x in s
    ensures |s| == 1 <==> forall y :: y in s ==> y == x
  {
    assert s == (s - {x}) + {x};
    assert |s| == |s - {x}| + 1;
    assert |s - {x}| == 0 <==> s - {x} == {};
  }

  lemma {:induction false} MarketsHold(latest: map<Key, Task>, models: set<nat>)
    ensures Complete(latest, models) && OneGeneration(latest)
            <==> forall m :: m in MarketsOf(latest) ==> MarketHolds(latest, models, m)
  {
    if forall m :: m in MarketsOf(latest) ==> MarketHolds(latest, models, m) {
      forall k | k in latest ensures MarketHolds(latest, models, k.market) {
        assert k.market in MarketsOf(latest);
      }
    }
  }

  lemma {:induction false} MarketsDecide(latest: map<Key, Task>, models: set<nat>, views: map<nat, MarketView>)
    requires Grouped(views, latest, latest.Keys)
    ensures views.Keys == MarketsOf(latest)
    ensures forall m :: m in views ==> (Uniform(views[m], models) <==> MarketHolds(latest, models, m))
  {
    forall m | m in views ensures Uniform(views[m], models) <==> MarketHolds(latest, models, m) {
      UniformMarket(latest, models, m, views[m]);
    }
  }

  lemma {:induction false} UniformMarkets(latest: map<Key, Task>, models: set<nat>, views: map<nat, MarketView>)
    requires Grouped(views, latest, latest.Keys)
    ensures views.Keys == MarketsOf(latest)
    ensures Complete(latest, models) && OneGeneration(latest) <==> forall m :: m in views ==> Uniform(views[m], models)
  {
    MarketsHold(latest, models);
    MarketsDecide(latest, models, views);
    if forall m :: m in views ==> Uniform(views[m], models) {
      assert forall m :: m in MarketsOf(latest) ==> MarketHolds(latest, models, m);
    } else {
      var m :| m in views && !Uniform(views[m], models);
      assert !MarketHolds(latest, models, m);
    }
  }

  /** The loop over the markets. */
  method CheckMarkets(latest: map<Key, Task>, direct: set<nat>) returns (count: Option<nat>)
    ensures count.Some? <==> Complete(latest, direct) && OneGeneration(latest)
    ensures count.Some? ==> count.value == |MarketsOf(latest)|
  {
    var views := GroupByMarket(latest);
    UniformMarkets(latest, direct, views);
    var left := views.Keys;
    while left != {}
      invariant left <= views.Keys
      invariant forall m :: m in views.Keys - left ==> Uniform(views[m], direct)
      decreases |left|
    {
      var m :| m in left;
      if !Uniform(views[m], direct) {
        return None;
      }
      left := left - {m};
    }
    return Some(|views.Keys|);
  }

  ghost predicate IsGrid(keys: set<Key>, markets: set<nat>, models: set<nat>) {
    forall k :: k in keys <==> k.market in markets && k.model in models
  }

  /** A full grid has markets times models cells. */
  lemma {:induction false} GridSize(keys: set<Key>, markets: set<nat>, models: set<nat>)
    requires IsGrid(keys, markets, models)
    ensures |keys| == |markets| * |models|
    decreases |markets|
  {
    if markets == {} {
      assert keys == {};
    } else {
      var m :| m in markets;
      var row := set k | k in keys && k.market == m;
      var others := set k | k in keys && k.market != m;
      assert keys == row + others && row !! others;
      GridSize(others, markets - {m}, models);
      RowSize(row, m, models);
      assert |markets - {m}| == |markets| - 1;
      assert (|markets| - 1) * |models| + |models| == |markets| * |models|;
    }
  }

  lemma {:induction false} RowSize(row: set<Key>, m: nat, models: set<nat>)
    requires IsGrid(row, {m}, models)
    ensures |row| == |models|
    decreases |models|
  {
    if models == {} {
      assert row == {};
    } else {
      var d :| d in models;
      assert row == (row - {Key(m, d)}) + {Key(m, d)};
      RowSize(row - {Key(m, d)}, m, models - {d});
      assert |models - {d}| == |models| - 1;
    }
  }

  // ----- the manifest

  function DirectKeys(selected: map<Key, Prediction>, direct: set<nat>): set<Key> {
    set k | k in selected && k.model in direct
  }

  /** Every sandbox model has an effective result. */
  ghost predicate SandboxesAnswer(selected: map<Key, Prediction>, r: Rules)
    requires Configured(r)
  {
    forall d :: d in ModelsOf(r, Sandbox) ==> exists k :: k in selected && k.model == d
  }

  /** The latest tasks and the effective results of a snapshot agree. */
  ghost predicate Agree(latest: map<Key, Task>, selected: map<Key, Prediction>, r: Rules)
    requires Configured(r)
  {
    && AllProduced(latest, selected)
    && Complete(latest, ModelsOf(r, Direct)) && OneGeneration(latest)
    && DirectKeys(selected, ModelsOf(r, Direct)) == latest.Keys
    && SandboxesAnswer(selected, r)
  }

  ghost predicate ManifestHolds(tasks: seq<Task>, predictions: seq<Prediction>, r: Rules)
    requires Configured(r)
  {
    && TasksAccepted(tasks, r) && Accepts(predictions, r)
    && forall latest, selected ::
         HoldsLatest(latest, tasks, ModelsOf(r, Direct)) && Selects(selected, predictions, r) ==>
           Agree(latest, selected, r)
  }

  lemma ManifestIsAgreement(latest: map<Key, Task>, selected: map<Key, Prediction>,
                            tasks: seq<Task>, predictions: seq<Prediction>, r: Rules)
    requires Configured(r) && TasksAccepted(tasks, r) && Accepts(predictions, r)
    requires HoldsLatest(latest, tasks, ModelsOf(r, Direct)) && Selects(selected, predictions, r)
    ensures ManifestHolds(tasks, predictions, r) <==> Agree(latest, selected, r)
  {
    forall l, s | HoldsLatest(l, tasks, ModelsOf(r, Direct)) && Selects(s, predictions, r)
      ensures l == latest && s == selected
    {
      LatestIsUnique(l, latest, tasks, ModelsOf(r, Direct));
      SelectionIsUnique(s, selected, predictions, r);
    }
  }

  /** validate_snapshot_manifest behind its header checks. */
  method ValidateManifest(tasks: seq<Task>, predictions: seq<Prediction>, r: Rules) returns (count: Option<nat>)
    ensures count.Some? <==> Configured(r) && ManifestHolds(tasks, predictions, r)
    ensures count.Some? ==> forall latest :: HoldsLatest(latest, tasks, ModelsOf(r, Direct)) ==>
                                               count.value == |MarketsOf(latest)|
  {
    if !Configured(r) {
      return None;
    }
    var direct := ModelsOf(r, Direct);
    var collected := CollectLatest(tasks, r);
    if collected.None? {
      return None;
    }
    var latest := collected.value;
    var chosen, byId := Select(predictions, r);
    if chosen.None? {
      return None;
    }
    var selected := chosen.value;
    ManifestIsAgreement(latest, selected, tasks, predictions, r);
    var produced := CheckResults(latest, selected, byId, predictions);
    if !produced {
      return None;
    }
    count := CheckMarkets(latest, direct);
    if count.None? || DirectKeys(selected, direct) != latest.Keys {
      return None;
    }
    if exists d :: d in ModelsOf(r, Sandbox) && forall k :: k in selected ==> k.model != d {
      return None;
    }
    forall other | HoldsLatest(other, tasks, direct) ensures other == latest {
      LatestIsUnique(other, latest, tasks, direct);
    }
  }

  lemma {:induction false} AgreementIsGrid(latest: map<Key, Task>, models: set<nat>)
    requires Complete(latest, models)
    ensures IsGrid(latest.Keys, MarketsOf(latest), models)
    ensures |latest.Keys| == |MarketsOf(latest)| * |models|
  {
    forall k ensures k in latest.Keys <==> k.market in MarketsOf(latest) && k.model in models {
      if k.market in MarketsOf(latest) {
        var l :| l in latest && l.market == k.market;
        assert Key(l.market, k.model) == k;
      }
    }
    GridSize(latest.Keys, MarketsOf(latest), models);
  }

  /** The result of a cell is the one its completed task announced, field by field. */
  predicate Announced(t: Task, p: Prediction) {
    && t.completed && !p.sandboxed && p.id == t.id && p.sourceJob == t.sourceJob
    && p.asOf == t.asOf && p.condition == t.condition && p.outcomes == t.outcomes
    && p.availableAt == t.resultAvailableAt
  }

  predicate FreshAndVisible(p: Prediction, r: Rules) {
    r.freshAfter <= p.asOf <= p.completedAt <= p.availableAt <= r.decisionAt
  }

  lemma {:induction false} SandboxesAreSandboxed(selected: map<Key, Prediction>, predictions: seq<Prediction>, r: Rules)
    requires Configured(r) && Selects(selected, predictions, r) && SandboxesAnswer(selected, r)
    ensures forall k :: k in selected && k.model in ModelsOf(r, Sandbox) ==> selected[k].sandboxed
    ensures forall d :: d in r.models && r.modes[d] == Sandbox ==> exists k :: k in selected && k.model == d
  {
    forall d | d in r.models && r.modes[d] == Sandbox ensures exists k :: k in selected && k.model == d {
      assert d in ModelsOf(r, Sandbox);
    }
  }

  /**
   What acceptance of a snapshot promises: its fresh Direct results fill the grid of markets by
   Direct models, each the product of the one latest task of its cell, every market is of one run,
   selection and generation, and every sandbox model has results, all of them sandboxed.
   */
  lemma {:induction false} AcceptedManifestIsGrid(
    latest: map<Key, Task>, selected: map<Key, Prediction>, tasks: seq<Task>, predictions: seq<Prediction>, r: Rules)
    requires Configured(r) && ManifestHolds(tasks, predictions, r)
    requires HoldsLatest(latest, tasks, ModelsOf(r, Direct)) && Selects(selected, predictions, r)
    ensures IsGrid(DirectKeys(selected, ModelsOf(r, Direct)), MarketsOf(latest), ModelsOf(r, Direct))
    ensures |DirectKeys(selected, ModelsOf(r, Direct))| == |MarketsOf(latest)| * |ModelsOf(r, Direct)|
    ensures forall k :: k in DirectKeys(selected, ModelsOf(r, Direct)) ==>
                          k in latest && Announced(latest[k], selected[k])
    ensures OneGeneration(latest)
    ensures forall k, l :: && k in DirectKeys(selected, ModelsOf(r, Direct))
                           && l in DirectKeys(selected, ModelsOf(r, Direct)) && k.market == l.market ==>
                             selected[k].asOf == selected[l].asOf && selected[k].condition == selected[l].condition
    ensures forall k :: k in selected && k.model in ModelsOf(r, Sandbox) ==> selected[k].sandboxed
    ensures forall d :: d in r.models && r.modes[d] == Sandbox ==> exists k :: k in selected && k.model == d
    ensures forall k :: k in selected ==> FreshAndVisible(selected[k], r)
    ensures forall t :: t in tasks ==> t.asOf <= t.taskAvailableAt <= r.decisionAt
  {
    assert Agree(latest, selected, r);
    AgreementIsGrid(latest, ModelsOf(r, Direct));
    SandboxesAreSandboxed(selected, predictions, r);
  }
}
