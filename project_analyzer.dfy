/** `ProjectAnalyzer`: turns the model's project breakdown into stored
 *  epics, features, tasks and dependencies. The chat call and the JSON
 *  decoder are parameters: the reply arrives as text and `decode` stands
 *  for `json.decodeFromString<AnalysisResult>`. */
module ProjectAnalyzer {
  import opened Wrappers
  import Fences
  import opened PipelineModels
  import opened TaskStore

  // ---- parsing ----

  /** The breakdown used when the reply cannot be decoded: one epic, one
   *  feature, one DEVOPS task of priority HIGH and complexity 2. */
  const Fallback: AnalysisResult :=
    AnalysisResult([
      AnalysisEpic("Core Implementation", "Main project implementation", [
        AnalysisFeature("Initial Setup", "Project setup and core functionality", "", [
          AnalysisTask("Project scaffolding", "Set up project structure and dependencies",
                       "DEVOPS", "HIGH", 2, [])])])])

  /** `parseAnalysisResponse`: the decoded JSON part of the reply, or the
   *  fallback when decoding fails. */
  function ParseAnalysisResponse(response: string, decode: string -> Option<AnalysisResult>): (r: AnalysisResult)
    ensures decode(Fences.ExtractJson(response)).Some? ==> r == decode(Fences.ExtractJson(response)).value
    ensures decode(Fences.ExtractJson(response)).None? ==>
      && |r.epics| == 1 && r.epics[0].title == "Core Implementation"
      && |r.epics[0].features| == 1 && r.epics[0].features[0].title == "Initial Setup"
      && |r.epics[0].features[0].tasks| == 1
      && var t := r.epics[0].features[0].tasks[0];
         t.title == "Project scaffolding" && t.category == "DEVOPS" && t.priority == "HIGH"
         && t.estimatedComplexity == 2 && t.dependsOnTitles == []
  {
    match decode(Fences.ExtractJson(response))
    case Some(result) => result
    case None => Fallback
  }

  // ---- normalisation ----

  /** `coerceIn(1, 5)` */
  function Clamp(x: int): (r: int)
    ensures 1 <= r <= 5
    ensures 1 <= x <= 5 ==> r == x
    ensures x < 1 ==> r == 1
    ensures x > 5 ==> r == 5
  {
    if x < 1 then 1 else if x > 5 then 5 else x
  }

  /** `TaskCategory.valueOf`, BACKEND when no constant has that name. */
  function CategoryOf(name: string): (r: TaskCategory)
    ensures CategoryName(r) == name || (r == BACKEND && forall c :: CategoryName(c) != name)
  {
    match ParseCategory(name)
    case Some(c) => c
    case None =>
      assert forall c :: CategoryName(c) != name by {
        forall c ensures CategoryName(c) != name {
          ParseCategoryOfName(c);
        }
      }
      BACKEND
  }

  /** `TaskPriority.valueOf`, MEDIUM when no constant has that name. */
  function PriorityOf(name: string): (r: TaskPriority)
    ensures PriorityName(r) == name || (r == MEDIUM && forall p :: PriorityName(p) != name)
  {
    match ParsePriority(name)
    case Some(p) => p
    case None =>
      assert forall p :: PriorityName(p) != name by {
        forall p ensures PriorityName(p) != name {
          ParsePriorityOfName(p);
        }
      }
      MEDIUM
  }

  /** The stored row of an analysis task: normalised, CREATED, with no
   *  branch, url, agent or stored dependencies yet. */
  function RowFor(id: Id, featureId: Id, t: AnalysisTask): DevTask {
    DevTask(id, featureId, t.title, t.description, CategoryOf(t.category), PriorityOf(t.priority),
            CREATED, "", "", "", [], Clamp(t.estimatedComplexity))
  }

  // ---- what gets stored ----

  /** An analysis task together with the id of the feature it is stored
   *  under. */
  datatype Placed = Placed(featureId: Id, task: AnalysisTask)

  function PlaceTasks(featureId: Id, ts: seq<AnalysisTask>): (r: seq<Placed>)
    ensures |r| == |ts|
    ensures forall i :: 0 <= i < |ts| ==> r[i] == Placed(featureId, ts[i])
  {
    seq(|ts|, i requires 0 <= i < |ts| => Placed(featureId, ts[i]))
  }

  /** The tasks of the features fs, stored as features f0 + 1, f0 + 2, ...,
   *  in the order they are created. */
  function PlaceFeatures(f0: nat, fs: seq<AnalysisFeature>): seq<Placed> {
    if fs == [] then []
    else PlaceFeatures(f0, fs[..|fs| - 1]) + PlaceTasks(f0 + |fs|, fs[|fs| - 1].tasks)
  }

  function FeatureCount(es: seq<AnalysisEpic>): nat {
    if es == [] then 0 else FeatureCount(es[..|es| - 1]) + |es[|es| - 1].features|
  }

  /** The tasks of all epics, with their features numbered on from f0. */
  function PlaceEpics(f0: nat, es: seq<AnalysisEpic>): seq<Placed> {
    if es == [] then []
    else PlaceEpics(f0, es[..|es| - 1]) + PlaceFeatures(f0 + FeatureCount(es[..|es| - 1]), es[|es| - 1].features)
  }

  /** Task rows with ids t0 + 1, t0 + 2, ... */
  function Rows(t0: nat, ps: seq<Placed>): (r: seq<DevTask>)
    ensures |r| == |ps|
  {
    seq(|ps|, k requires 0 <= k < |ps| => RowFor(t0 + k + 1, ps[k].featureId, ps[k].task))
  }

  /** Row k of Rows(t0, ps) is task t0 + k + 1, made from ps[k]. */
  lemma RowsAt(t0: nat, ps: seq<Placed>)
    ensures forall k :: 0 <= k < |ps| ==> Rows(t0, ps)[k] == RowFor(t0 + k + 1, ps[k].featureId, ps[k].task)
  {
  }

  lemma RowsAppend(t0: nat, a: seq<Placed>, b: seq<Placed>)
    ensures Rows(t0, a + b) == Rows(t0, a) + Rows(t0 + |a|, b)
  {
    var l, r := Rows(t0, a + b), Rows(t0, a) + Rows(t0 + |a|, b);
    RowsAt(t0, a + b);
    RowsAt(t0, a);
    RowsAt(t0 + |a|, b);
    forall k | 0 <= k < |l| ensures l[k] == r[k] {
      if k < |a| {
        assert (a + b)[k] == a[k];
      } else {
        assert (a + b)[k] == b[k - |a|];
      }
    }
  }

  /** `taskTitleToId` after storing ps as tasks t0 + 1, ...: each title
   *  maps to the last id stored under it. */
  function TitleIds(m: map<string, Id>, t0: nat, ps: seq<Placed>): map<string, Id> {
    if ps == [] then m
    else TitleIds(m, t0, ps[..|ps| - 1])[ps[|ps| - 1].task.title := t0 + |ps|]
  }

  lemma {:induction false} TitleIdsAppend(m: map<string, Id>, t0: nat, a: seq<Placed>, b: seq<Placed>)
    ensures TitleIds(m, t0, a + b) == TitleIds(TitleIds(m, t0, a), t0 + |a|, b)
    decreases |b|
  {
    if b == [] {
      assert a + b == a;
    } else {
      var b' := b[..|b| - 1];
      TitleIdsAppend(m, t0, a, b');
      assert (a + b)[..|a + b| - 1] == a + b';
    }
  }

  /** The index of the last task of ps with the given title, -1 when
   *  there is none. */
  function LastWith(ps: seq<Placed>, title: string): (i: int)
    ensures -1 <= i < |ps|
    ensures i >= 0 ==> ps[i].task.title == title
    ensures forall j :: i < j < |ps| ==> ps[j].task.title != title
  {
    if ps == [] then -1
    else if ps[|ps| - 1].task.title == title then |ps| - 1
    else LastWith(ps[..|ps| - 1], title)
  }

  /** A title maps to the last task stored with exactly that title, and
   *  keeps its earlier id when no task of ps has it. */
  lemma {:induction false} TitleIdsLastWins(m: map<string, Id>, t0: nat, ps: seq<Placed>, title: string)
    ensures var r := TitleIds(m, t0, ps);
      && (title in r <==> title in m || LastWith(ps, title) >= 0)
      && (LastWith(ps, title) >= 0 ==> r[title] == t0 + LastWith(ps, title) + 1)
      && (LastWith(ps, title) < 0 && title in m ==> r[title] == m[title])
  {
    if ps != [] {
      TitleIdsLastWins(m, t0, ps[..|ps| - 1], title);
    }
  }

  /** An entry of `deferredDeps`: a new task and the titles it depends on. */
  datatype Deferred = Deferred(taskId: Id, titles: seq<string>)

  /** The deferred entries for ps stored as tasks t0 + 1, ...: one for each
   *  task that names dependencies, in creation order. */
  function DeferredOf(t0: nat, ps: seq<Placed>): seq<Deferred> {
    if ps == [] then []
    else DeferredOf(t0, ps[..|ps| - 1])
         + (if ps[|ps| - 1].task.dependsOnTitles != [] then [Deferred(t0 + |ps|, ps[|ps| - 1].task.dependsOnTitles)] else [])
  }

  lemma {:induction false} DeferredAppend(t0: nat, a: seq<Placed>, b: seq<Placed>)
    ensures DeferredOf(t0, a + b) == DeferredOf(t0, a) + DeferredOf(t0 + |a|, b)
    decreases |b|
  {
    if b == [] {
      assert a + b == a;
    } else {
      var b' := b[..|b| - 1];
      DeferredAppend(t0, a, b');
      assert (a + b)[..|a + b| - 1] == a + b';
    }
  }

  /** Every deferred entry names one of the tasks t0 + 1 .. t0 + |ps|. */
  lemma {:induction false} DeferredWithin(t0: nat, ps: seq<Placed>)
    ensures forall d :: d in DeferredOf(t0, ps) ==> t0 < d.taskId <= t0 + |ps| && d.titles != []
  {
    if ps != [] {
      DeferredWithin(t0, ps[..|ps| - 1]);
      var last := if ps[|ps| - 1].task.dependsOnTitles != [] then [Deferred(t0 + |ps|, ps[|ps| - 1].task.dependsOnTitles)] else [];
      assert DeferredOf(t0, ps) == DeferredOf(t0, ps[..|ps| - 1]) + last;
      forall d | d in DeferredOf(t0, ps) ensures t0 < d.taskId <= t0 + |ps| && d.titles != [] {
        if d !in DeferredOf(t0, ps[..|ps| - 1]) {
          assert d in last;
        }
      }
    }
  }

  lemma {:induction false} TitleIdsWithin(m: map<string, Id>, t0: nat, ps: seq<Placed>, n: nat)
    requires t0 + |ps| <= n
    requires forall x :: x in m ==> 1 <= m[x] <= n
    ensures forall x :: x in TitleIds(m, t0, ps) ==> 1 <= TitleIds(m, t0, ps)[x] <= n
  {
    if ps != [] {
      TitleIdsWithin(m, t0, ps[..|ps| - 1], n);
      var prev := TitleIds(m, t0, ps[..|ps| - 1]);
      var r := prev[ps[|ps| - 1].task.title := t0 + |ps|];
      forall x | x in r ensures 1 <= r[x] <= n {
        if x == ps[|ps| - 1].task.title {
          assert r[x] == t0 + |ps|;
        } else {
          assert x in prev && r[x] == prev[x];
        }
      }
      assert TitleIds(m, t0, ps) == r;
    }
  }

  function FeatureRows(f0: nat, epicId: Id, fs: seq<AnalysisFeature>): (r: seq<Feature>)
    ensures |r| == |fs|
  {
    seq(|fs|, i requires 0 <= i < |fs| => Feature(f0 + i + 1, epicId, fs[i].title, fs[i].description, fs[i].acceptanceCriteria))
  }

  /** Feature row i is feature f0 + i + 1 of the epic, made from fs[i]. */
  lemma FeatureRowsAt(f0: nat, epicId: Id, fs: seq<AnalysisFeature>)
    ensures forall i :: 0 <= i < |fs| ==>
      FeatureRows(f0, epicId, fs)[i] == Feature(f0 + i + 1, epicId, fs[i].title, fs[i].description, fs[i].acceptanceCriteria)
  {
  }

  /** The feature rows of all epics, stored as epics e0 + 1, ... */
  function EpicFeatureRows(e0: nat, f0: nat, es: seq<AnalysisEpic>): seq<Feature> {
    if es == [] then []
    else EpicFeatureRows(e0, f0, es[..|es| - 1])
         + FeatureRows(f0 + FeatureCount(es[..|es| - 1]), e0 + |es|, es[|es| - 1].features)
  }

  /** The epic rows: each epic's order is its index in the analysis. */
  function EpicRows(e0: nat, projectId: Id, es: seq<AnalysisEpic>): (r: seq<Epic>)
    ensures |r| == |es|
  {
    seq(|es|, i requires 0 <= i < |es| => Epic(e0 + i + 1, projectId, es[i].title, es[i].description, i))
  }

  /** Epic row i is epic e0 + i + 1, made from es[i], with order i. */
  lemma EpicRowsAt(e0: nat, projectId: Id, es: seq<AnalysisEpic>)
    ensures forall i :: 0 <= i < |es| ==> EpicRows(e0, projectId, es)[i] == Epic(e0 + i + 1, projectId, es[i].title, es[i].description, i)
  {
  }

  // ---- persisting ----

  /** The state a persisting step threads through: `taskTitleToId` and
   *  `deferredDeps`. */
  datatype Pending = Pending(titles: map<string, Id>, deferred: seq<Deferred>)

  function After(p: Pending, t0: nat, ps: seq<Placed>): Pending {
    Pending(TitleIds(p.titles, t0, ps), p.deferred + DeferredOf(t0, ps))
  }

  lemma AfterAppend(p: Pending, t0: nat, a: seq<Placed>, b: seq<Placed>)
    ensures After(p, t0, a + b) == After(After(p, t0, a), t0 + |a|, b)
  {
    TitleIdsAppend(p.titles, t0, a, b);
    DeferredAppend(t0, a, b);
  }

  /** A single task: its row, its place in the map and, when it names
   *  dependencies, its deferred entry. */
  lemma SingleStep(n: nat, featureId: Id, t: AnalysisTask, p: Pending)
    ensures Rows(n, [Placed(featureId, t)]) == [RowFor(n + 1, featureId, t)]
    ensures After(p, n, [Placed(featureId, t)])
         == Pending(p.titles[t.title := n + 1],
                    if t.dependsOnTitles != [] then p.deferred + [Deferred(n + 1, t.dependsOnTitles)] else p.deferred)
  {
    var ps := [Placed(featureId, t)];
    RowsAt(n, ps);
    assert ps[..0] == [];
    assert TitleIds(p.titles, n, ps) == p.titles[t.title := n + 1];
    var d := if t.dependsOnTitles != [] then [Deferred(n + 1, t.dependsOnTitles)] else [];
    assert DeferredOf(n, ps) == d;
    assert p.deferred + d == if t.dependsOnTitles != [] then p.deferred + [Deferred(n + 1, t.dependsOnTitles)] else p.deferred;
  }

  lemma PlaceTasksStep(featureId: Id, ts: seq<AnalysisTask>, k: nat)
    requires k < |ts|
    ensures PlaceTasks(featureId, ts)[..k + 1] == PlaceTasks(featureId, ts)[..k] + [Placed(featureId, ts[k])]
  {
  }

  /** Storing more after done: the rows and the pending state are those
   *  of done + more. */
  lemma StateStep(tasks0: seq<DevTask>, done: seq<Placed>, more: seq<Placed>, full: seq<Placed>,
                  pending: Pending, tasks: seq<DevTask>, p: Pending)
    requires full == done + more
    requires tasks == tasks0 + Rows(|tasks0|, done) && p == After(pending, |tasks0|, done)
    ensures tasks + Rows(|tasks|, more) == tasks0 + Rows(|tasks0|, full)
    ensures After(p, |tasks|, more) == After(pending, |tasks0|, full)
  {
    RowsAppend(|tasks0|, done, more);
    AfterAppend(pending, |tasks0|, done, more);
  }

  lemma PlaceFeaturesStep(f0: nat, fs: seq<AnalysisFeature>, j: nat)
    requires j < |fs|
    ensures PlaceFeatures(f0, fs[..j + 1]) == PlaceFeatures(f0, fs[..j]) + PlaceTasks(f0 + j + 1, fs[j].tasks)
  {
    assert fs[..j + 1][..j] == fs[..j];
  }

  /** One feature row more. */
  lemma FeatureRowsStep(features0: seq<Feature>, epicId: Id, fs: seq<AnalysisFeature>, j: nat, features: seq<Feature>)
    requires j < |fs| && features == features0 + FeatureRows(|features0|, epicId, fs[..j])
    ensures |features| == |features0| + j
    ensures features + [Feature(|features| + 1, epicId, fs[j].title, fs[j].description, fs[j].acceptanceCriteria)]
         == features0 + FeatureRows(|features0|, epicId, fs[..j + 1])
  {
    FeatureRowsAt(|features0|, epicId, fs[..j + 1]);
    FeatureRowsAt(|features0|, epicId, fs[..j]);
  }

  /** One epic row more. */
  lemma EpicRowsStep(epics0: seq<Epic>, projectId: Id, es: seq<AnalysisEpic>, i: nat, epics: seq<Epic>)
    requires i < |es| && epics == epics0 + EpicRows(|epics0|, projectId, es[..i])
    ensures |epics| == |epics0| + i
    ensures epics + [Epic(|epics| + 1, projectId, es[i].title, es[i].description, i)]
         == epics0 + EpicRows(|epics0|, projectId, es[..i + 1])
  {
    EpicRowsAt(|epics0|, projectId, es[..i + 1]);
    EpicRowsAt(|epics0|, projectId, es[..i]);
  }

  /** One epic's feature rows more. */
  lemma EpicFeatureStep(features0: seq<Feature>, e0: nat, es: seq<AnalysisEpic>, i: nat, epicId: Id, features: seq<Feature>)
    requires i < |es| && epicId == e0 + i + 1
    requires features == features0 + EpicFeatureRows(e0, |features0|, es[..i])
    requires |features| == |features0| + FeatureCount(es[..i])
    ensures features + FeatureRows(|features|, epicId, es[i].features)
         == features0 + EpicFeatureRows(e0, |features0|, es[..i + 1])
    ensures |features| + |es[i].features| == |features0| + FeatureCount(es[..i + 1])
  {
    assert es[..i + 1][..i] == es[..i];
  }

  lemma PlaceEpicsStep(f0: nat, es: seq<AnalysisEpic>, i: nat, fAt: nat)
    requires i < |es| && fAt == f0 + FeatureCount(es[..i])
    ensures PlaceEpics(f0, es[..i + 1]) == PlaceEpics(f0, es[..i]) + PlaceFeatures(fAt, es[i].features)
  {
    assert es[..i + 1][..i] == es[..i];
  }

  /** Lines 145-155: `createTask` with the normalised values; no key check
   *  can fail, since the feature exists and no dependencies are passed.
   *  Column lengths are not modelled. */
  method CreateRow(store: Store, featureId: Id, t: AnalysisTask) returns (id: Id)
    requires store.Valid() && store.HasFeature(featureId)
    modifies store
    ensures store.Valid()
    ensures id == |old(store.tasks)| + 1
    ensures store.tasks == old(store.tasks) + [RowFor(id, featureId, t)]
    ensures store.projects == old(store.projects) && store.epics == old(store.epics) && store.features == old(store.features)
    ensures store.dependencies == old(store.dependencies)
    ensures store.transitions == old(store.transitions) && store.outputs == old(store.outputs)
  {
    var created := store.CreateTask(featureId, t.title, t.description, CategoryOf(t.category),
                                    PriorityOf(t.priority), Clamp(t.estimatedComplexity), []);
    id := created.value.id;
  }

  /** Lines 145-159: one task row, recorded under its title and, when it
   *  names dependencies, in the deferred list. */
  method PersistTask(store: Store, featureId: Id, t: AnalysisTask, p: Pending) returns (r: Pending)
    requires store.Valid() && store.HasFeature(featureId)
    modifies store
    ensures store.Valid() && store.HasFeature(featureId)
    ensures store.tasks == old(store.tasks) + Rows(|old(store.tasks)|, [Placed(featureId, t)])
    ensures r == After(p, |old(store.tasks)|, [Placed(featureId, t)])
    ensures store.projects == old(store.projects) && store.epics == old(store.epics) && store.features == old(store.features)
    ensures store.dependencies == old(store.dependencies)
    ensures store.transitions == old(store.transitions) && store.outputs == old(store.outputs)
  {
    SingleStep(|store.tasks|, featureId, t, p);
    var id := CreateRow(store, featureId, t);
    r := Pending(p.titles[t.title := id],
                 if t.dependsOnTitles != [] then p.deferred + [Deferred(id, t.dependsOnTitles)] else p.deferred);
  }

  /** Lines 144-160: store the tasks of one feature. */
  method PersistTasks(store: Store, featureId: Id, ts: seq<AnalysisTask>, pending: Pending) returns (r: Pending)
    requires store.Valid() && store.HasFeature(featureId)
    modifies store
    ensures store.Valid()
    ensures store.tasks == old(store.tasks) + Rows(|old(store.tasks)|, PlaceTasks(featureId, ts))
    ensures r == After(pending, |old(store.tasks)|, PlaceTasks(featureId, ts))
    ensures store.projects == old(store.projects) && store.epics == old(store.epics) && store.features == old(store.features)
    ensures store.dependencies == old(store.dependencies)
    ensures store.transitions == old(store.transitions) && store.outputs == old(store.outputs)
  {
    ghost var tasks0 := store.tasks;
    ghost var all := PlaceTasks(featureId, ts);
    r := pending;
    var k := 0;
    while k < |ts|
      invariant 0 <= k <= |ts|
      invariant store.Valid() && store.HasFeature(featureId)
      invariant store.tasks == tasks0 + Rows(|tasks0|, all[..k])
      invariant r == After(pending, |tasks0|, all[..k])
      invariant store.projects == old(store.projects) && store.epics == old(store.epics) && store.features == old(store.features)
      invariant store.dependencies == old(store.dependencies)
      invariant store.transitions == old(store.transitions) && store.outputs == old(store.outputs)
    {
      ghost var tasks, p := store.tasks, r;
      r := PersistTask(store, featureId, ts[k], r);
      PlaceTasksStep(featureId, ts, k);
      StateStep(tasks0, all[..k], [Placed(featureId, ts[k])], all[..k + 1], pending, tasks, p);
      k := k + 1;
    }
    assert all[..k] == all;
  }

  /** Lines 137-160: one feature row, then its tasks. */
  method PersistFeature(store: Store, epicId: Id, f: AnalysisFeature, pending: Pending) returns (r: Pending)
    requires store.Valid() && store.HasEpic(epicId)
    modifies store
    ensures store.Valid() && store.HasEpic(epicId)
    ensures var id := |old(store.features)| + 1;
      && store.features == old(store.features) + [Feature(id, epicId, f.title, f.description, f.acceptanceCriteria)]
      && store.tasks == old(store.tasks) + Rows(|old(store.tasks)|, PlaceTasks(id, f.tasks))
      && r == After(pending, |old(store.tasks)|, PlaceTasks(id, f.tasks))
    ensures store.projects == old(store.projects) && store.epics == old(store.epics)
    ensures store.dependencies == old(store.dependencies)
    ensures store.transitions == old(store.transitions) && store.outputs == old(store.outputs)
  {
    var created := store.CreateFeature(epicId, f.title, f.description, f.acceptanceCriteria);
    r := PersistTasks(store, created.value.id, f.tasks, pending);
  }

  /** Lines 128-162: one epic row, then its features and their tasks. */
  method PersistEpic(store: Store, projectId: Id, e: AnalysisEpic, order: nat, pending: Pending) returns (r: Pending)
    requires store.Valid() && store.HasProject(projectId)
    modifies store
    ensures store.Valid() && store.HasProject(projectId)
    ensures var id, f0 := |old(store.epics)| + 1, |old(store.features)|;
      && store.epics == old(store.epics) + [Epic(id, projectId, e.title, e.description, order)]
      && store.features == old(store.features) + FeatureRows(f0, id, e.features)
      && store.tasks == old(store.tasks) + Rows(|old(store.tasks)|, PlaceFeatures(f0, e.features))
      && r == After(pending, |old(store.tasks)|, PlaceFeatures(f0, e.features))
    ensures store.projects == old(store.projects) && store.dependencies == old(store.dependencies)
    ensures store.transitions == old(store.transitions) && store.outputs == old(store.outputs)
  {
    var created := store.CreateEpic(projectId, e.title, e.description, order);
    r := PersistFeatures(store, created.value.id, e.features, pending);
  }

  /** Feature j of fs, stored after features 0 .. j - 1 and their tasks. */
  method PersistFeatureAt(store: Store, epicId: Id, fs: seq<AnalysisFeature>, j: nat, pending: Pending,
                          ghost tasks0: seq<DevTask>, ghost features0: seq<Feature>, p: Pending)
    returns (r: Pending)
    requires j < |fs| && store.Valid() && store.HasEpic(epicId)
    requires store.features == features0 + FeatureRows(|features0|, epicId, fs[..j])
    requires store.tasks == tasks0 + Rows(|tasks0|, PlaceFeatures(|features0|, fs[..j]))
    requires p == After(pending, |tasks0|, PlaceFeatures(|features0|, fs[..j]))
    modifies store
    ensures store.Valid() && store.HasEpic(epicId)
    ensures store.features == features0 + FeatureRows(|features0|, epicId, fs[..j + 1])
    ensures store.tasks == tasks0 + Rows(|tasks0|, PlaceFeatures(|features0|, fs[..j + 1]))
    ensures r == After(pending, |tasks0|, PlaceFeatures(|features0|, fs[..j + 1]))
    ensures store.projects == old(store.projects) && store.epics == old(store.epics)
    ensures store.dependencies == old(store.dependencies)
    ensures store.transitions == old(store.transitions) && store.outputs == old(store.outputs)
  {
    ghost var tasks, features := store.tasks, store.features;
    r := PersistFeature(store, epicId, fs[j], p);
    FeatureRowsStep(features0, epicId, fs, j, features);
    PlaceFeaturesStep(|features0|, fs, j);
    StateStep(tasks0, PlaceFeatures(|features0|, fs[..j]), PlaceTasks(|features| + 1, fs[j].tasks),
              PlaceFeatures(|features0|, fs[..j + 1]), pending, tasks, p);
  }

  /** Lines 136-161: store the features of one epic and their tasks. */
  method PersistFeatures(store: Store, epicId: Id, fs: seq<AnalysisFeature>, pending: Pending) returns (r: Pending)
    requires store.Valid() && store.HasEpic(epicId)
    modifies store
    ensures store.Valid()
    ensures store.features == old(store.features) + FeatureRows(|old(store.features)|, epicId, fs)
    ensures store.tasks == old(store.tasks) + Rows(|old(store.tasks)|, PlaceFeatures(|old(store.features)|, fs))
    ensures r == After(pending, |old(store.tasks)|, PlaceFeatures(|old(store.features)|, fs))
    ensures store.projects == old(store.projects) && store.epics == old(store.epics)
    ensures store.dependencies == old(store.dependencies)
    ensures store.transitions == old(store.transitions) && store.outputs == old(store.outputs)
  {
    ghost var t0, f0 := |store.tasks|, |store.features|;
    ghost var tasks0, features0 := store.tasks, store.features;
    r := pending;
    var j := 0;
    while j < |fs|
      invariant 0 <= j <= |fs|
      invariant store.Valid() && store.HasEpic(epicId)
      invariant store.features == features0 + FeatureRows(f0, epicId, fs[..j])
      invariant store.tasks == tasks0 + Rows(t0, PlaceFeatures(f0, fs[..j]))
      invariant r == After(pending, t0, PlaceFeatures(f0, fs[..j]))
      invariant store.projects == old(store.projects) && store.epics == old(store.epics)
      invariant store.dependencies == old(store.dependencies)
      invariant store.transitions == old(store.transitions) && store.outputs == old(store.outputs)
    {
      r := PersistFeatureAt(store, epicId, fs, j, pending, tasks0, features0, r);
      j := j + 1;
    }
    assert fs[..j] == fs;
  }

  /** Epic i of es, stored after epics 0 .. i - 1 and everything under
   *  them. */
  method PersistEpicAt(store: Store, projectId: Id, es: seq<AnalysisEpic>, i: nat, pending: Pending,
                       ghost tasks0: seq<DevTask>, ghost features0: seq<Feature>, ghost epics0: seq<Epic>, p: Pending)
    returns (r: Pending)
    requires i < |es| && store.Valid() && store.HasProject(projectId)
    requires store.epics == epics0 + EpicRows(|epics0|, projectId, es[..i])
    requires store.features == features0 + EpicFeatureRows(|epics0|, |features0|, es[..i])
    requires |store.features| == |features0| + FeatureCount(es[..i])
    requires store.tasks == tasks0 + Rows(|tasks0|, PlaceEpics(|features0|, es[..i]))
    requires p == After(pending, |tasks0|, PlaceEpics(|features0|, es[..i]))
    modifies store
    ensures store.Valid() && store.HasProject(projectId)
    ensures store.epics == epics0 + EpicRows(|epics0|, projectId, es[..i + 1])
    ensures store.features == features0 + EpicFeatureRows(|epics0|, |features0|, es[..i + 1])
    ensures |store.features| == |features0| + FeatureCount(es[..i + 1])
    ensures store.tasks == tasks0 + Rows(|tasks0|, PlaceEpics(|features0|, es[..i + 1]))
    ensures r == After(pending, |tasks0|, PlaceEpics(|features0|, es[..i + 1]))
    ensures store.projects == old(store.projects) && store.dependencies == old(store.dependencies)
    ensures store.transitions == old(store.transitions) && store.outputs == old(store.outputs)
  {
    ghost var tasks, features, epics := store.tasks, store.features, store.epics;
    ghost var f1 := |features|;
    r := PersistEpic(store, projectId, es[i], i, p);
    ghost var placed := PlaceFeatures(f1, es[i].features);
    assert store.tasks == tasks + Rows(|tasks|, placed) && r == After(p, |tasks|, placed);
    assert store.features == features + FeatureRows(f1, |epics| + 1, es[i].features);
    EpicRowsStep(epics0, projectId, es, i, epics);
    EpicFeatureStep(features0, |epics0|, es, i, |epics| + 1, features);
    PlaceEpicsStep(|features0|, es, i, |features|);
    StateStep(tasks0, PlaceEpics(|features0|, es[..i]), PlaceFeatures(|features|, es[i].features),
              PlaceEpics(|features0|, es[..i + 1]), pending, tasks, p);
  }

  /** Lines 128-163: store the epics, ordered by their index, with their
   *  features and tasks. */
  method PersistEpics(store: Store, projectId: Id, es: seq<AnalysisEpic>, pending: Pending) returns (r: Pending)
    requires store.Valid() && store.HasProject(projectId)
    modifies store
    ensures store.Valid()
    ensures store.epics == old(store.epics) + EpicRows(|old(store.epics)|, projectId, es)
    ensures store.features == old(store.features) + EpicFeatureRows(|old(store.epics)|, |old(store.features)|, es)
    ensures store.tasks == old(store.tasks) + Rows(|old(store.tasks)|, PlaceEpics(|old(store.features)|, es))
    ensures r == After(pending, |old(store.tasks)|, PlaceEpics(|old(store.features)|, es))
    ensures store.projects == old(store.projects) && store.dependencies == old(store.dependencies)
    ensures store.transitions == old(store.transitions) && store.outputs == old(store.outputs)
  {
    ghost var t0, f0, e0 := |store.tasks|, |store.features|, |store.epics|;
    ghost var tasks0, features0, epics0 := store.tasks, store.features, store.epics;
    r := pending;
    var i := 0;
    while i < |es|
      invariant 0 <= i <= |es|
      invariant store.Valid() && store.HasProject(projectId)
      invariant store.epics == epics0 + EpicRows(e0, projectId, es[..i])
      invariant store.features == features0 + EpicFeatureRows(e0, f0, es[..i])
      invariant |store.features| == f0 + FeatureCount(es[..i])
      invariant store.tasks == tasks0 + Rows(t0, PlaceEpics(f0, es[..i]))
      invariant r == After(pending, t0, PlaceEpics(f0, es[..i]))
      invariant store.projects == old(store.projects) && store.dependencies == old(store.dependencies)
      invariant store.transitions == old(store.transitions) && store.outputs == old(store.outputs)
    {
      r := PersistEpicAt(store, projectId, es, i, pending, tasks0, features0, epics0, r);
      i := i + 1;
    }
    assert es[..i] == es;
  }

  // ---- resolving dependencies ----

  /** The edges one deferred entry resolves to: one per title that has a
   *  task, in title order; unknown titles are skipped. */
  function EdgesOf(taskId: Id, titles: seq<string>, m: map<string, Id>): seq<Edge> {
    if titles == [] then []
    else EdgesOf(taskId, titles[..|titles| - 1], m)
         + (if titles[|titles| - 1] in m then [Edge(taskId, m[titles[|titles| - 1]])] else [])
  }

  /** All edges the deferred entries resolve to, in order. */
  function Resolved(ds: seq<Deferred>, m: map<string, Id>): seq<Edge> {
    if ds == [] then []
    else Resolved(ds[..|ds| - 1], m) + EdgesOf(ds[|ds| - 1].taskId, ds[|ds| - 1].titles, m)
  }

  /** A title that resolves gives its edge; one that does not gives none. */
  lemma {:induction false} EdgesOfExact(taskId: Id, titles: seq<string>, m: map<string, Id>, e: Edge)
    ensures e in EdgesOf(taskId, titles, m) <==>
      e.taskId == taskId && exists i :: 0 <= i < |titles| && titles[i] in m && m[titles[i]] == e.dependsOnTaskId
  {
    if titles != [] {
      var init := titles[..|titles| - 1];
      EdgesOfExact(taskId, init, m, e);
      if exists i :: 0 <= i < |init| && init[i] in m && m[init[i]] == e.dependsOnTaskId {
        var i :| 0 <= i < |init| && init[i] in m && m[init[i]] == e.dependsOnTaskId;
        assert titles[i] == init[i];
      }
      if exists i :: 0 <= i < |titles| && titles[i] in m && m[titles[i]] == e.dependsOnTaskId {
        var i :| 0 <= i < |titles| && titles[i] in m && m[titles[i]] == e.dependsOnTaskId;
        if i < |init| {
          assert init[i] == titles[i];
        }
      }
    }
  }

  /** Every resolved edge joins tasks 1 .. n. */
  predicate ResolvableWithin(ds: seq<Deferred>, m: map<string, Id>, n: nat) {
    (forall i :: 0 <= i < |ds| ==> 1 <= ds[i].taskId <= n) && (forall x :: x in m ==> 1 <= m[x] <= n)
  }

  /** Lines 166-175 for one entry: add an edge for every title that has a
   *  task. A repeated edge breaks the primary key: the insert throws and
   *  the exception escapes. */
  method ResolveEntry(store: Store, d: Deferred, m: map<string, Id>) returns (r: Result<(), StoreError>)
    requires store.Valid() && 1 <= d.taskId <= |store.tasks| && forall x :: x in m ==> 1 <= m[x] <= |store.tasks|
    modifies store
    ensures store.Valid()
    ensures r.Ok? <==> NoDuplicates(old(store.dependencies) + EdgesOf(d.taskId, d.titles, m))
    ensures r.Ok? ==> store.dependencies == old(store.dependencies) + EdgesOf(d.taskId, d.titles, m)
    ensures r.Err? ==> StoppedAtRepeat(old(store.dependencies), EdgesOf(d.taskId, d.titles, m), store.dependencies)
    ensures r.Err? ==> r.error == ConstraintViolation("task_dependencies")
    ensures store.projects == old(store.projects) && store.epics == old(store.epics) && store.features == old(store.features)
    ensures store.tasks == old(store.tasks) && store.transitions == old(store.transitions) && store.outputs == old(store.outputs)
  {
    ghost var deps0 := store.dependencies;
    var j := 0;
    while j < |d.titles|
      invariant 0 <= j <= |d.titles|
      invariant store.Valid() && |store.tasks| == old(|store.tasks|)
      invariant store.dependencies == deps0 + EdgesOf(d.taskId, d.titles[..j], m)
      invariant store.projects == old(store.projects) && store.epics == old(store.epics) && store.features == old(store.features)
      invariant store.tasks == old(store.tasks) && store.transitions == old(store.transitions) && store.outputs == old(store.outputs)
    {
      var title := d.titles[j];
      EdgesOfStep(d.taskId, d.titles, j, m);
      if title in m {
        var added := store.AddDependency(d.taskId, m[title]);
        if added.Err? {
          EdgesOfFailure(deps0, d.taskId, d.titles, j, m);
          EdgesOfStopped(deps0, d.taskId, d.titles, j, m);
          return Err(added.error);
        }
      }
      j := j + 1;
    }
    assert d.titles[..j] == d.titles;
    return Ok(());
  }

  /** One more title adds its edge, when it has a task, at the end. */
  lemma EdgesOfStep(taskId: Id, titles: seq<string>, j: nat, m: map<string, Id>)
    requires j < |titles|
    ensures EdgesOf(taskId, titles[..j + 1], m) ==
      EdgesOf(taskId, titles[..j], m) + (if titles[j] in m then [Edge(taskId, m[titles[j]])] else [])
  {
    assert titles[..j + 1][..j] == titles[..j];
  }

  /** An edge of title j already present repeats in the full list. */
  lemma EdgesOfFailure(deps0: seq<Edge>, taskId: Id, titles: seq<string>, j: nat, m: map<string, Id>)
    requires j < |titles| && titles[j] in m
    requires Edge(taskId, m[titles[j]]) in deps0 + EdgesOf(taskId, titles[..j], m)
    ensures !NoDuplicates(deps0 + EdgesOf(taskId, titles, m))
  {
    EdgesOfStep(taskId, titles, j, m);
    EdgesOfPrefix(taskId, titles, j + 1, m);
    PrefixAfter(deps0, EdgesOf(taskId, titles[..j + 1], m), EdgesOf(taskId, titles, m));
    DuplicateSpreads(deps0 + EdgesOf(taskId, titles[..j], m), Edge(taskId, m[titles[j]]), deps0 + EdgesOf(taskId, titles, m));
  }

  /** Title j's edge already stored stops the entry there. */
  lemma EdgesOfStopped(deps0: seq<Edge>, taskId: Id, titles: seq<string>, j: nat, m: map<string, Id>)
    requires j < |titles| && titles[j] in m
    requires Edge(taskId, m[titles[j]]) in deps0 + EdgesOf(taskId, titles[..j], m)
    ensures StoppedAtRepeat(deps0, EdgesOf(taskId, titles, m), deps0 + EdgesOf(taskId, titles[..j], m))
  {
    var pre, e := EdgesOf(taskId, titles[..j], m), Edge(taskId, m[titles[j]]);
    EdgesOfStep(taskId, titles, j, m);
    EdgesOfPrefix(taskId, titles, j + 1, m);
    assert [e][..0] == [] && deps0 + pre == deps0 + pre + [e][..0];
    assert StoppedAtRepeat(deps0 + pre, [e], deps0 + pre);
    StoppedWithin(deps0, pre, [e], EdgesOf(taskId, titles, m), deps0 + pre);
  }

  lemma {:induction false} EdgesOfPrefix(taskId: Id, titles: seq<string>, j: nat, m: map<string, Id>)
    requires j <= |titles|
    ensures EdgesOf(taskId, titles[..j], m) <= EdgesOf(taskId, titles, m)
    decreases |titles| - j
  {
    if j < |titles| {
      EdgesOfPrefix(taskId, titles[..|titles| - 1], j, m);
      assert titles[..|titles| - 1][..j] == titles[..j];
    } else {
      assert titles[..j] == titles;
    }
  }

  lemma PrefixAfter<T>(c: seq<T>, a: seq<T>, b: seq<T>)
    requires a <= b
    ensures c + a <= c + b
  {
    assert c + b == (c + a) + b[|a|..];
  }

  /** An edge added again to a list that holds it repeats in every longer
   *  list. */
  lemma DuplicateSpreads(deps: seq<Edge>, e: Edge, full: seq<Edge>)
    requires e in deps && deps + [e] <= full
    ensures !NoDuplicates(full)
  {
    var i :| 0 <= i < |deps| && deps[i] == e;
    assert full[i] == e && full[|deps|] == e;
  }

  /** The inserts of `es` after `deps0` stopped at the first repeat: the
   *  edges before it are stored, and the next one was already there. */
  predicate StoppedAtRepeat(deps0: seq<Edge>, es: seq<Edge>, deps: seq<Edge>) {
    exists k :: 0 <= k < |es| && deps == deps0 + es[..k] && es[k] in deps
  }

  /** A stop within `es`, run after the edges `pre`, is a stop within any
   *  list that starts with `pre + es`. */
  lemma StoppedWithin(deps0: seq<Edge>, pre: seq<Edge>, es: seq<Edge>, full: seq<Edge>, deps: seq<Edge>)
    requires pre + es <= full && StoppedAtRepeat(deps0 + pre, es, deps)
    ensures StoppedAtRepeat(deps0, full, deps)
  {
    var k :| 0 <= k < |es| && deps == deps0 + pre + es[..k] && es[k] in deps;
    assert full[..|pre| + k] == pre + es[..k] by {
      assert full[..|pre| + |es|] == pre + es;
    }
    assert full[|pre| + k] == (pre + es)[|pre| + k] == es[k];
    assert deps == deps0 + full[..|pre| + k];
  }

  /** Lines 166-175: resolve every deferred entry in order; the first
   *  repeated edge throws and ends the resolution. */
  method ResolveDependencies(store: Store, ds: seq<Deferred>, m: map<string, Id>) returns (r: Result<(), StoreError>)
    requires store.Valid() && ResolvableWithin(ds, m, |store.tasks|)
    modifies store
    ensures store.Valid()
    ensures r.Ok? <==> NoDuplicates(old(store.dependencies) + Resolved(ds, m))
    ensures r.Ok? ==> store.dependencies == old(store.dependencies) + Resolved(ds, m)
    ensures r.Err? ==> StoppedAtRepeat(old(store.dependencies), Resolved(ds, m), store.dependencies)
    ensures r.Err? ==> r.error == ConstraintViolation("task_dependencies")
    ensures store.projects == old(store.projects) && store.epics == old(store.epics) && store.features == old(store.features)
    ensures store.tasks == old(store.tasks) && store.transitions == old(store.transitions) && store.outputs == old(store.outputs)
  {
    ghost var deps0 := store.dependencies;
    var i := 0;
    while i < |ds|
      invariant 0 <= i <= |ds|
      invariant store.Valid() && |store.tasks| == old(|store.tasks|)
      invariant store.dependencies == deps0 + Resolved(ds[..i], m)
      invariant store.projects == old(store.projects) && store.epics == old(store.epics) && store.features == old(store.features)
      invariant store.tasks == old(store.tasks) && store.transitions == old(store.transitions) && store.outputs == old(store.outputs)
    {
      ResolvedStep(ds, i, m);
      var entry := ResolveEntry(store, ds[i], m);
      if entry.Err? {
        ResolvedFailure(deps0, ds, i, m);
        ResolvedPrefix(ds, i, m);
        StoppedWithin(deps0, Resolved(ds[..i], m), EdgesOf(ds[i].taskId, ds[i].titles, m), Resolved(ds, m), store.dependencies);
        return Err(entry.error);
      }
      i := i + 1;
    }
    assert ds[..i] == ds;
    return Ok(());
  }

  /** One more entry resolved adds its edges at the end. */
  lemma ResolvedStep(ds: seq<Deferred>, i: nat, m: map<string, Id>)
    requires i < |ds|
    ensures Resolved(ds[..i + 1], m) == Resolved(ds[..i], m) + EdgesOf(ds[i].taskId, ds[i].titles, m)
  {
    assert ds[..i + 1][..i] == ds[..i];
  }

  /** A repeated edge among the first i + 1 entries repeats in all of them. */
  lemma ResolvedFailure(deps0: seq<Edge>, ds: seq<Deferred>, i: nat, m: map<string, Id>)
    requires i < |ds|
    ensures NoDuplicates(deps0 + Resolved(ds, m)) ==>
      NoDuplicates(deps0 + Resolved(ds[..i], m) + EdgesOf(ds[i].taskId, ds[i].titles, m))
  {
    ResolvedPrefix(ds, i, m);
    ResolvedStep(ds, i, m);
    var part := deps0 + Resolved(ds[..i], m) + EdgesOf(ds[i].taskId, ds[i].titles, m);
    assert part == deps0 + Resolved(ds[..i + 1], m);
    PrefixAfter(deps0, Resolved(ds[..i + 1], m), Resolved(ds, m));
    if NoDuplicates(deps0 + Resolved(ds, m)) {
      NoDuplicatesPrefix(part, deps0 + Resolved(ds, m));
    }
  }

  lemma {:induction false} ResolvedPrefix(ds: seq<Deferred>, i: nat, m: map<string, Id>)
    requires i < |ds|
    ensures Resolved(ds[..i + 1], m) <= Resolved(ds, m)
    decreases |ds| - i
  {
    if i + 1 < |ds| {
      ResolvedPrefix(ds[..|ds| - 1], i, m);
      assert ds[..|ds| - 1][..i + 1] == ds[..i + 1];
    } else {
      assert ds[..i + 1] == ds;
    }
  }

  lemma NoDuplicatesPrefix<T>(a: seq<T>, b: seq<T>)
    requires a <= b && NoDuplicates(b)
    ensures NoDuplicates(a)
  {
    forall i, j | 0 <= i < j < |a| ensures a[i] != a[j] {
      assert a[i] == b[i] && a[j] == b[j];
    }
  }

  /** The dependency edges a breakdown adds when its tasks are stored as
   *  t0 + 1, ... and its features as f0 + 1, ...: every title resolves
   *  against the map of all titles. */
  function AnalysisEdges(t0: nat, f0: nat, result: AnalysisResult): seq<Edge> {
    var pending := After(Pending(map[], []), t0, PlaceEpics(f0, result.epics));
    Resolved(pending.deferred, pending.titles)
  }

  /** An edge is resolved exactly when one of the entries resolves to it. */
  lemma {:induction false} ResolvedExact(ds: seq<Deferred>, m: map<string, Id>, e: Edge)
    ensures e in Resolved(ds, m) <==> exists i :: 0 <= i < |ds| && e in EdgesOf(ds[i].taskId, ds[i].titles, m)
  {
    if ds != [] {
      var init := ds[..|ds| - 1];
      ResolvedExact(init, m, e);
      if exists i :: 0 <= i < |init| && e in EdgesOf(init[i].taskId, init[i].titles, m) {
        var i :| 0 <= i < |init| && e in EdgesOf(init[i].taskId, init[i].titles, m);
        assert ds[i] == init[i];
      }
      if exists i :: 0 <= i < |ds| && e in EdgesOf(ds[i].taskId, ds[i].titles, m) {
        var i :| 0 <= i < |ds| && e in EdgesOf(ds[i].taskId, ds[i].titles, m);
        if i < |init| {
          assert init[i] == ds[i];
        }
      }
    }
  }

  /** `persistAnalysis`: store the breakdown, then add the dependencies by
   *  title. Every title resolves against the full map, so a task may
   *  depend on one created after it; a title used twice resolves to the
   *  later task. */
  method PersistAnalysis(store: Store, projectId: Id, result: AnalysisResult) returns (r: Result<(), StoreError>)
    requires store.Valid() && store.HasProject(projectId)
    modifies store
    ensures store.Valid()
    ensures
      var edges := AnalysisEdges(|old(store.tasks)|, |old(store.features)|, result);
      && store.epics == old(store.epics) + EpicRows(|old(store.epics)|, projectId, result.epics)
      && store.features == old(store.features) + EpicFeatureRows(|old(store.epics)|, |old(store.features)|, result.epics)
      && store.tasks == old(store.tasks) + Rows(|old(store.tasks)|, PlaceEpics(|old(store.features)|, result.epics))
      && (r.Ok? <==> NoDuplicates(old(store.dependencies) + edges))
      && (r.Ok? ==> store.dependencies == old(store.dependencies) + edges)
      && (r.Err? ==> StoppedAtRepeat(old(store.dependencies), edges, store.dependencies))
    ensures r.Err? ==> r.error == ConstraintViolation("task_dependencies")
    ensures store.projects == old(store.projects)
    ensures store.transitions == old(store.transitions) && store.outputs == old(store.outputs)
  {
    ghost var t0 := |store.tasks|;
    var pending := PersistEpics(store, projectId, result.epics, Pending(map[], []));
    ghost var placed := PlaceEpics(|old(store.features)|, result.epics);
    DeferredWithin(t0, placed);
    TitleIdsWithin(map[], t0, placed, |store.tasks|);
    assert pending.deferred == DeferredOf(t0, placed);
    assert |store.tasks| == t0 + |placed|;
    assert forall i :: 0 <= i < |pending.deferred| ==> pending.deferred[i] in DeferredOf(t0, placed);
    r := ResolveDependencies(store, pending.deferred, pending.titles);
  }

  /** `analyze`: decode the reply (the fallback breakdown when it does not
   *  decode), store it and return it. The chat call is left out: its reply
   *  is the parameter. A repeated dependency edge escapes as the store's
   *  error. */
  method Analyze(store: Store, projectId: Id, reply: string, decode: string -> Option<AnalysisResult>)
    returns (r: Result<AnalysisResult, StoreError>)
    requires store.Valid() && store.HasProject(projectId)
    modifies store
    ensures store.Valid()
    ensures
      var result := ParseAnalysisResponse(reply, decode);
      var edges := AnalysisEdges(|old(store.tasks)|, |old(store.features)|, result);
      && store.epics == old(store.epics) + EpicRows(|old(store.epics)|, projectId, result.epics)
      && store.features == old(store.features) + EpicFeatureRows(|old(store.epics)|, |old(store.features)|, result.epics)
      && store.tasks == old(store.tasks) + Rows(|old(store.tasks)|, PlaceEpics(|old(store.features)|, result.epics))
      && (r.Ok? <==> NoDuplicates(old(store.dependencies) + edges))
      && (r.Ok? ==> r.value == result && store.dependencies == old(store.dependencies) + edges)
      && (r.Err? ==> StoppedAtRepeat(old(store.dependencies), edges, store.dependencies))
    ensures r.Err? ==> r.error == ConstraintViolation("task_dependencies")
    ensures store.projects == old(store.projects)
    ensures store.transitions == old(store.transitions) && store.outputs == old(store.outputs)
  {
    var result := ParseAnalysisResponse(reply, decode);
    var persisted := PersistAnalysis(store, projectId, result);
    if persisted.Err? {
      return Err(persisted.error);
    }
    return Ok(result);
  }
}
