/** The pipeline's task store as in-memory tables. Every method is one
 *  transaction: it either completes or, where a constraint of the schema
 *  would throw, leaves every table as it was. Row ids are assigned in
 *  insertion order starting at 1, and creation order is table order. */
module TaskStore {
  import opened Wrappers
  import Text
  import opened PipelineModels
  import TaskStateMachine

  /** What a store operation throws. */
  datatype StoreError =
    | IllegalArgument(message: string)   // a missing task
    | IllegalState(message: string)      // a transition the table refuses
    | NoSuchElement(message: string)     // `single()` on no rows
    | ConstraintViolation(message: string)  // a foreign or primary key refuses a row

  /** The error for a task id with no row. */
  function TaskNotFound(id: Id): StoreError {
    IllegalArgument("Task " + Text.IntToString(id) + " not found")
  }

  /** A row of the dependency table; the pair is its primary key. */
  datatype Edge = Edge(taskId: Id, dependsOnTaskId: Id)

  datatype TaskOutput = TaskOutput(id: Id, taskId: Id, outputType: string, content: string, agent: string)

  /** The edges a task's dependency list inserts, in list order. */
  function Edges(id: Id, dependsOn: seq<Id>): (r: seq<Edge>)
    ensures |r| == |dependsOn| && forall i :: 0 <= i < |r| ==> r[i] == Edge(id, dependsOn[i])
  {
    seq(|dependsOn|, i requires 0 <= i < |dependsOn| => Edge(id, dependsOn[i]))
  }

  /** The ids an edge sequence gives task id, in table order. */
  function Targets(edges: seq<Edge>, id: Id): seq<Id> {
    if edges == [] then []
    else Targets(edges[..|edges| - 1], id)
         + (if edges[|edges| - 1].taskId == id then [edges[|edges| - 1].dependsOnTaskId] else [])
  }

  /** Both ends of every edge are among the first n task ids. */
  predicate EdgesWithin(edges: seq<Edge>, n: nat) {
    forall i :: 0 <= i < |edges| ==> 1 <= edges[i].taskId <= n && 1 <= edges[i].dependsOnTaskId <= n
  }

  /** Ids strictly ascend along the sequence. */
  predicate IncreasingIds(r: seq<DevTask>) {
    forall i, j :: 0 <= i < j < |r| ==> r[i].id < r[j].id
  }

  /** A row with an id above every id of an increasing list extends it. */
  lemma IncreasingSnoc(r: seq<DevTask>, t: DevTask)
    requires IncreasingIds(r) && forall i :: 0 <= i < |r| ==> r[i].id < t.id
    ensures IncreasingIds(r + [t])
  {
    var r' := r + [t];
    forall i, j | 0 <= i < j < |r'| ensures r'[i].id < r'[j].id {
      assert r'[i] == r[i];
    }
  }

  predicate NoDuplicates<T(==)>(s: seq<T>) {
    forall i, j :: 0 <= i < j < |s| ==> s[i] != s[j]
  }

  /** Epics in ascending `order`. */
  predicate SortedByOrder(es: seq<Epic>) {
    forall i, j :: 0 <= i < j < |es| ==> es[i].order <= es[j].order
  }

  /** Puts an epic after every epic whose order is not greater. */
  function InsertByOrder(s: seq<Epic>, e: Epic): (r: seq<Epic>)
    requires SortedByOrder(s)
    ensures SortedByOrder(r) && multiset(r) == multiset(s) + multiset{e}
  {
    if s == [] then [e]
    else if e.order < s[0].order then [e] + s
    else
      var rest := InsertByOrder(s[1..], e);
      assert s == [s[0]] + s[1..];
      SortedCons(s[0], s[1..], e, rest);
      [s[0]] + rest
  }

  lemma SortedCons(h: Epic, t: seq<Epic>, e: Epic, rest: seq<Epic>)
    requires SortedByOrder([h] + t) && SortedByOrder(rest) && h.order <= e.order
    requires multiset(rest) == multiset(t) + multiset{e}
    ensures SortedByOrder([h] + rest)
  {
    forall j | 0 <= j < |rest| ensures h.order <= rest[j].order {
      assert rest[j] in multiset(rest);
      if rest[j] != e {
        assert rest[j] in multiset(t);
        var k :| 0 <= k < |t| && t[k] == rest[j];
        assert ([h] + t)[0] == h && ([h] + t)[k + 1] == t[k];
      }
    }
    var u := [h] + rest;
    forall i, j | 0 <= i < j < |u| ensures u[i].order <= u[j].order {
      if i > 0 {
        assert u[i] == rest[i - 1] && u[j] == rest[j - 1];
      } else {
        assert u[j] == rest[j - 1];
      }
    }
  }

  /** An epic whose order is at least every other's goes last. */
  lemma {:induction false} InsertLast(s: seq<Epic>, e: Epic)
    requires SortedByOrder(s) && forall i :: 0 <= i < |s| ==> s[i].order <= e.order
    ensures InsertByOrder(s, e) == s + [e]
  {
    if s != [] {
      assert SortedByOrder(s[1..]);
      InsertLast(s[1..], e);
      assert s == [s[0]] + s[1..];
    }
  }

  /** `orderBy(Epics.order, SortOrder.ASC)`: the epics, sorted by their
   *  order. The query leaves the order of equal keys open; the model keeps
   *  table order among them. */
  function ByOrder(es: seq<Epic>): (r: seq<Epic>)
    ensures SortedByOrder(r) && multiset(r) == multiset(es)
  {
    if es == [] then []
    else
      assert es == es[..|es| - 1] + [es[|es| - 1]];
      InsertByOrder(ByOrder(es[..|es| - 1]), es[|es| - 1])
  }

  /** Epics already in ascending order come back as they are: the epics of
   *  a single analysis, numbered 0, 1, 2, ..., keep their table order. */
  lemma {:induction false} ByOrderOfSorted(es: seq<Epic>)
    requires SortedByOrder(es)
    ensures ByOrder(es) == es
  {
    if es != [] {
      var front, last := es[..|es| - 1], es[|es| - 1];
      SortedSplit(es);
      ByOrderOfSorted(front);
      InsertLast(front, last);
    }
  }

  lemma SortedSplit(es: seq<Epic>)
    requires es != [] && SortedByOrder(es)
    ensures SortedByOrder(es[..|es| - 1])
    ensures forall i :: 0 <= i < |es| - 1 ==> es[i].order <= es[|es| - 1].order
  {
    var front := es[..|es| - 1];
    forall i, j | 0 <= i < j < |front| ensures front[i].order <= front[j].order {
      assert front[i] == es[i] && front[j] == es[j];
    }
  }

  class Store {
    var projects: seq<Project>
    var epics: seq<Epic>
    var features: seq<Feature>
    /** Task rows. A row's own dependency list is always empty: the
     *  dependency table holds the edges. */
    var tasks: seq<DevTask>
    var dependencies: seq<Edge>
    var transitions: seq<TaskTransition>
    var outputs: seq<TaskOutput>

    /** Ids follow table positions, the foreign keys of tasks and edges hold,
     *  and no edge is stored twice. */
    predicate Valid()
      reads this
    {
      && (forall i :: 0 <= i < |projects| ==> projects[i].id == i + 1)
      && (forall i :: 0 <= i < |epics| ==> epics[i].id == i + 1)
      && (forall i :: 0 <= i < |features| ==> features[i].id == i + 1)
      && TaskRows(tasks)
      && (forall i :: 0 <= i < |transitions| ==> transitions[i].id == i + 1)
      && (forall i :: 0 <= i < |outputs| ==> outputs[i].id == i + 1)
      && EdgesWithin(dependencies, |tasks|)
      && NoDuplicates(dependencies)
      && HistoryValid()
    }

    /** Every transition row names an existing task, and each task's history,
     *  read in log order, is a path the transition table allows from
     *  CREATED to its current status. */
    predicate HistoryValid()
      reads this
    {
      HistoriesValid(tasks, transitions)
    }

    /** The epic's project, when the epic exists. */
    predicate EpicOf(epicId: Id, projectId: Id)
      reads this
    {
      HasEpic(epicId) && epics[epicId - 1].projectId == projectId
    }

    /** The feature's epic belongs to the project, when both exist. */
    predicate FeatureOf(featureId: Id, projectId: Id)
      reads this
    {
      HasFeature(featureId) && EpicOf(features[featureId - 1].epicId, projectId)
    }

    lemma {:induction false} EpicIdsExact(projectId: Id, n: nat, x: Id)
      requires Valid() && n <= |epics|
      ensures x in EpicIds(projectId, n) <==> x <= n && EpicOf(x, projectId)
    {
      if n > 0 {
        EpicIdsExact(projectId, n - 1, x);
      }
    }

    lemma {:induction false} FeatureIdsExact(epicIds: seq<Id>, n: nat, x: Id)
      requires Valid() && n <= |features|
      ensures x in FeatureIds(epicIds, n) <==> 1 <= x <= n && features[x - 1].epicId in epicIds
    {
      if n > 0 {
        FeatureIdsExact(epicIds, n - 1, x);
      }
    }

    /** A task is in a project exactly when its feature's epic is the
     *  project's. */
    lemma InProjectExact(k: nat, projectId: Id)
      requires Valid() && k < |tasks|
      ensures InProject(k, projectId) <==> FeatureOf(tasks[k].featureId, projectId)
    {
      var epicIds := EpicIds(projectId, |epics|);
      var fid := tasks[k].featureId;
      FeatureIdsExact(epicIds, |features|, fid);
      if HasFeature(fid) {
        EpicIdsExact(projectId, |epics|, features[fid - 1].epicId);
      }
    }

    /** `getEpicsByProject` returns exactly the project's epics. */
    lemma EpicsByProjectExact(projectId: Id, e: Epic)
      ensures e in GetEpicsByProject(projectId) <==> e in epics && e.projectId == projectId
    {
      FilterEpicsExact(projectId, |epics|, e);
      assert epics[..|epics|] == epics;
      assert e in GetEpicsByProject(projectId) <==> e in multiset(FilterEpics(projectId, |epics|));
    }

    lemma {:induction false} FilterEpicsExact(projectId: Id, n: nat, e: Epic)
      requires n <= |epics|
      ensures e in FilterEpics(projectId, n) <==> e in epics[..n] && e.projectId == projectId
    {
      if n > 0 {
        FilterEpicsExact(projectId, n - 1, e);
        assert epics[..n] == epics[..n - 1] + [epics[n - 1]];
      }
    }

    /** `getFeaturesByProject` returns exactly the features under the
     *  project's epics. */
    lemma FeaturesByProjectExact(projectId: Id, f: Feature)
      requires Valid()
      ensures f in GetFeaturesByProject(projectId) <==> f in features && EpicOf(f.epicId, projectId)
    {
      var epicIds := EpicIds(projectId, |epics|);
      EpicIdsExact(projectId, |epics|, f.epicId);
      FilterFeaturesExact(epicIds, |features|, f);
      assert features[..|features|] == features;
    }

    lemma {:induction false} FilterFeaturesExact(epicIds: seq<Id>, n: nat, f: Feature)
      requires n <= |features|
      ensures f in FilterFeatures(epicIds, n) <==> f in features[..n] && f.epicId in epicIds
    {
      if n > 0 {
        FilterFeaturesExact(epicIds, n - 1, f);
        assert features[..n] == features[..n - 1] + [features[n - 1]];
      }
    }

    /** `getTasksByProject` returns exactly the project's tasks that pass the
     *  filter, each read with its dependency list. */
    lemma TasksByProjectExact(projectId: Id, statusFilter: Option<TaskStatus>, t: DevTask)
      requires Valid()
      ensures t in GetTasksByProject(projectId, statusFilter) <==>
        exists k :: 0 <= k < |tasks| && InProject(k, projectId) && StatusMatches(k, statusFilter) && t == ReadTask(k)
    {
      var epicIds := EpicIds(projectId, |epics|);
      var featureIds := FeatureIds(epicIds, |features|);
      EmptyEpicsNoFeatures(epicIds, |features|);
      TasksUnderExact(featureIds, statusFilter, |tasks|, t);
      if featureIds == [] {
        TasksUnderNone(statusFilter, |tasks|);
      }
    }

    /** With no epics there are no features under them. */
    lemma {:induction false} EmptyEpicsNoFeatures(epicIds: seq<Id>, n: nat)
      requires n <= |features|
      ensures epicIds == [] ==> FeatureIds(epicIds, n) == []
    {
      if n > 0 {
        EmptyEpicsNoFeatures(epicIds, n - 1);
      }
    }

    lemma {:induction false} TasksUnderNone(statusFilter: Option<TaskStatus>, n: nat)
      requires n <= |tasks|
      ensures TasksUnder([], statusFilter, n) == []
    {
      if n > 0 {
        TasksUnderNone(statusFilter, n - 1);
      }
    }

    lemma {:induction false} TasksUnderExact(featureIds: seq<Id>, statusFilter: Option<TaskStatus>, n: nat, t: DevTask)
      requires n <= |tasks|
      ensures t in TasksUnder(featureIds, statusFilter, n) <==>
        exists k :: 0 <= k < n && tasks[k].featureId in featureIds && StatusMatches(k, statusFilter) && t == ReadTask(k)
    {
      if n > 0 {
        TasksUnderExact(featureIds, statusFilter, n - 1, t);
        var prev := TasksUnder(featureIds, statusFilter, n - 1);
        var hit := tasks[n - 1].featureId in featureIds && StatusMatches(n - 1, statusFilter);
        assert TasksUnder(featureIds, statusFilter, n) == prev + (if hit then [ReadTask(n - 1)] else []);
        if exists k :: 0 <= k < n && tasks[k].featureId in featureIds && StatusMatches(k, statusFilter) && t == ReadTask(k) {
          var k :| 0 <= k < n && tasks[k].featureId in featureIds && StatusMatches(k, statusFilter) && t == ReadTask(k);
          if k < n - 1 {
            assert t in prev;
          }
        }
      }
    }

    /** t is the read of task row k with its dependency list. */
    predicate IsRead(t: DevTask)
      reads this
    {
      1 <= t.id <= |tasks| && t == ReadTask(t.id - 1)
    }

    /** The rows `getTasksByProject` returns: each is the read of a project
     *  task passing the filter, in ascending id order, and every such task
     *  is among them. */
    lemma TasksByProjectRows(projectId: Id, statusFilter: Option<TaskStatus>)
      requires TaskRows(tasks)
      ensures var r := GetTasksByProject(projectId, statusFilter);
        && (forall i :: 0 <= i < |r| ==>
              1 <= r[i].id && IsRead(r[i]) && InProject(r[i].id - 1, projectId) && StatusMatches(r[i].id - 1, statusFilter))
        && IncreasingIds(r)
        && (forall k :: 0 <= k < |tasks| && InProject(k, projectId) && StatusMatches(k, statusFilter) ==> ReadTask(k) in r)
    {
      var featureIds := FeatureIds(EpicIds(projectId, |epics|), |features|);
      TasksByProjectUnder(projectId, statusFilter);
      TasksUnderRows(featureIds, statusFilter, |tasks|);
      TasksUnderComplete(featureIds, statusFilter, |tasks|);
    }

    /** The early returns for no epics and no features give what the
     *  search over no features would. */
    lemma TasksByProjectUnder(projectId: Id, statusFilter: Option<TaskStatus>)
      ensures GetTasksByProject(projectId, statusFilter)
        == TasksUnder(FeatureIds(EpicIds(projectId, |epics|), |features|), statusFilter, |tasks|)
    {
      var epicIds := EpicIds(projectId, |epics|);
      EmptyEpicsNoFeatures(epicIds, |features|);
      TasksUnderNone(statusFilter, |tasks|);
    }

    lemma TasksUnderRows(featureIds: seq<Id>, statusFilter: Option<TaskStatus>, n: nat)
      requires TaskRows(tasks) && n <= |tasks|
      ensures var r := TasksUnder(featureIds, statusFilter, n);
        && (forall i :: 0 <= i < |r| ==>
              1 <= r[i].id <= n && IsRead(r[i])
              && tasks[r[i].id - 1].featureId in featureIds && StatusMatches(r[i].id - 1, statusFilter))
        && IncreasingIds(r)
    {
      TasksUnderRead(featureIds, statusFilter, n);
      TasksUnderBelow(featureIds, statusFilter, n);
      TasksUnderIncreasing(featureIds, statusFilter, n);
      var r := TasksUnder(featureIds, statusFilter, n);
      assert forall i :: 0 <= i < |r| ==> r[i] in r;
    }

    lemma {:induction false} TasksUnderRead(featureIds: seq<Id>, statusFilter: Option<TaskStatus>, n: nat)
      requires TaskRows(tasks) && n <= |tasks|
      ensures forall t :: t in TasksUnder(featureIds, statusFilter, n) ==> ReadUnder(t, featureIds, statusFilter)
    {
      if n > 0 {
        TasksUnderRead(featureIds, statusFilter, n - 1);
        var prev := TasksUnder(featureIds, statusFilter, n - 1);
        if tasks[n - 1].featureId in featureIds && StatusMatches(n - 1, statusFilter) {
          var t := ReadTask(n - 1);
          assert t.id == n;
          assert ReadUnder(t, featureIds, statusFilter);
          assert TasksUnder(featureIds, statusFilter, n) == prev + [t];
        } else {
          assert TasksUnder(featureIds, statusFilter, n) == prev;
        }
      }
    }

    lemma {:induction false} TasksUnderIncreasing(featureIds: seq<Id>, statusFilter: Option<TaskStatus>, n: nat)
      requires TaskRows(tasks) && n <= |tasks|
      ensures IncreasingIds(TasksUnder(featureIds, statusFilter, n))
    {
      if n > 0 {
        TasksUnderIncreasing(featureIds, statusFilter, n - 1);
        var prev := TasksUnder(featureIds, statusFilter, n - 1);
        if tasks[n - 1].featureId in featureIds && StatusMatches(n - 1, statusFilter) {
          TasksUnderBelow(featureIds, statusFilter, n - 1);
          var t := ReadTask(n - 1);
          assert t.id == n;
          forall i | 0 <= i < |prev| ensures prev[i].id < t.id {
            assert prev[i] in prev;
          }
          IncreasingSnoc(prev, t);
        }
      }
    }

    /** t is the read of a task under one of the features that passes the
     *  status filter. */
    predicate ReadUnder(t: DevTask, featureIds: seq<Id>, statusFilter: Option<TaskStatus>)
      reads this
    {
      IsRead(t) && tasks[t.id - 1].featureId in featureIds && StatusMatches(t.id - 1, statusFilter)
    }

    lemma {:induction false} TasksUnderBelow(featureIds: seq<Id>, statusFilter: Option<TaskStatus>, n: nat)
      requires TaskRows(tasks) && n <= |tasks|
      ensures forall t :: t in TasksUnder(featureIds, statusFilter, n) ==> t.id <= n
    {
      if n > 0 {
        TasksUnderBelow(featureIds, statusFilter, n - 1);
      }
    }

    lemma {:induction false} TasksUnderComplete(featureIds: seq<Id>, statusFilter: Option<TaskStatus>, n: nat)
      requires n <= |tasks|
      ensures forall k :: 0 <= k < n && tasks[k].featureId in featureIds && StatusMatches(k, statusFilter) ==>
        ReadTask(k) in TasksUnder(featureIds, statusFilter, n)
    {
      if n > 0 {
        TasksUnderComplete(featureIds, statusFilter, n - 1);
      }
    }

    /** The ready filter keeps rows of its input, in their order. */
    lemma {:induction false} ReadyAmongRows(ts: seq<DevTask>)
      requires IncreasingIds(ts)
      ensures forall t :: t in ReadyAmong(ts) ==> t in ts
      ensures IncreasingIds(ReadyAmong(ts))
    {
      if ts != [] {
        var init := ts[..|ts| - 1];
        var last := ts[|ts| - 1];
        ReadyAmongRows(init);
        var prev := ReadyAmong(init);
        forall i | 0 <= i < |prev| ensures prev[i].id < last.id {
          assert prev[i] in init;
          var x :| 0 <= x < |init| && init[x] == prev[i];
          assert ts[x] == init[x];
        }
        assert forall t :: t in init ==> t in ts;
      }
    }

    /** `getReadyTasks` returns exactly the project's PLANNED tasks all of
     *  whose existing dependencies are DEPLOYED. */
    lemma ReadyTasksExact(projectId: Id, t: DevTask)
      requires Valid()
      ensures t in GetReadyTasks(projectId) <==>
        t in GetTasksByProject(projectId, Some(PLANNED)) && DependenciesDeployed(t)
    {
      ReadyAmongExact(GetTasksByProject(projectId, Some(PLANNED)), t);
    }

    lemma {:induction false} ReadyAmongExact(ts: seq<DevTask>, t: DevTask)
      ensures t in ReadyAmong(ts) <==> t in ts && DependenciesDeployed(t)
    {
      if ts != [] {
        var init := ts[..|ts| - 1];
        ReadyAmongExact(init, t);
        assert ts == init + [ts[|ts| - 1]];
      }
    }

    constructor ()
      ensures Valid()
      ensures projects == [] && epics == [] && features == [] && tasks == []
      ensures dependencies == [] && transitions == [] && outputs == []
    {
      projects, epics, features, tasks := [], [], [], [];
      dependencies, transitions, outputs := [], [], [];
    }

    predicate HasProject(id: Id) reads this { 1 <= id <= |projects| }
    predicate HasEpic(id: Id) reads this { 1 <= id <= |epics| }
    predicate HasFeature(id: Id) reads this { 1 <= id <= |features| }
    predicate HasTask(id: Id) reads this { 1 <= id <= |tasks| }

    /** `toDevTask`: a task row with its dependency list read from the
     *  dependency table. */
    function ReadTask(k: nat): DevTask
      reads this
      requires k < |tasks|
    {
      tasks[k].(dependsOn := Targets(dependencies, tasks[k].id))
    }

    /** `getTask` */
    function GetTask(id: Id): (r: Option<DevTask>)
      reads this
      requires Valid()
      ensures r.Some? <==> HasTask(id)
      ensures r.Some? ==> r.value.id == id
    {
      if HasTask(id) then Some(ReadTask(id - 1)) else None
    }

    /** `getProject` */
    function GetProject(id: Id): (r: Option<Project>)
      reads this
      requires Valid()
      ensures r.Some? <==> HasProject(id)
      ensures r.Some? ==> r.value.id == id
    {
      if HasProject(id) then Some(projects[id - 1]) else None
    }

    /** The ids of the project's epics, in table order. */
    function EpicIds(projectId: Id, n: nat): seq<Id>
      reads this`epics
      requires n <= |epics|
    {
      if n == 0 then []
      else EpicIds(projectId, n - 1) + (if epics[n - 1].projectId == projectId then [epics[n - 1].id] else [])
    }

    /** The ids of the features under the given epics, in table order. */
    function FeatureIds(epicIds: seq<Id>, n: nat): seq<Id>
      reads this`features
      requires n <= |features|
    {
      if n == 0 then []
      else FeatureIds(epicIds, n - 1) + (if features[n - 1].epicId in epicIds then [features[n - 1].id] else [])
    }

    /** `getEpicsByProject`: the project's epics, sorted by their order. */
    function GetEpicsByProject(projectId: Id): (r: seq<Epic>)
      reads this
      ensures SortedByOrder(r) && multiset(r) == multiset(FilterEpics(projectId, |epics|))
    {
      ByOrder(FilterEpics(projectId, |epics|))
    }

    function FilterEpics(projectId: Id, n: nat): seq<Epic>
      reads this
      requires n <= |epics|
    {
      if n == 0 then []
      else FilterEpics(projectId, n - 1) + (if epics[n - 1].projectId == projectId then [epics[n - 1]] else [])
    }

    /** `getFeaturesByProject` */
    function GetFeaturesByProject(projectId: Id): seq<Feature>
      reads this
    {
      var epicIds := EpicIds(projectId, |epics|);
      if epicIds == [] then [] else FilterFeatures(epicIds, |features|)
    }

    function FilterFeatures(epicIds: seq<Id>, n: nat): seq<Feature>
      reads this
      requires n <= |features|
    {
      if n == 0 then []
      else FilterFeatures(epicIds, n - 1) + (if features[n - 1].epicId in epicIds then [features[n - 1]] else [])
    }

    /** The task passes the optional status filter. */
    predicate StatusMatches(k: nat, statusFilter: Option<TaskStatus>)
      reads this
      requires k < |tasks|
    {
      statusFilter.None? || tasks[k].status == statusFilter.value
    }

    /** The first n task rows under the given features, read as tasks. */
    function TasksUnder(featureIds: seq<Id>, statusFilter: Option<TaskStatus>, n: nat): seq<DevTask>
      reads this
      requires n <= |tasks|
    {
      if n == 0 then []
      else TasksUnder(featureIds, statusFilter, n - 1)
           + (if tasks[n - 1].featureId in featureIds && StatusMatches(n - 1, statusFilter) then [ReadTask(n - 1)] else [])
    }

    /** `getTasksByProject`: the tasks under features of the project's epics,
     *  optionally of one status, in creation order. */
    function GetTasksByProject(projectId: Id, statusFilter: Option<TaskStatus>): seq<DevTask>
      reads this
    {
      var epicIds := EpicIds(projectId, |epics|);
      if epicIds == [] then []
      else
        var featureIds := FeatureIds(epicIds, |features|);
        if featureIds == [] then [] else TasksUnder(featureIds, statusFilter, |tasks|)
    }

    /** The task belongs to the project: its feature is under one of the
     *  project's epics. */
    predicate InProject(k: nat, projectId: Id)
      reads this
      requires k < |tasks|
    {
      tasks[k].featureId in FeatureIds(EpicIds(projectId, |epics|), |features|)
    }

    /** Every dependency that exists as a task is DEPLOYED. */
    predicate DependenciesDeployed(t: DevTask)
      reads this
    {
      DeployedAll(tasks, t.dependsOn)
    }

    function ReadyAmong(ts: seq<DevTask>): seq<DevTask>
      reads this
    {
      if ts == [] then []
      else ReadyAmong(ts[..|ts| - 1])
           + (if ts[|ts| - 1].dependsOn == [] || DependenciesDeployed(ts[|ts| - 1]) then [ts[|ts| - 1]] else [])
    }

    /** `getReadyTasks` */
    function GetReadyTasks(projectId: Id): seq<DevTask>
      reads this
    {
      ReadyAmong(GetTasksByProject(projectId, Some(PLANNED)))
    }

    /** `getTaskHistory`: the task's transitions in the order they were made. */
    function GetTaskHistory(taskId: Id): seq<TaskTransition>
      reads this
    {
      HistoryOf(transitions, taskId)
    }

    // ---- operations ----

    /** `createProject` */
    method CreateProject(name: string, description: string, repoUrl: string) returns (p: Project)
      requires Valid()
      modifies this
      ensures Valid()
      ensures p == Project(|old(projects)| + 1, name, description, repoUrl, ACTIVE)
      ensures projects == old(projects) + [p]
      ensures epics == old(epics) && features == old(features) && tasks == old(tasks)
      ensures dependencies == old(dependencies) && transitions == old(transitions) && outputs == old(outputs)
    {
      p := Project(|projects| + 1, name, description, repoUrl, ACTIVE);
      projects := projects + [p];
    }

    /** `createEpic`; a missing project violates the foreign key. */
    method CreateEpic(projectId: Id, title: string, description: string, order: int) returns (r: Result<Epic, StoreError>)
      requires Valid()
      modifies this
      ensures Valid()
      ensures r.Ok? <==> old(HasProject(projectId))
      ensures r.Ok? ==> r.value == Epic(|old(epics)| + 1, projectId, title, description, order)
                        && epics == old(epics) + [r.value]
      ensures r.Err? ==> epics == old(epics)
      ensures projects == old(projects) && features == old(features) && tasks == old(tasks)
      ensures dependencies == old(dependencies) && transitions == old(transitions) && outputs == old(outputs)
    {
      if !HasProject(projectId) {
        return Err(ConstraintViolation("project_id"));
      }
      var e := Epic(|epics| + 1, projectId, title, description, order);
      epics := epics + [e];
      return Ok(e);
    }

    /** `createFeature`; a missing epic violates the foreign key. */
    method CreateFeature(epicId: Id, title: string, description: string, acceptanceCriteria: string)
      returns (r: Result<Feature, StoreError>)
      requires Valid()
      modifies this
      ensures Valid()
      ensures r.Ok? <==> old(HasEpic(epicId))
      ensures r.Ok? ==> r.value == Feature(|old(features)| + 1, epicId, title, description, acceptanceCriteria)
                        && features == old(features) + [r.value]
      ensures r.Err? ==> features == old(features)
      ensures projects == old(projects) && epics == old(epics) && tasks == old(tasks)
      ensures dependencies == old(dependencies) && transitions == old(transitions) && outputs == old(outputs)
    {
      if !HasEpic(epicId) {
        return Err(ConstraintViolation("epic_id"));
      }
      var f := Feature(|features| + 1, epicId, title, description, acceptanceCriteria);
      features := features + [f];
      return Ok(f);
    }

    /** `createTask`: the row with status CREATED, then one edge per listed
     *  dependency. A missing feature or dependency, or a dependency listed
     *  twice, makes an insert throw and the transaction roll back. */
    method CreateTask(featureId: Id, title: string, description: string, category: TaskCategory,
                      priority: TaskPriority, estimatedComplexity: int, dependsOn: seq<Id>)
      returns (r: Result<DevTask, StoreError>)
      requires Valid()
      modifies this
      ensures Valid()
      ensures r.Ok? <==> old(HasFeature(featureId))
                         && NoDuplicates(dependsOn)
                         && (forall i :: 0 <= i < |dependsOn| ==> 1 <= dependsOn[i] <= |old(tasks)| + 1)
      ensures r.Ok? ==>
        var id := |old(tasks)| + 1;
        && r.value == DevTask(id, featureId, title, description, category, priority, CREATED, "", "", "", dependsOn, estimatedComplexity)
        && tasks == old(tasks) + [r.value.(dependsOn := [])]
        && dependencies == old(dependencies) + Edges(id, dependsOn)
        && GetTask(id) == Some(r.value)
      ensures r.Err? ==> tasks == old(tasks) && dependencies == old(dependencies)
      ensures projects == old(projects) && epics == old(epics) && features == old(features)
      ensures transitions == old(transitions) && outputs == old(outputs)
    {
      if !HasFeature(featureId) {
        return Err(ConstraintViolation("feature_id"));
      }
      var id := |tasks| + 1;
      var row := DevTask(id, featureId, title, description, category, priority, CREATED, "", "", "", [], estimatedComplexity);
      var inserted := InsertEdges(dependencies, id, dependsOn);
      if inserted.Err? {
        return Err(inserted.error);
      }
      var deps := inserted.value;
      NewTaskKeepsHistories(tasks, transitions, row);
      TargetsOfNewTask(dependencies, id, dependsOn);
      tasks, dependencies := tasks + [row], deps;
      assert tasks[id - 1] == row;
      assert ReadTask(id - 1) == row.(dependsOn := dependsOn);
      return Ok(row.(dependsOn := dependsOn));
    }

    /** `transitionTask`: a missing task and a refused transition throw and
     *  change nothing; otherwise the status is set and exactly one history
     *  row is appended. */
    method TransitionTask(taskId: Id, newStatus: TaskStatus, reason: string, triggeredBy: string)
      returns (r: Result<DevTask, StoreError>)
      requires Valid()
      modifies this
      ensures Valid()
      ensures old(HasTask(taskId)) && TaskStateMachine.CanTransition(old(tasks[taskId - 1].status), newStatus) ==> r.Ok?
      ensures !old(HasTask(taskId)) ==>
        r == Err(TaskNotFound(taskId))
      ensures old(HasTask(taskId)) && !TaskStateMachine.CanTransition(old(tasks[taskId - 1].status), newStatus) ==>
        r == Err(IllegalState(TaskStateMachine.RejectionMessage(old(tasks[taskId - 1].status), newStatus)))
      ensures r.Err? ==> tasks == old(tasks) && transitions == old(transitions)
      ensures r.Ok? ==>
        && old(HasTask(taskId)) && TaskStateMachine.CanTransition(old(tasks[taskId - 1].status), newStatus)
        && tasks == old(tasks)[taskId - 1 := old(tasks[taskId - 1]).(status := newStatus)]
        && transitions == old(transitions)
             + [TaskTransition(|old(transitions)| + 1, taskId, old(tasks[taskId - 1].status), newStatus, reason, triggeredBy)]
        && r.value == old(ReadTask(taskId - 1)).(status := newStatus)
        && r.value == ReadTask(taskId - 1)
        && GetTaskHistory(taskId) == old(GetTaskHistory(taskId)) + [transitions[|transitions| - 1]]
      ensures projects == old(projects) && epics == old(epics) && features == old(features)
      ensures dependencies == old(dependencies) && outputs == old(outputs)
    {
      if !HasTask(taskId) {
        return Err(TaskNotFound(taskId));
      }
      var row := ReadTask(taskId - 1);
      var currentStatus := tasks[taskId - 1].status;
      var validation := TaskStateMachine.ValidateTransition(currentStatus, newStatus);
      if !validation.valid {
        return Err(IllegalState(validation.errorMessage));
      }
      RecordTransition(taskId, newStatus, reason, triggeredBy);
      return Ok(row.(status := newStatus));
    }

    /** The write and the log row of an allowed transition. */
    method RecordTransition(taskId: Id, newStatus: TaskStatus, reason: string, triggeredBy: string)
      requires Valid() && HasTask(taskId)
      requires TaskStateMachine.CanTransition(tasks[taskId - 1].status, newStatus)
      modifies this
      ensures Valid()
      ensures tasks == old(tasks)[taskId - 1 := old(tasks[taskId - 1]).(status := newStatus)]
      ensures transitions == old(transitions)
        + [TaskTransition(|old(transitions)| + 1, taskId, old(tasks[taskId - 1].status), newStatus, reason, triggeredBy)]
      ensures GetTaskHistory(taskId) == old(GetTaskHistory(taskId)) + [transitions[|transitions| - 1]]
      ensures projects == old(projects) && epics == old(epics) && features == old(features)
      ensures dependencies == old(dependencies) && outputs == old(outputs)
    {
      var logged := TaskTransition(|transitions| + 1, taskId, tasks[taskId - 1].status, newStatus, reason, triggeredBy);
      var tasks', log' := tasks[taskId - 1 := tasks[taskId - 1].(status := newStatus)], transitions + [logged];
      TransitionKeepsHistories(tasks, transitions, taskId - 1, logged);
      UpdateKeepsRows(tasks, taskId - 1, tasks'[taskId - 1]);
      HistoryOfAppend(transitions, logged, taskId);
      LogIdsSnoc(transitions, logged);
      tasks, transitions := tasks', log';
    }

    /** `addDependency`: one edge, refused by the keys when either task is
     *  missing or the edge is already there. */
    method AddDependency(taskId: Id, dependsOnTaskId: Id) returns (r: Result<(), StoreError>)
      requires Valid()
      modifies this
      ensures Valid()
      ensures r.Ok? <==> old(HasTask(taskId)) && old(HasTask(dependsOnTaskId))
                         && Edge(taskId, dependsOnTaskId) !in old(dependencies)
      ensures r.Ok? ==> dependencies == old(dependencies) + [Edge(taskId, dependsOnTaskId)]
      ensures r.Err? ==> dependencies == old(dependencies) && r.error == ConstraintViolation("task_dependencies")
      ensures projects == old(projects) && epics == old(epics) && features == old(features) && tasks == old(tasks)
      ensures transitions == old(transitions) && outputs == old(outputs)
    {
      var edge := Edge(taskId, dependsOnTaskId);
      if !HasTask(taskId) || !HasTask(dependsOnTaskId) || edge in dependencies {
        return Err(ConstraintViolation("task_dependencies"));
      }
      forall i | 0 <= i < |dependencies| ensures dependencies[i] != edge {
        assert dependencies[i] in dependencies;
      }
      dependencies := dependencies + [edge];
      return Ok(());
    }

    /** `updateTask`: overwrites only the given fields; the status is never
     *  touched. A missing task updates nothing and the read-back throws. */
    method UpdateTask(taskId: Id, branchName: Option<string>, prUrl: Option<string>, assignedAgent: Option<string>)
      returns (r: Result<DevTask, StoreError>)
      requires Valid()
      modifies this
      ensures Valid()
      ensures r.Ok? <==> old(HasTask(taskId))
      ensures r.Ok? ==>
        var t := old(tasks[taskId - 1]);
        && tasks == old(tasks)[taskId - 1 := t.(branchName := branchName.GetOr(t.branchName),
                                                prUrl := prUrl.GetOr(t.prUrl),
                                                assignedAgent := assignedAgent.GetOr(t.assignedAgent))]
        && r.value == ReadTask(taskId - 1)
      ensures r.Err? ==> tasks == old(tasks)
      ensures projects == old(projects) && epics == old(epics) && features == old(features)
      ensures dependencies == old(dependencies) && transitions == old(transitions) && outputs == old(outputs)
    {
      if !HasTask(taskId) {
        return Err(NoSuchElement("Collection is empty."));
      }
      var t := tasks[taskId - 1];
      var updated := t;
      if branchName.Some? { updated := updated.(branchName := branchName.value); }
      if prUrl.Some? { updated := updated.(prUrl := prUrl.value); }
      if assignedAgent.Some? { updated := updated.(assignedAgent := assignedAgent.value); }
      SameStatusesKeepHistories(tasks, tasks[taskId - 1 := updated], transitions);
      UpdateKeepsRows(tasks, taskId - 1, updated);
      tasks := tasks[taskId - 1 := updated];
      return Ok(ReadTask(taskId - 1));
    }

    /** `saveTaskOutput`; a missing task violates the foreign key. */
    method SaveTaskOutput(taskId: Id, outputType: string, content: string, agent: string)
      returns (r: Result<TaskOutput, StoreError>)
      requires Valid()
      modifies this
      ensures Valid()
      ensures r.Ok? <==> old(HasTask(taskId))
      ensures r.Ok? ==> r.value == TaskOutput(|old(outputs)| + 1, taskId, outputType, content, agent)
                        && outputs == old(outputs) + [r.value]
      ensures r.Err? ==> outputs == old(outputs)
      ensures projects == old(projects) && epics == old(epics) && features == old(features) && tasks == old(tasks)
      ensures dependencies == old(dependencies) && transitions == old(transitions)
    {
      if !HasTask(taskId) {
        return Err(ConstraintViolation("task_id"));
      }
      var o := TaskOutput(|outputs| + 1, taskId, outputType, content, agent);
      outputs := outputs + [o];
      return Ok(o);
    }
  }

  /** The edge inserts of `createTask`, one per listed dependency of the new
   *  task id, into a table whose edges all name earlier tasks. An insert
   *  throws when the target is not a task (its id is not below the new
   *  one's, or is the new one itself) or the edge is present. */
  method InsertEdges(existing: seq<Edge>, id: Id, dependsOn: seq<Id>) returns (r: Result<seq<Edge>, StoreError>)
    requires 1 <= id && NoDuplicates(existing) && EdgesWithin(existing, id - 1)
    ensures r.Ok? <==> NoDuplicates(dependsOn) && forall i :: 0 <= i < |dependsOn| ==> 1 <= dependsOn[i] <= id
    ensures r.Ok? ==> r.value == existing + Edges(id, dependsOn) && NoDuplicates(r.value) && EdgesWithin(r.value, id)
    ensures r.Err? ==> r.error == ConstraintViolation("task_dependencies")
  {
    var deps := existing;
    for k := 0 to |dependsOn|
      invariant deps == existing + Edges(id, dependsOn[..k])
      invariant NoDuplicates(deps) && EdgesWithin(deps, id)
      invariant NoDuplicates(dependsOn[..k])
      invariant forall i :: 0 <= i < k ==> 1 <= dependsOn[i] <= id
    {
      var edge := Edge(id, dependsOn[k]);
      if edge in deps || !(1 <= dependsOn[k] <= id) {
        if edge in deps {
          assert forall i :: 0 <= i < |existing| ==> existing[i].taskId < id;
          DuplicateOrMissing(existing, id, dependsOn, k);
          var j :| 0 <= j < k && dependsOn[j] == dependsOn[k];
          assert !NoDuplicates(dependsOn);
        }
        return Err(ConstraintViolation("task_dependencies"));
      }
      NewEdgeKeepsSet(existing, id, dependsOn, k);
      assert dependsOn[..k + 1] == dependsOn[..k] + [dependsOn[k]];
      assert Edges(id, dependsOn[..k + 1]) == Edges(id, dependsOn[..k]) + [edge];
      deps := deps + [edge];
    }
    assert dependsOn[..|dependsOn|] == dependsOn;
    return Ok(deps);
  }

  /** The transitions of one task, in log order. */
  /** Every id of ids that names a row of tasks names a DEPLOYED one. */
  predicate DeployedAll(tasks: seq<DevTask>, ids: seq<Id>) {
    forall i :: 0 <= i < |ids| && 1 <= ids[i] <= |tasks| ==> tasks[ids[i] - 1].status == DEPLOYED
  }

  function HistoryOf(log: seq<TaskTransition>, taskId: Id): seq<TaskTransition> {
    if log == [] then []
    else HistoryOf(log[..|log| - 1], taskId) + (if log[|log| - 1].taskId == taskId then [log[|log| - 1]] else [])
  }

  /** Ids follow positions and no row keeps its own dependency list. */
  predicate TaskRows(tasks: seq<DevTask>) {
    forall i :: 0 <= i < |tasks| ==> tasks[i].id == i + 1 && tasks[i].dependsOn == []
  }

  /** Replacing a row by one with the same id and an empty list keeps the
   *  rows well formed. */
  lemma UpdateKeepsRows(tasks: seq<DevTask>, k: nat, row: DevTask)
    requires TaskRows(tasks) && k < |tasks| && row.id == tasks[k].id && row.dependsOn == []
    ensures TaskRows(tasks[k := row])
  {
  }

  /** See Store.HistoryValid. */
  predicate HistoriesValid(tasks: seq<DevTask>, log: seq<TaskTransition>) {
    && (forall i :: 0 <= i < |log| ==> 1 <= log[i].taskId <= |tasks|)
    && (forall id {:trigger HistoryOf(log, id)} :: 1 <= id <= |tasks| ==> PathTo(HistoryOf(log, id), tasks[id - 1].status))
  }

  /** A transition the table allows, logged for its task, keeps every
   *  history valid. */
  lemma TransitionKeepsHistories(tasks: seq<DevTask>, log: seq<TaskTransition>, k: nat, t: TaskTransition)
    requires HistoriesValid(tasks, log)
    requires k < |tasks| && t.taskId == k + 1 && t.fromStatus == tasks[k].status
    requires TaskStateMachine.CanTransition(t.fromStatus, t.toStatus)
    ensures HistoriesValid(tasks[k := tasks[k].(status := t.toStatus)], log + [t])
  {
    var tasks' := tasks[k := tasks[k].(status := t.toStatus)];
    forall j | 0 <= j < |tasks'| ensures PathTo(HistoryOf(log + [t], j + 1), tasks'[j].status) {
      HistoryOfAppend(log, t, j + 1);
      if j == k {
        var h := HistoryOf(log, j + 1) + [t];
        assert h[..|h| - 1] == HistoryOf(log, j + 1);
        assert h[|h| - 1] == t;
        assert PathTo(h, t.toStatus);
      } else {
        assert tasks'[j] == tasks[j];
        assert HistoryOf(log + [t], j + 1) == HistoryOf(log, j + 1);
      }
    }
  }

  /** Rows whose statuses are unchanged keep every history valid. */
  lemma SameStatusesKeepHistories(tasks: seq<DevTask>, tasks': seq<DevTask>, log: seq<TaskTransition>)
    requires HistoriesValid(tasks, log)
    requires |tasks'| == |tasks| && forall k :: 0 <= k < |tasks| ==> tasks'[k].status == tasks[k].status
    ensures HistoriesValid(tasks', log)
  {
  }

  /** A new CREATED task has an empty history, which is valid. */
  lemma NewTaskKeepsHistories(tasks: seq<DevTask>, log: seq<TaskTransition>, row: DevTask)
    requires HistoriesValid(tasks, log) && row.status == CREATED
    ensures HistoriesValid(tasks + [row], log)
  {
    HistoryOfAbsent(log, |tasks|);
    forall k | 0 <= k < |tasks| + 1 ensures PathTo(HistoryOf(log, k + 1), (tasks + [row])[k].status) {
      if k < |tasks| {
        assert (tasks + [row])[k] == tasks[k];
      }
    }
  }

  /** The history h leads from CREATED to status, each row starting where
   *  the previous one ended and allowed by the transition table. */
  predicate PathTo(h: seq<TaskTransition>, status: TaskStatus) {
    if h == [] then status == CREATED
    else
      var last := h[|h| - 1];
      && last.toStatus == status
      && TaskStateMachine.CanTransition(last.fromStatus, status)
      && PathTo(h[..|h| - 1], last.fromStatus)
  }

  /** The statuses a history passes through, starting at CREATED. */
  function Visited(h: seq<TaskTransition>): (r: seq<TaskStatus>)
    ensures |r| == |h| + 1 && r[0] == CREATED
  {
    if h == [] then [CREATED] else Visited(h[..|h| - 1]) + [h[|h| - 1].toStatus]
  }

  /** A valid history is a valid path of the transition table that ends in
   *  the task's status. */
  lemma {:induction false} PathToIsValidPath(h: seq<TaskTransition>, status: TaskStatus)
    requires PathTo(h, status)
    ensures TaskStateMachine.ValidPath(Visited(h))
    ensures Visited(h)[|h|] == status
  {
    if h != [] {
      var init := h[..|h| - 1];
      PathToIsValidPath(init, h[|h| - 1].fromStatus);
      var v := Visited(init);
      assert Visited(h) == v + [status];
      forall i | 0 <= i < |Visited(h)| - 1
        ensures TaskStateMachine.CanTransition(Visited(h)[i], Visited(h)[i + 1])
      {
        if i < |v| - 1 {
          assert Visited(h)[i] == v[i] && Visited(h)[i + 1] == v[i + 1];
        } else {
          assert Visited(h)[i] == v[|init|] == h[|h| - 1].fromStatus;
        }
      }
    }
  }

  /** No transition row names a task beyond the first n. */
  lemma {:induction false} HistoryOfAbsent(log: seq<TaskTransition>, n: nat)
    requires forall i :: 0 <= i < |log| ==> log[i].taskId <= n
    ensures HistoryOf(log, n + 1) == []
  {
    if log != [] {
      HistoryOfAbsent(log[..|log| - 1], n);
    }
  }

  /** Appending a row extends exactly the history of the row's task. */
  /** A row numbered one past the log extends its numbering. */
  lemma LogIdsSnoc(log: seq<TaskTransition>, t: TaskTransition)
    requires (forall i :: 0 <= i < |log| ==> log[i].id == i + 1) && t.id == |log| + 1
    ensures forall i :: 0 <= i < |log + [t]| ==> (log + [t])[i].id == i + 1
  {
  }

  lemma HistoryOfAppend(log: seq<TaskTransition>, t: TaskTransition, taskId: Id)
    ensures HistoryOf(log + [t], taskId) == HistoryOf(log, taskId) + (if t.taskId == taskId then [t] else [])
  {
    assert (log + [t])[..|log|] == log;
  }

  /** A task's dependency list holds exactly the targets of its edges. */
  lemma {:induction false} TargetsExact(edges: seq<Edge>, id: Id, x: Id)
    ensures x in Targets(edges, id) <==> Edge(id, x) in edges
  {
    if edges != [] {
      var init := edges[..|edges| - 1];
      TargetsExact(init, id, x);
      assert edges == init + [edges[|edges| - 1]];
    }
  }

  /** Edges of other tasks contribute nothing to a task's list. */
  lemma {:induction false} TargetsOfOthers(edges: seq<Edge>, id: Id)
    requires forall i :: 0 <= i < |edges| ==> edges[i].taskId != id
    ensures Targets(edges, id) == []
  {
    if edges != [] {
      TargetsOfOthers(edges[..|edges| - 1], id);
    }
  }

  /** The edges a task's dependency list inserts read back as that list. */
  lemma {:induction false} TargetsOfEdges(edges: seq<Edge>, id: Id, dependsOn: seq<Id>)
    requires Targets(edges, id) == []
    ensures Targets(edges + Edges(id, dependsOn), id) == dependsOn
  {
    if dependsOn != [] {
      var init := dependsOn[..|dependsOn| - 1];
      TargetsOfEdges(edges, id, init);
      var all := edges + Edges(id, dependsOn);
      assert all[..|all| - 1] == edges + Edges(id, init);
      assert dependsOn == init + [dependsOn[|dependsOn| - 1]];
    } else {
      assert edges + Edges(id, dependsOn) == edges;
    }
  }

  /** A new task's list reads back from the edges its creation inserts. */
  lemma TargetsOfNewTask(edges: seq<Edge>, id: Id, dependsOn: seq<Id>)
    requires forall i :: 0 <= i < |edges| ==> edges[i].taskId < id
    ensures Targets(edges + Edges(id, dependsOn), id) == dependsOn
  {
    TargetsOfOthers(edges, id);
    TargetsOfEdges(edges, id, dependsOn);
  }

  /** A task's history holds exactly the log rows naming it. */
  lemma {:induction false} HistoryExact(log: seq<TaskTransition>, taskId: Id, t: TaskTransition)
    ensures t in HistoryOf(log, taskId) <==> t in log && t.taskId == taskId
  {
    if log != [] {
      var init := log[..|log| - 1];
      HistoryExact(init, taskId, t);
      assert log == init + [log[|log| - 1]];
    }
  }

  /** Adding edges of a new task id to an edge set that never mentions it
   *  keeps it a set as long as the listed ids are distinct. */
  lemma NewEdgeKeepsSet(saved: seq<Edge>, id: Id, dependsOn: seq<Id>, k: nat)
    requires k < |dependsOn|
    requires NoDuplicates(saved + Edges(id, dependsOn[..k]))
    requires Edge(id, dependsOn[k]) !in saved + Edges(id, dependsOn[..k])
    ensures NoDuplicates(saved + Edges(id, dependsOn[..k]) + [Edge(id, dependsOn[k])])
  {
    var d := saved + Edges(id, dependsOn[..k]);
    var e := Edge(id, dependsOn[k]);
    forall i, j | 0 <= i < j < |d + [e]| ensures (d + [e])[i] != (d + [e])[j] {
      if j == |d| {
        assert (d + [e])[i] == d[i];
        assert d[i] in d;
      } else {
        assert (d + [e])[i] == d[i] && (d + [e])[j] == d[j];
      }
    }
  }

  /** Why the insert of the k-th edge of a new task fails: its target is
   *  not a task yet, or is listed earlier. */
  lemma DuplicateOrMissing(saved: seq<Edge>, id: Id, dependsOn: seq<Id>, k: nat)
    requires k < |dependsOn|
    requires forall i :: 0 <= i < |saved| ==> saved[i].taskId < id
    ensures Edge(id, dependsOn[k]) in saved + Edges(id, dependsOn[..k]) ==>
      exists i :: 0 <= i < k && dependsOn[i] == dependsOn[k]
  {
    var e := Edge(id, dependsOn[k]);
    var d := saved + Edges(id, dependsOn[..k]);
    if e in d {
      var x :| 0 <= x < |d| && d[x] == e;
      assert x >= |saved|;
      assert d[x] == Edges(id, dependsOn[..k])[x - |saved|];
      assert dependsOn[x - |saved|] == dependsOn[k];
    }
  }
}
