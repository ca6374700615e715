/** Layering of a plan's steps into waves that may run in parallel: a wave is
 *  every remaining step whose dependencies have all completed. */
module ExecutionPlan {
  import Text
  import opened Wrappers
  import opened AgentRoles

  datatype PlanStep = PlanStep(
    id: string,
    description: string,
    assignedAgent: AgentRole,
    dependsOn: seq<string>,
    requiresVerification: bool,
    constraints: seq<string>)

  /** A step built with the constructor's defaults: no dependencies, verified,
   *  no constraints. */
  function DefaultStep(id: string, description: string, agent: AgentRole): (s: PlanStep)
    ensures s.id == id && s.description == description && s.assignedAgent == agent
    ensures s.dependsOn == [] && s.requiresVerification && s.constraints == []
  {
    PlanStep(id, description, agent, [], true, [])
  }

  type Waves = seq<seq<PlanStep>>

  /** `step.dependsOn.all { dep -> dep in completed }` */
  predicate DepsDone(s: PlanStep, done: set<string>) {
    forall d :: d in s.dependsOn ==> d in done
  }

  function Ids(w: seq<PlanStep>): (r: set<string>)
    ensures forall s :: s in w ==> s.id in r
    ensures forall d :: d in r ==> exists s :: s in w && s.id == d
  {
    set s | s in w :: s.id
  }

  function IdList(w: seq<PlanStep>): seq<string> {
    seq(|w|, i requires 0 <= i < |w| => w[i].id)
  }

  function Flatten(ws: Waves): seq<PlanStep> {
    if ws == [] then [] else ws[0] + Flatten(ws[1..])
  }

  /** a keeps some of b's elements in b's order. */
  predicate IsSubsequence(a: seq<PlanStep>, b: seq<PlanStep>)
    decreases |b|
  {
    if a == [] then true
    else if b == [] then false
    else (a[0] == b[0] && IsSubsequence(a[1..], b[1..])) || IsSubsequence(a, b[1..])
  }

  /** `remaining.filter { deps all done }`: the wave, in plan order. */
  function Ready(rem: seq<PlanStep>, done: set<string>): seq<PlanStep> {
    if rem == [] then []
    else if DepsDone(rem[0], done) then [rem[0]] + Ready(rem[1..], done)
    else Ready(rem[1..], done)
  }

  /** What `remaining.removeAll(wave)` leaves: the steps that are not ready.
   *  Removing by equality and filtering agree, since equal steps have equal
   *  dependencies. */
  function Blocked(rem: seq<PlanStep>, done: set<string>): seq<PlanStep> {
    if rem == [] then []
    else if DepsDone(rem[0], done) then Blocked(rem[1..], done)
    else [rem[0]] + Blocked(rem[1..], done)
  }

  function Split(rem: seq<PlanStep>, done: set<string>): (seq<PlanStep>, seq<PlanStep>) {
    (Ready(rem, done), Blocked(rem, done))
  }

  lemma {:induction false} SplitSize(rem: seq<PlanStep>, done: set<string>)
    ensures |Ready(rem, done)| + |Blocked(rem, done)| == |rem|
  {
    if rem != [] { SplitSize(rem[1..], done); }
  }

  lemma {:induction false} SplitMultiset(rem: seq<PlanStep>, done: set<string>)
    ensures multiset(Ready(rem, done)) + multiset(Blocked(rem, done)) == multiset(rem)
  {
    if rem != [] {
      SplitMultiset(rem[1..], done);
      assert rem == [rem[0]] + rem[1..];
    }
  }

  lemma {:induction false} SplitMembers(rem: seq<PlanStep>, done: set<string>)
    ensures forall s :: s in Ready(rem, done) <==> s in rem && DepsDone(s, done)
    ensures forall s :: s in Blocked(rem, done) <==> s in rem && !DepsDone(s, done)
  {
    if rem != [] {
      SplitMembers(rem[1..], done);
      assert forall s :: s in rem <==> s == rem[0] || s in rem[1..];
    }
  }

  lemma {:induction false} SplitOrder(rem: seq<PlanStep>, done: set<string>)
    ensures IsSubsequence(Ready(rem, done), rem) && IsSubsequence(Blocked(rem, done), rem)
  {
    if rem != [] {
      SplitOrder(rem[1..], done);
      var r, b := Ready(rem[1..], done), Blocked(rem[1..], done);
      if DepsDone(rem[0], done) {
        assert ([rem[0]] + r)[1..] == r;
        SubsequenceDrop(b, rem);
      } else {
        assert ([rem[0]] + b)[1..] == b;
        SubsequenceDrop(r, rem);
      }
    }
  }

  /** One pass splits the remaining steps into the ready and the blocked ones,
   *  both in plan order, losing none. */
  lemma SplitFacts(rem: seq<PlanStep>, done: set<string>)
    ensures |Ready(rem, done)| + |Blocked(rem, done)| == |rem|
    ensures multiset(Ready(rem, done)) + multiset(Blocked(rem, done)) == multiset(rem)
    ensures forall s :: s in Ready(rem, done) <==> s in rem && DepsDone(s, done)
    ensures forall s :: s in Blocked(rem, done) <==> s in rem && !DepsDone(s, done)
    ensures IsSubsequence(Ready(rem, done), rem) && IsSubsequence(Blocked(rem, done), rem)
  {
    SplitSize(rem, done);
    SplitMultiset(rem, done);
    SplitMembers(rem, done);
    SplitOrder(rem, done);
  }

  lemma {:induction false} SubsequenceDrop(a: seq<PlanStep>, b: seq<PlanStep>)
    requires b != [] && IsSubsequence(a, b[1..])
    ensures IsSubsequence(a, b)
  {
  }

  function CircularMessage(rem: seq<PlanStep>): string {
    "Circular dependency detected. Remaining: [" + Text.Join(IdList(rem), ", ") + "]"
  }

  /** The waves of the remaining steps once the ids in done have completed;
   *  an Err when a pass finds no ready step. */
  function WavesFrom(rem: seq<PlanStep>, done: set<string>): Result<Waves, string>
    decreases |rem|
  {
    if rem == [] then Ok([])
    else
      var p := Split(rem, done);
      SplitFacts(rem, done);
      if p.0 == [] then Err(CircularMessage(rem))
      else Prepend([p.0], WavesFrom(p.1, done + Ids(p.0)))
  }

  function Prepend(ws: Waves, r: Result<Waves, string>): Result<Waves, string> {
    match r
    case Ok(rest) => Ok(ws + rest)
    case Err(e) => Err(e)
  }

  /** `executionWaves` */
  method ExecutionWaves(steps: seq<PlanStep>) returns (r: Result<Waves, string>)
    ensures r == WavesFrom(steps, {})
  {
    var completed: set<string> := {};
    var remaining := steps;
    var waves: Waves := [];
    PrependNothing(WavesFrom(steps, {}));
    while remaining != []
      invariant WavesFrom(steps, {}) == Prepend(waves, WavesFrom(remaining, completed))
      decreases |remaining|
    {
      var p := Split(remaining, completed);
      SplitFacts(remaining, completed);
      var wave := p.0;
      if wave == [] {
        assert WavesFrom(remaining, completed) == Err(CircularMessage(remaining));
        return Err(CircularMessage(remaining));
      }
      PrependStep(steps, waves, remaining, completed);
      waves := waves + [wave];
      completed := completed + Ids(wave);
      remaining := p.1;
    }
    assert waves + [] == waves;
    return Ok(waves);
  }

  lemma PrependNothing(r: Result<Waves, string>)
    ensures Prepend([], r) == r
  {
    if r.Ok? { assert [] + r.value == r.value; }
  }

  lemma PrependStep(steps: seq<PlanStep>, waves: Waves, rem: seq<PlanStep>, done: set<string>)
    requires rem != [] && Split(rem, done).0 != []
    requires WavesFrom(steps, {}) == Prepend(waves, WavesFrom(rem, done))
    ensures WavesFrom(steps, {}) == Prepend(waves + [Split(rem, done).0],
      WavesFrom(Split(rem, done).1, done + Ids(Split(rem, done).0)))
  {
    var p := Split(rem, done);
    SplitFacts(rem, done);
    var tail := WavesFrom(p.1, done + Ids(p.0));
    assert WavesFrom(rem, done) == Prepend([p.0], tail);
    if tail.Ok? {
      assert waves + ([p.0] + tail.value) == (waves + [p.0]) + tail.value;
    }
  }

  /** The ids of the first k waves. */
  function IdsBefore(ws: Waves, k: nat): set<string>
    requires k <= |ws|
  {
    if k == 0 then {} else IdsBefore(ws, k - 1) + Ids(ws[k - 1])
  }

  lemma {:induction false} IdsBeforeShift(w: seq<PlanStep>, ws: Waves, k: nat)
    requires 1 <= k <= |ws| + 1
    ensures IdsBefore([w] + ws, k) == Ids(w) + IdsBefore(ws, k - 1)
  {
    if k > 1 {
      IdsBeforeShift(w, ws, k - 1);
      assert ([w] + ws)[k - 1] == ws[k - 2];
    }
  }

  lemma {:induction false} IdsBeforeMono(ws: Waves, j: nat, k: nat)
    requires j <= k <= |ws|
    ensures IdsBefore(ws, j) <= IdsBefore(ws, k)
    decreases k - j
  {
    if j < k { IdsBeforeMono(ws, j, k - 1); }
  }

  /** An empty plan has no waves. */
  lemma EmptyPlanHasNoWaves()
    ensures WavesFrom([], {}) == Ok([])
  {
  }

  /** Every wave is nonempty. */
  lemma {:induction false} WavesNonempty(rem: seq<PlanStep>, done: set<string>)
    requires WavesFrom(rem, done).Ok?
    ensures forall k :: 0 <= k < |WavesFrom(rem, done).value| ==> WavesFrom(rem, done).value[k] != []
    decreases |rem|
  {
    if rem != [] {
      var p := Split(rem, done);
      SplitFacts(rem, done);
      WavesNonempty(p.1, done + Ids(p.0));
    }
  }

  /** The waves together hold every step of the plan exactly once. */
  lemma {:induction false} WavesPartition(rem: seq<PlanStep>, done: set<string>)
    requires WavesFrom(rem, done).Ok?
    ensures multiset(Flatten(WavesFrom(rem, done).value)) == multiset(rem)
    decreases |rem|
  {
    if rem != [] {
      var p := Split(rem, done);
      SplitFacts(rem, done);
      var ws := WavesFrom(rem, done).value;
      WavesPartition(p.1, done + Ids(p.0));
      assert ws[0] == p.0 && ws[1..] == WavesFrom(p.1, done + Ids(p.0)).value;
    }
  }

  /** Within each wave the steps keep their plan order. */
  lemma {:induction false} WavesKeepOrder(rem: seq<PlanStep>, done: set<string>)
    requires WavesFrom(rem, done).Ok?
    ensures forall k :: 0 <= k < |WavesFrom(rem, done).value| ==> IsSubsequence(WavesFrom(rem, done).value[k], rem)
    decreases |rem|
  {
    if rem != [] {
      var p := Split(rem, done);
      SplitFacts(rem, done);
      var ws := WavesFrom(rem, done).value;
      var tail := WavesFrom(p.1, done + Ids(p.0)).value;
      WavesKeepOrder(p.1, done + Ids(p.0));
      assert ws == [p.0] + tail;
      forall k | 0 <= k < |ws| ensures IsSubsequence(ws[k], rem) {
        if k > 0 {
          assert ws[k] == tail[k - 1];
          SubsequenceTrans(ws[k], p.1, rem);
        }
      }
    }
  }

  lemma {:induction false} SubsequenceTrans(a: seq<PlanStep>, b: seq<PlanStep>, c: seq<PlanStep>)
    requires IsSubsequence(a, b) && IsSubsequence(b, c)
    ensures IsSubsequence(a, c)
    decreases |c|
  {
    if a != [] {
      assert b != [] && c != [];
      if b[0] == c[0] && IsSubsequence(b[1..], c[1..]) {
        if a[0] == b[0] && IsSubsequence(a[1..], b[1..]) {
          SubsequenceTrans(a[1..], b[1..], c[1..]);
        } else {
          SubsequenceTrans(a, b[1..], c[1..]);
        }
      } else {
        SubsequenceTrans(a, b, c[1..]);
      }
    }
  }

  /** Every dependency of a step in wave k was already done, or is the id of a
   *  step in an earlier wave. */
  lemma {:induction false} WavesRespectDependencies(rem: seq<PlanStep>, done: set<string>)
    requires WavesFrom(rem, done).Ok?
    ensures var ws := WavesFrom(rem, done).value;
      forall k, s, d :: 0 <= k < |ws| && s in ws[k] && d in s.dependsOn ==> d in done + IdsBefore(ws, k)
    decreases |rem|
  {
    if rem != [] {
      var p := Split(rem, done);
      SplitFacts(rem, done);
      var done' := done + Ids(p.0);
      WavesRespectDependencies(p.1, done');
      var ws := WavesFrom(rem, done).value;
      var tail := WavesFrom(p.1, done').value;
      assert ws == [p.0] + tail;
      forall k: int, s: PlanStep, d: string | 0 <= k < |ws| && s in ws[k] && d in s.dependsOn
        ensures d in done + IdsBefore(ws, k)
      {
        DependencyStep(p.0, tail, done, Ids(p.0), k, s, d);
      }
    }
  }

  lemma DependencyStep(w: seq<PlanStep>, tail: Waves, done: set<string>, wIds: set<string>, k: int, s: PlanStep, d: string)
    requires wIds == Ids(w)
    requires forall t :: t in w ==> DepsDone(t, done)
    requires forall k, s, d :: 0 <= k < |tail| && s in tail[k] && d in s.dependsOn ==> d in done + wIds + IdsBefore(tail, k)
    requires 0 <= k < |tail| + 1 && s in ([w] + tail)[k] && d in s.dependsOn
    ensures d in done + IdsBefore([w] + tail, k)
  {
    if k > 0 {
      assert ([w] + tail)[k] == tail[k - 1];
      assert d in done + wIds + IdsBefore(tail, k - 1);
      IdsBeforeShift(w, tail, k);
      assert done + IdsBefore([w] + tail, k) == done + wIds + IdsBefore(tail, k - 1);
    } else {
      assert s in w;
    }
  }

  /** A step lands in the earliest wave it can: a step in a later wave was not
   *  ready one wave before (so each wave is every step ready at that point). */
  lemma {:induction false} WavesAreEarliest(rem: seq<PlanStep>, done: set<string>)
    requires WavesFrom(rem, done).Ok?
    ensures var ws := WavesFrom(rem, done).value;
      forall k, s :: 0 < k < |ws| && s in ws[k] ==> !DepsDone(s, done + IdsBefore(ws, k - 1))
    decreases |rem|
  {
    if rem != [] {
      var p := Split(rem, done);
      SplitFacts(rem, done);
      var done' := done + Ids(p.0);
      var ws := WavesFrom(rem, done).value;
      var tail := WavesFrom(p.1, done').value;
      WavesAreEarliest(p.1, done');
      WavesPartition(p.1, done');
      assert ws == [p.0] + tail;
      forall k, s | 0 < k < |ws| && s in ws[k]
        ensures !DepsDone(s, done + IdsBefore(ws, k - 1))
      {
        EarliestStep(p.0, p.1, tail, done, k, s);
      }
    }
  }

  lemma EarliestStep(w: seq<PlanStep>, blocked: seq<PlanStep>, tail: Waves, done: set<string>, k: int, s: PlanStep)
    requires forall t :: t in blocked ==> !DepsDone(t, done)
    requires multiset(Flatten(tail)) == multiset(blocked)
    requires forall k, s :: 0 < k < |tail| && s in tail[k] ==> !DepsDone(s, done + Ids(w) + IdsBefore(tail, k - 1))
    requires 0 < k < |tail| + 1 && s in ([w] + tail)[k]
    ensures !DepsDone(s, done + IdsBefore([w] + tail, k - 1))
  {
    assert ([w] + tail)[k] == tail[k - 1];
    if k == 1 {
      FlattenHas(tail, 0, s);
      assert s in multiset(Flatten(tail));
      assert s in blocked;
      assert done + IdsBefore([w] + tail, 0) == done;
    } else {
      IdsBeforeShift(w, tail, k - 1);
      assert done + IdsBefore([w] + tail, k - 1) == done + Ids(w) + IdsBefore(tail, k - 2);
    }
  }

  lemma {:induction false} FlattenHas(ws: Waves, k: nat, s: PlanStep)
    requires k < |ws| && s in ws[k]
    ensures s in Flatten(ws)
  {
    if k > 0 { FlattenHas(ws[1..], k - 1, s); }
  }

  /** A dependency on an id that no step has and that is not already done
   *  makes the layering fail. */
  lemma {:induction false} UnknownDependencyFails(rem: seq<PlanStep>, done: set<string>, s: PlanStep, d: string)
    requires s in rem && d in s.dependsOn && d !in done
    requires forall t :: t in rem ==> t.id != d
    ensures WavesFrom(rem, done).Err?
    decreases |rem|
  {
    var p := Split(rem, done);
    SplitFacts(rem, done);
    if p.0 != [] {
      assert !DepsDone(s, done);
      assert d !in Ids(p.0);
      UnknownDependencyFails(p.1, done + Ids(p.0), s, d);
    }
  }

  predicate UniqueIds(rem: seq<PlanStep>) {
    forall i, j :: 0 <= i < |rem| && 0 <= j < |rem| && rem[i].id == rem[j].id ==> i == j
  }

  /** Two steps with distinct, not yet completed ids that depend on each other
   *  (or one step that depends on itself) make the layering fail. */
  lemma {:induction false} MutualDependencyFails(rem: seq<PlanStep>, done: set<string>, a: PlanStep, b: PlanStep)
    requires UniqueIds(rem)
    requires a in rem && b in rem
    requires a.id in b.dependsOn && b.id in a.dependsOn
    requires a.id !in done && b.id !in done
    ensures WavesFrom(rem, done).Err?
    decreases |rem|
  {
    var p := Split(rem, done);
    SplitFacts(rem, done);
    if p.0 != [] {
      assert !DepsDone(a, done) && !DepsDone(b, done);
      var done' := done + Ids(p.0);
      forall t | t in p.0 ensures t.id != a.id && t.id != b.id {
        if t.id == a.id { SameIdSameStep(rem, t, a); }
        if t.id == b.id { SameIdSameStep(rem, t, b); }
      }
      SubsequenceUnique(p.1, rem);
      MutualDependencyFails(p.1, done', a, b);
    }
  }

  /** Steps c[0], …, c[n-1] where each depends on the next and the last on
   *  the first: a dependency cycle of any length. */
  predicate DependencyCycle(c: seq<PlanStep>) {
    |c| > 0 && forall i :: 0 <= i < |c| ==> c[(i + 1) % |c|].id in c[i].dependsOn
  }

  /** Any dependency cycle among steps whose ids are not yet completed makes
   *  the layering fail: no step of the cycle is ever ready. */
  lemma {:induction false} CycleFails(rem: seq<PlanStep>, done: set<string>, c: seq<PlanStep>)
    requires UniqueIds(rem)
    requires DependencyCycle(c)
    requires forall i :: 0 <= i < |c| ==> c[i] in rem && c[i].id !in done
    ensures WavesFrom(rem, done).Err?
    decreases |rem|
  {
    var p := Split(rem, done);
    SplitFacts(rem, done);
    if p.0 != [] {
      forall i | 0 <= i < |c| ensures c[i] in p.1 {
        var j := (i + 1) % |c|;
        assert c[j].id in c[i].dependsOn && c[j].id !in done;
      }
      var done' := done + Ids(p.0);
      forall i | 0 <= i < |c| ensures c[i].id !in done' {
        forall t | t in p.0 ensures t.id != c[i].id {
          if t.id == c[i].id { SameIdSameStep(rem, t, c[i]); }
        }
      }
      SubsequenceUnique(p.1, rem);
      CycleFails(p.1, done', c);
    }
  }

  /** A plan that layers into waves has no dependency cycle among its steps. */
  lemma LayeredPlanIsAcyclic(steps: seq<PlanStep>, c: seq<PlanStep>)
    requires UniqueIds(steps) && WavesFrom(steps, {}).Ok?
    requires forall i :: 0 <= i < |c| ==> c[i] in steps
    ensures !DependencyCycle(c)
  {
    if DependencyCycle(c) {
      CycleFails(steps, {}, c);
    }
  }

  lemma SameIdSameStep(rem: seq<PlanStep>, t: PlanStep, a: PlanStep)
    requires UniqueIds(rem) && t in rem && a in rem && t.id == a.id
    ensures t == a
  {
    var i :| 0 <= i < |rem| && rem[i] == t;
    var j :| 0 <= j < |rem| && rem[j] == a;
  }

  lemma {:induction false} SubsequenceUnique(a: seq<PlanStep>, b: seq<PlanStep>)
    requires IsSubsequence(a, b) && UniqueIds(b)
    ensures UniqueIds(a)
    decreases |b|
  {
    if a != [] {
      assert b != [];
      var b' := b[1..];
      assert UniqueIds(b') by {
        forall i, j | 0 <= i < |b'| && 0 <= j < |b'| && b'[i].id == b'[j].id ensures i == j {
          assert b[i + 1].id == b[j + 1].id;
        }
      }
      if a[0] == b[0] && IsSubsequence(a[1..], b') {
        SubsequenceUnique(a[1..], b');
        SubsequenceMembers(a[1..], b');
        forall j | 0 < j < |a| ensures a[j].id != a[0].id {
          assert a[j] == a[1..][j - 1];
          assert a[j] in a[1..] && a[j] in b';
          var m :| 0 <= m < |b'| && b'[m] == a[j];
          assert b[m + 1] == a[j];
        }
        forall i, j | 0 <= i < |a| && 0 <= j < |a| && a[i].id == a[j].id ensures i == j {
          if i > 0 && j > 0 {
            assert a[i] == a[1..][i - 1] && a[j] == a[1..][j - 1];
          }
        }
      } else {
        SubsequenceUnique(a, b');
      }
    }
  }

  lemma {:induction false} SubsequenceMembers(a: seq<PlanStep>, b: seq<PlanStep>)
    requires IsSubsequence(a, b)
    ensures forall x :: x in a ==> x in b
    decreases |b|
  {
    if a != [] {
      if a[0] == b[0] && IsSubsequence(a[1..], b[1..]) {
        SubsequenceMembers(a[1..], b[1..]);
        assert forall x :: x in a ==> x == a[0] || x in a[1..];
      } else {
        SubsequenceMembers(a, b[1..]);
      }
    }
  }

  lemma ConsOne(a: seq<PlanStep>, b: seq<PlanStep>)
    ensures [a] + [b] == [a, b]
  {
  }

  lemma ConsTwo(a: seq<PlanStep>, b: seq<PlanStep>, c: seq<PlanStep>)
    ensures [a] + [b, c] == [a, b, c]
  {
  }

  lemma WavesCons(rem: seq<PlanStep>, done: set<string>)
    requires rem != [] && Ready(rem, done) != []
    ensures WavesFrom(rem, done) == Prepend([Ready(rem, done)], WavesFrom(Blocked(rem, done), done + Ids(Ready(rem, done))))
  {
  }

  /** A chain s1 <- s2 <- {s3, s4} gives three waves, the last one holding s3
   *  and s4 in plan order. */
  lemma ChainScenario(s1: PlanStep, s2: PlanStep, s3: PlanStep, s4: PlanStep)
    requires s1.id == "s1" && s2.id == "s2" && s3.id == "s3" && s4.id == "s4"
    requires s1.dependsOn == [] && s2.dependsOn == ["s1"] && s3.dependsOn == ["s2"] && s4.dependsOn == ["s2"]
    ensures WavesFrom([s1, s2, s3, s4], {}) == Ok([[s1], [s2], [s3, s4]])
  {
    var d0: set<string> := {};
    assert "s1" in s2.dependsOn && "s2" in s3.dependsOn && "s2" in s4.dependsOn;
    assert DepsDone(s1, d0) && !DepsDone(s2, d0) && !DepsDone(s3, d0) && !DepsDone(s4, d0);
    SplitFirst(s1, [s2, s3, s4], d0);
    assert [s1] + [s2, s3, s4] == [s1, s2, s3, s4];
    var d1 := d0 + Ids([s1]);
    assert d1 == {"s1"};
    ChainTail(s2, s3, s4, d1);
    WavesCons([s1, s2, s3, s4], d0);
    ConsTwo([s1], [s2], [s3, s4]);
  }

  lemma ChainTail(s2: PlanStep, s3: PlanStep, s4: PlanStep, d1: set<string>)
    requires s2.id == "s2" && s2.dependsOn == ["s1"] && s3.dependsOn == ["s2"] && s4.dependsOn == ["s2"]
    requires d1 == {"s1"}
    ensures WavesFrom([s2, s3, s4], d1) == Ok([[s2], [s3, s4]])
  {
    assert "s1" in s2.dependsOn && "s2" in s3.dependsOn && "s2" in s4.dependsOn;
    assert DepsDone(s2, d1) && !DepsDone(s3, d1) && !DepsDone(s4, d1);
    SplitFirst(s2, [s3, s4], d1);
    assert [s2] + [s3, s4] == [s2, s3, s4];
    var d2 := d1 + Ids([s2]);
    assert d2 == {"s1", "s2"};
    assert DepsDone(s3, d2) && DepsDone(s4, d2);
    LastWave([s3, s4], d2);
    WavesCons([s2, s3, s4], d1);
    ConsOne([s2], [s3, s4]);
  }

  /** The diamond s1 <- {s2, s3} <- s4 gives [[s1], [s2, s3], [s4]]. */
  lemma DiamondScenario(s1: PlanStep, s2: PlanStep, s3: PlanStep, s4: PlanStep)
    requires s1.id == "s1" && s2.id == "s2" && s3.id == "s3" && s4.id == "s4"
    requires s1.dependsOn == [] && s2.dependsOn == ["s1"] && s3.dependsOn == ["s1"] && s4.dependsOn == ["s2", "s3"]
    ensures WavesFrom([s1, s2, s3, s4], {}) == Ok([[s1], [s2, s3], [s4]])
  {
    var d0: set<string> := {};
    assert "s1" in s2.dependsOn && "s1" in s3.dependsOn && "s2" in s4.dependsOn;
    assert DepsDone(s1, d0) && !DepsDone(s2, d0) && !DepsDone(s3, d0) && !DepsDone(s4, d0);
    SplitFirst(s1, [s2, s3, s4], d0);
    assert [s1] + [s2, s3, s4] == [s1, s2, s3, s4];
    var d1 := d0 + Ids([s1]);
    assert d1 == {"s1"};
    DiamondTail(s2, s3, s4, d1);
    WavesCons([s1, s2, s3, s4], d0);
    ConsTwo([s1], [s2, s3], [s4]);
  }

  lemma DiamondTail(s2: PlanStep, s3: PlanStep, s4: PlanStep, d1: set<string>)
    requires s2.id == "s2" && s3.id == "s3"
    requires s2.dependsOn == ["s1"] && s3.dependsOn == ["s1"] && s4.dependsOn == ["s2", "s3"]
    requires d1 == {"s1"}
    ensures WavesFrom([s2, s3, s4], d1) == Ok([[s2, s3], [s4]])
  {
    assert "s2" in s4.dependsOn;
    assert DepsDone(s2, d1) && DepsDone(s3, d1) && !DepsDone(s4, d1);
    SplitFirst(s3, [s4], d1);
    assert [s3] + [s4] == [s3, s4];
    SplitCons(s2, [s3, s4], d1);
    assert [s2] + [s3, s4] == [s2, s3, s4];
    assert Ready([s2, s3, s4], d1) == [s2, s3] && Blocked([s2, s3, s4], d1) == [s4];
    var d2 := d1 + Ids([s2, s3]);
    assert d2 == {"s1", "s2", "s3"};
    assert DepsDone(s4, d2);
    LastWave([s4], d2);
    WavesCons([s2, s3, s4], d1);
    ConsOne([s2, s3], [s4]);
  }

  /** A pass in which every remaining step is ready is the last one. */
  lemma LastWave(rem: seq<PlanStep>, done: set<string>)
    requires rem != [] && forall s :: s in rem ==> DepsDone(s, done)
    ensures WavesFrom(rem, done) == Ok([rem])
  {
    SplitFacts(rem, done);
    ReadyAll(rem, done);
    assert Blocked(rem, done) == [];
    assert [rem] + [] == [rem];
  }

  lemma {:induction false} ReadyAll(rem: seq<PlanStep>, done: set<string>)
    requires forall s :: s in rem ==> DepsDone(s, done)
    ensures Ready(rem, done) == rem
  {
    if rem != [] {
      ReadyAll(rem[1..], done);
      assert [rem[0]] + rem[1..] == rem;
    }
  }

  lemma {:induction false} ReadyNone(rem: seq<PlanStep>, done: set<string>)
    requires forall s :: s in rem ==> !DepsDone(s, done)
    ensures Ready(rem, done) == [] && Blocked(rem, done) == rem
  {
    if rem != [] {
      ReadyNone(rem[1..], done);
      assert [rem[0]] + rem[1..] == rem;
    }
  }

  /** A pass in which only the first step is ready. */
  lemma SplitFirst(a: PlanStep, rest: seq<PlanStep>, done: set<string>)
    requires DepsDone(a, done) && forall s :: s in rest ==> !DepsDone(s, done)
    ensures Ready([a] + rest, done) == [a] && Blocked([a] + rest, done) == rest
  {
    SplitCons(a, rest, done);
    ReadyNone(rest, done);
  }

  lemma SplitCons(x: PlanStep, rest: seq<PlanStep>, done: set<string>)
    ensures Ready([x] + rest, done) == (if DepsDone(x, done) then [x] else []) + Ready(rest, done)
    ensures Blocked([x] + rest, done) == (if DepsDone(x, done) then [] else [x]) + Blocked(rest, done)
  {
    assert ([x] + rest)[1..] == rest;
  }

  /** Two steps that depend on each other make the layering fail. */
  lemma CycleScenario(s1: PlanStep, s2: PlanStep)
    requires s1.id == "s1" && s2.id == "s2" && s1.dependsOn == ["s2"] && s2.dependsOn == ["s1"]
    ensures WavesFrom([s1, s2], {}).Err?
  {
    MutualDependencyFails([s1, s2], {}, s1, s2);
  }
}
