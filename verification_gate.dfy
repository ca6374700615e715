/** The verification gate: a compile layer over the Kotlin artifacts, a
 *  judge layer that scores the answer, and a test layer that runs only when
 *  the judge's reply could not be used. */
module VerificationGate {
  import opened Wrappers
  import Text
  import opened JsonValues
  import Fences
  import opened AgentSteps
  import opened ExecutionPlan

  datatype Severity = CRITICAL | WARNING | INFO

  datatype Issue = Issue(severity: Severity, description: string, location: Option<string>)

  datatype VerificationResult = VerificationResult(
    passed: bool,
    score: real,
    issues: seq<Issue>,
    suggestions: seq<string>)

  const DefaultScore: real := 0.7

  /** A tool call returns a result or throws. */
  type ToolCall = (string, string) -> Result<ToolResult, string>

  /** The gate's collaborators: the optional compiler (code, filename) and
   *  test runner (source_code, test_code); the judge's chat call on the
   *  review prompt, which is built from the step's description and
   *  constraints and the artifacts; the lenient JSON parser (None where it
   *  throws); and `String.toDoubleOrNull`. */
  datatype Gate = Gate(
    compiler: Option<ToolCall>,
    testRunner: Option<ToolCall>,
    judge: (string, seq<string>, seq<CodeArtifact>) -> Result<string, string>,
    parse: string -> Option<Json>,
    toDouble: string -> Option<real>)

  predicate HasCritical(issues: seq<Issue>) {
    exists i :: 0 <= i < |issues| && issues[i].severity == CRITICAL
  }

  // ---- layer 1: compile ----

  predicate IsKotlin(a: CodeArtifact) {
    Text.Lower(a.language) == "kotlin" || Text.Lower(a.language) == "kt"
  }

  /** What checking one artifact adds: a CRITICAL issue at its filename when
   *  the compiler reports a failure; nothing on success, on a throw, or for
   *  an artifact that is not Kotlin. */
  function CompileIssue(compile: ToolCall, a: CodeArtifact): seq<Issue> {
    if !IsKotlin(a) then []
    else match compile(a.content, a.filename)
      case Ok(Failure(e, _)) => [Issue(CRITICAL, "Derleme hatasi: " + e, Some(a.filename))]
      case _ => []
  }

  /** The issues of the compile loop after the given artifacts. */
  function CompileIssues(compile: ToolCall, arts: seq<CodeArtifact>): seq<Issue> {
    if arts == [] then []
    else CompileIssues(compile, arts[..|arts| - 1]) + CompileIssue(compile, arts[|arts| - 1])
  }

  function CompileLayer(gate: Gate, arts: seq<CodeArtifact>): seq<Issue> {
    match gate.compiler
    case None => []
    case Some(c) => CompileIssues(c, arts)
  }

  /** The artifact is Kotlin and the compiler reported a failure for it. */
  predicate CompileFails(compile: ToolCall, a: CodeArtifact) {
    IsKotlin(a) && compile(a.content, a.filename).Ok? && compile(a.content, a.filename).value.Failure?
  }

  function CountCompileFailures(compile: ToolCall, arts: seq<CodeArtifact>): nat {
    if arts == [] then 0
    else CountCompileFailures(compile, arts[..|arts| - 1]) + (if CompileFails(compile, arts[|arts| - 1]) then 1 else 0)
  }

  /** The compile layer adds exactly one issue per failing Kotlin artifact. */
  lemma {:induction false} CompileIssuesCount(compile: ToolCall, arts: seq<CodeArtifact>)
    ensures |CompileIssues(compile, arts)| == CountCompileFailures(compile, arts)
  {
    if arts != [] {
      CompileIssuesCount(compile, arts[..|arts| - 1]);
    }
  }

  /** The issue a failing artifact gets. */
  function CompileFailureIssue(compile: ToolCall, a: CodeArtifact): Issue
    requires CompileFails(compile, a)
  {
    Issue(CRITICAL, "Derleme hatasi: " + compile(a.content, a.filename).value.error, Some(a.filename))
  }

  predicate IssueOfSomeArtifact(compile: ToolCall, arts: seq<CodeArtifact>, issue: Issue) {
    exists k :: 0 <= k < |arts| && CompileFails(compile, arts[k]) && issue == CompileFailureIssue(compile, arts[k])
  }

  predicate ReportedAt(issues: seq<Issue>, filename: string) {
    exists i :: 0 <= i < |issues| && issues[i].severity == CRITICAL && issues[i].location == Some(filename)
  }

  /** Each compile issue is CRITICAL, carries the compiler's error and is
   *  located at the filename of a Kotlin artifact that failed. */
  lemma {:induction false} CompileIssuesSound(compile: ToolCall, arts: seq<CodeArtifact>)
    ensures forall i :: 0 <= i < |CompileIssues(compile, arts)| ==>
      IssueOfSomeArtifact(compile, arts, CompileIssues(compile, arts)[i])
  {
    if arts != [] {
      var init := arts[..|arts| - 1];
      var last := arts[|arts| - 1];
      CompileIssuesSound(compile, init);
      var prev := CompileIssues(compile, init);
      var issues := CompileIssues(compile, arts);
      assert issues == prev + CompileIssue(compile, last);
      forall i | 0 <= i < |issues| ensures IssueOfSomeArtifact(compile, arts, issues[i]) {
        if i < |prev| {
          assert issues[i] == prev[i];
          assert IssueOfSomeArtifact(compile, init, prev[i]);
          var k :| 0 <= k < |init| && CompileFails(compile, init[k]) && prev[i] == CompileFailureIssue(compile, init[k]);
          assert arts[k] == init[k];
        } else {
          assert issues[i] == CompileFailureIssue(compile, arts[|arts| - 1]);
        }
      }
    }
  }

  /** Every Kotlin artifact that fails gets a CRITICAL issue at its filename. */
  lemma {:induction false} CompileIssuesComplete(compile: ToolCall, arts: seq<CodeArtifact>)
    ensures forall k :: 0 <= k < |arts| && CompileFails(compile, arts[k]) ==>
      ReportedAt(CompileIssues(compile, arts), arts[k].filename)
  {
    if arts != [] {
      var init := arts[..|arts| - 1];
      var last := arts[|arts| - 1];
      CompileIssuesComplete(compile, init);
      var prev := CompileIssues(compile, init);
      var issues := CompileIssues(compile, arts);
      assert issues == prev + CompileIssue(compile, last);
      forall k | 0 <= k < |arts| && CompileFails(compile, arts[k]) ensures ReportedAt(issues, arts[k].filename) {
        if k < |init| {
          assert arts[k] == init[k];
          assert ReportedAt(prev, init[k].filename);
          var i :| 0 <= i < |prev| && prev[i].severity == CRITICAL && prev[i].location == Some(init[k].filename);
          assert issues[i] == prev[i];
        } else {
          assert arts[k] == last;
          assert issues[|prev|].location == Some(last.filename);
        }
      }
    }
  }

  // ---- layer 2: judge ----

  datatype JudgeResponse = JudgeResponse(score: real, issues: seq<string>, suggestions: seq<string>)

  /** The contents of an array's elements; None when one is not a primitive,
   *  where the cast in the source throws. */
  function Contents(items: seq<Json>): (r: Option<seq<string>>)
    ensures r.Some? <==> forall i :: 0 <= i < |items| ==> items[i].IsPrimitive()
    ensures r.Some? ==> |r.value| == |items| && forall i :: 0 <= i < |items| ==> Some(r.value[i]) == Content(items[i])
  {
    if items == [] then Some([])
    else match (Content(items[0]), Contents(items[1..]))
      case (Some(c), Some(rest)) => Some([c] + rest)
      case _ => None
  }

  /** A list field: its element contents, [] when missing or not an array,
   *  None where the source throws. */
  function ListField(obj: Json, key: string): Option<seq<string>> {
    match Field(obj, key)
    case Some(JArray(items)) => Contents(items)
    case _ => Some([])
  }

  /** The "score" field as a number, or the default. */
  function ScoreField(gate: Gate, obj: Json): real {
    match StringField(obj, "score")
    case Some(t) => gate.toDouble(t).GetOr(DefaultScore)
    case None => DefaultScore
  }

  /** The judge's reply read as a verdict; None when it does not parse, is
   *  not an object, or a list holds a non-primitive. */
  function ReadJudge(gate: Gate, reply: string): Option<JudgeResponse> {
    match gate.parse(Fences.ExtractJson(reply))
    case Some(obj) =>
      if !obj.JObject? then None
      else
        var issues := ListField(obj, "issues");
        var suggestions := ListField(obj, "suggestions");
        if issues.None? || suggestions.None? then None
        else Some(JudgeResponse(ScoreField(gate, obj), issues.value, suggestions.value))
    case None => None
  }

  function JudgeLayer(gate: Gate, step: PlanStep, arts: seq<CodeArtifact>): Option<JudgeResponse> {
    match gate.judge(step.description, step.constraints, arts)
    case Ok(reply) => ReadJudge(gate, reply)
    case Err(_) => None
  }

  function Warnings(texts: seq<string>): seq<Issue> {
    seq(|texts|, i requires 0 <= i < |texts| => Issue(WARNING, texts[i], None))
  }

  // ---- layer 3: tests ----

  predicate IsTestFile(a: CodeArtifact) {
    Text.ContainsIgnoreCase(a.filename, "Test")
  }

  /** `filter { contains("Test", ignoreCase) == want }` */
  function FilterTests(arts: seq<CodeArtifact>, want: bool): (r: seq<CodeArtifact>)
    ensures forall i :: 0 <= i < |r| ==> IsTestFile(r[i]) == want
  {
    if arts == [] then []
    else (if IsTestFile(arts[0]) == want then [arts[0]] else []) + FilterTests(arts[1..], want)
  }

  /** A filtered list is empty exactly when no artifact qualifies, and its
   *  head is the first artifact that does. */
  lemma {:induction false} FilterTestsHead(arts: seq<CodeArtifact>, want: bool)
    ensures FilterTests(arts, want) == [] <==> forall k :: 0 <= k < |arts| ==> IsTestFile(arts[k]) != want
    ensures FilterTests(arts, want) != [] ==>
      exists k :: 0 <= k < |arts| && FilterTests(arts, want)[0] == arts[k]
        && (forall j :: 0 <= j < k ==> IsTestFile(arts[j]) != want)
  {
    if arts != [] {
      FilterTestsHead(arts[1..], want);
      if IsTestFile(arts[0]) != want && FilterTests(arts, want) != [] {
        var k :| 0 <= k < |arts[1..]| && FilterTests(arts[1..], want)[0] == arts[1..][k]
          && (forall j :: 0 <= j < k ==> IsTestFile(arts[1..][j]) != want);
        assert FilterTests(arts, want)[0] == arts[k + 1];
        forall j | 0 <= j < k + 1 ensures IsTestFile(arts[j]) != want {
          if j > 0 { assert arts[j] == arts[1..][j - 1]; }
        }
      }
      if IsTestFile(arts[0]) != want {
        forall k | 0 <= k < |arts| && (forall j :: 0 <= j < |arts[1..]| ==> IsTestFile(arts[1..][j]) != want)
          ensures IsTestFile(arts[k]) != want
        {
          if k > 0 { assert arts[k] == arts[1..][k - 1]; }
        }
      }
    }
  }

  function TestLayer(gate: Gate, arts: seq<CodeArtifact>): seq<Issue> {
    var tests := FilterTests(arts, true);
    var sources := FilterTests(arts, false);
    if gate.testRunner.None? || tests == [] || sources == [] then []
    else match gate.testRunner.value(sources[0].content, tests[0].content)
      case Ok(Failure(e, _)) => [Issue(CRITICAL, "Test basarisiz: " + e, None)]
      case _ => []
  }

  // ---- the verdict ----

  function Verdict(issues: seq<Issue>, score: real, suggestions: seq<string>): VerificationResult {
    VerificationResult(!HasCritical(issues) && score >= DefaultScore, score, issues, suggestions)
  }

  /** What `verify` returns for a step and the answer's artifacts. */
  function VerifyResult(gate: Gate, step: PlanStep, arts: seq<CodeArtifact>): VerificationResult {
    var compiled := CompileLayer(gate, arts);
    match JudgeLayer(gate, step, arts)
    case Some(j) => Verdict(compiled + Warnings(j.issues), j.score, j.suggestions)
    case None => Verdict(compiled + TestLayer(gate, arts), DefaultScore, [])
  }

  /** `verify` */
  method Verify(gate: Gate, step: PlanStep, result: AgentStep) returns (r: VerificationResult)
    requires result.Answer?
    ensures r == VerifyResult(gate, step, result.artifacts)
  {
    var arts := result.artifacts;
    var issues: seq<Issue> := [];
    var judgeScore := DefaultScore;
    if gate.compiler.Some? {
      var compile := gate.compiler.value;
      for k := 0 to |arts|
        invariant issues == CompileIssues(compile, arts[..k])
      {
        assert arts[..k + 1][..k] == arts[..k];
        var artifact := arts[k];
        if Text.Lower(artifact.language) == "kotlin" || Text.Lower(artifact.language) == "kt" {
          var compileResult := compile(artifact.content, artifact.filename);
          match compileResult {
            case Ok(Failure(e, _)) =>
              issues := issues + [Issue(CRITICAL, "Derleme hatasi: " + e, Some(artifact.filename))];
            case _ =>
          }
        }
      }
      assert arts[..|arts|] == arts;
    }
    assert issues == CompileLayer(gate, arts);
    var judgeResponse := gate.judge(step.description, step.constraints, arts);
    if judgeResponse.Ok? {
      var parsed := ReadJudge(gate, judgeResponse.value);
      if parsed.Some? {
        judgeScore := parsed.value.score;
        issues := issues + Warnings(parsed.value.issues);
        return VerificationResult(!HasCritical(issues) && judgeScore >= DefaultScore, judgeScore, issues, parsed.value.suggestions);
      }
    }
    if gate.testRunner.Some? {
      var testArtifacts := FilterTests(arts, true);
      var sourceArtifacts := FilterTests(arts, false);
      if testArtifacts != [] && sourceArtifacts != [] {
        var testResult := gate.testRunner.value(sourceArtifacts[0].content, testArtifacts[0].content);
        match testResult {
          case Ok(Failure(e, _)) => issues := issues + [Issue(CRITICAL, "Test basarisiz: " + e, None)];
          case _ =>
        }
      }
    }
    assert JudgeLayer(gate, step, arts).None?;
    assert issues == CompileLayer(gate, arts) + TestLayer(gate, arts);
    var hasCritical := HasCritical(issues);
    return VerificationResult(!hasCritical && judgeScore >= DefaultScore, judgeScore, issues, []);
  }

  // ---- properties of the verdict ----

  /** On every path, an answer passes exactly when no issue is CRITICAL and
   *  the score reaches 0.7. */
  lemma PassedMeansNoCriticalAndScore(gate: Gate, step: PlanStep, arts: seq<CodeArtifact>)
    ensures var r := VerifyResult(gate, step, arts);
      r.passed <==> (forall i :: 0 <= i < |r.issues| ==> r.issues[i].severity != CRITICAL) && r.score >= 0.7
  {
  }

  /** A Kotlin artifact that fails to compile makes the answer fail, whatever
   *  the judge says. */
  lemma CompileFailureFails(gate: Gate, step: PlanStep, arts: seq<CodeArtifact>, k: nat)
    requires gate.compiler.Some? && k < |arts| && CompileFails(gate.compiler.value, arts[k])
    ensures !VerifyResult(gate, step, arts).passed
  {
    var c := gate.compiler.value;
    CompileIssuesComplete(c, arts);
    var compiled := CompileIssues(c, arts);
    assert ReportedAt(compiled, arts[k].filename);
    var i :| 0 <= i < |compiled| && compiled[i].severity == CRITICAL && compiled[i].location == Some(arts[k].filename);
    var r := VerifyResult(gate, step, arts);
    assert r.issues[i] == compiled[i];
  }

  /** When the judge's reply is usable, verify returns at once: its issues
   *  follow the compile issues as WARNINGs without location, score and
   *  suggestions are the judge's, and the test runner plays no part. */
  lemma UsableJudgeSkipsTests(gate: Gate, step: PlanStep, arts: seq<CodeArtifact>, runner: Option<ToolCall>)
    requires JudgeLayer(gate, step, arts).Some?
    ensures var j := JudgeLayer(gate, step, arts).value; var r := VerifyResult(gate, step, arts);
      && r.score == j.score
      && r.suggestions == j.suggestions
      && |r.issues| == |CompileLayer(gate, arts)| + |j.issues|
      && r.issues[..|CompileLayer(gate, arts)|] == CompileLayer(gate, arts)
      && (forall i :: 0 <= i < |j.issues| ==> r.issues[|CompileLayer(gate, arts)| + i] == Issue(WARNING, j.issues[i], None))
      && VerifyResult(gate.(testRunner := runner), step, arts) == r
  {
    var g := gate.(testRunner := runner);
    assert CompileLayer(g, arts) == CompileLayer(gate, arts);
    assert JudgeLayer(g, step, arts) == JudgeLayer(gate, step, arts);
  }

  /** When the judge fails, answers something unreadable, or something that
   *  is not an object, the score stays 0.7 and there are no suggestions. */
  lemma UnusableJudgeKeepsDefault(gate: Gate, step: PlanStep, arts: seq<CodeArtifact>)
    requires JudgeLayer(gate, step, arts).None?
    ensures var r := VerifyResult(gate, step, arts);
      r.score == 0.7 && r.suggestions == []
      && r.issues == CompileLayer(gate, arts) + TestLayer(gate, arts)
  {
  }

  /** A reply that does not parse, or parses to a non-object, is unusable. */
  lemma NonObjectReplyUnusable(gate: Gate, reply: string)
    requires gate.parse(Fences.ExtractJson(reply)).None? || !gate.parse(Fences.ExtractJson(reply)).value.JObject?
    ensures ReadJudge(gate, reply).None?
  {
  }

  /** A parsed object with primitive-only lists is usable; its score is the
   *  "score" field read as a number, or 0.7. */
  lemma ObjectReplyUsable(gate: Gate, reply: string)
    requires gate.parse(Fences.ExtractJson(reply)).Some?
    requires var obj := gate.parse(Fences.ExtractJson(reply)).value;
      obj.JObject? && ListField(obj, "issues").Some? && ListField(obj, "suggestions").Some?
    ensures var obj := gate.parse(Fences.ExtractJson(reply)).value;
      && ReadJudge(gate, reply).Some?
      && ReadJudge(gate, reply).value.score
           == (if StringField(obj, "score").Some? && gate.toDouble(StringField(obj, "score").value).Some?
               then gate.toDouble(StringField(obj, "score").value).value else 0.7)
  {
  }

  /** The test layer adds at most one CRITICAL issue, and only when a test
   *  runner is present and both a test artifact and a source artifact
   *  exist; it runs the first source artifact against the first test one. */
  lemma TestLayerShape(gate: Gate, arts: seq<CodeArtifact>)
    ensures var t := TestLayer(gate, arts);
      && |t| <= 1
      && (t != [] ==>
            && t[0].severity == CRITICAL && t[0].location == None
            && gate.testRunner.Some?
            && exists i, j :: 0 <= i < |arts| && 0 <= j < |arts|
                 && IsTestFile(arts[i]) && (forall x :: 0 <= x < i ==> !IsTestFile(arts[x]))
                 && !IsTestFile(arts[j]) && (forall x :: 0 <= x < j ==> IsTestFile(arts[x]))
                 && gate.testRunner.value(arts[j].content, arts[i].content).Ok?
                 && gate.testRunner.value(arts[j].content, arts[i].content).value.Failure?)
    ensures (forall x :: 0 <= x < |arts| ==> IsTestFile(arts[x])) ==> TestLayer(gate, arts) == []
    ensures (forall x :: 0 <= x < |arts| ==> !IsTestFile(arts[x])) ==> TestLayer(gate, arts) == []
  {
    FilterTestsHead(arts, true);
    FilterTestsHead(arts, false);
  }
}
