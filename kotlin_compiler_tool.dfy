/** The "kotlin_compile" tool: compiles a source text with kotlinc, and
 *  falls back to a bracket-counting syntax check when the compiler cannot
 *  be started. The compiler process is a parameter. */
module KotlinCompilerTool {
  import opened Wrappers
  import Text
  import opened AgentSteps
  import opened Tools

  const Spec: ToolSpec := ToolSpec(
    "kotlin_compile",
    "Kotlin kodunu derler ve hataları döndürür. Derleme başarılıysa onay, değilse hata mesajı verir.",
    [Param("code", "Derlenecek Kotlin kodu"),
     ToolParameter("filename", "string", "Dosya adı (ör: Main.kt)", false)])

  /** Only "code" is required by the tool's definition. */
  lemma OnlyCodeRequired()
    ensures ToToolDefinition(Spec).inputSchema.required == ["code"]
  {
    assert Spec.parameters[1..][1..] == [];
  }

  /** What starting kotlinc on the written file did: it exited with a code
   *  and its merged output, or it could not be run at all. */
  datatype CompileRun = Exited(exitCode: int, output: string) | CouldNotRun(message: string)

  function BraceMessage(code: string): string {
    "Bracket mismatch: { = " + Text.IntToString(Text.Count(code, '{')) + ", } = " + Text.IntToString(Text.Count(code, '}'))
  }

  function ParenMessage(code: string): string {
    "Parenthesis mismatch: ( = " + Text.IntToString(Text.Count(code, '(')) + ", ) = " + Text.IntToString(Text.Count(code, ')'))
  }

  predicate BracesBalanced(code: string) { Text.Count(code, '{') == Text.Count(code, '}') }

  predicate ParensBalanced(code: string) { Text.Count(code, '(') == Text.Count(code, ')') }

  /** The issues the syntax check reports: a brace mismatch first, then a
   *  parenthesis mismatch. */
  function Mismatches(code: string): (r: seq<string>)
    ensures r == [] <==> BracesBalanced(code) && ParensBalanced(code)
    ensures |r| <= 2
    ensures !BracesBalanced(code) ==> r[0] == BraceMessage(code)
    ensures !ParensBalanced(code) ==> r[|r| - 1] == ParenMessage(code)
  {
    (if BracesBalanced(code) then [] else [BraceMessage(code)]) +
    (if ParensBalanced(code) then [] else [ParenMessage(code)])
  }

  function SyntaxOkMessage(filename: string): string {
    "Syntax check basarili (tam derleme yapılamadi, kotlinc bulunamadi): " + filename
  }

  /** `syntaxCheck`: collects the mismatches; none is a success naming the
   *  file, any is a retryable failure listing them one per line. */
  method SyntaxCheck(code: string, filename: string) returns (r: ToolResult)
    ensures r.Success? <==> BracesBalanced(code) && ParensBalanced(code)
    ensures r.Success? ==> r == Success(SyntaxOkMessage(filename), None)
    ensures r.Failure? ==> r == Failure("Syntax hatalari:\n" + Text.Join(Mismatches(code), "\n"), true)
  {
    var issues: seq<string> := [];
    var openBraces, closeBraces := Text.Count(code, '{'), Text.Count(code, '}');
    if openBraces != closeBraces {
      issues := issues + [BraceMessage(code)];
    }
    var openParens, closeParens := Text.Count(code, '('), Text.Count(code, ')');
    if openParens != closeParens {
      issues := issues + [ParenMessage(code)];
    }
    if issues == [] {
      r := Success(SyntaxOkMessage(filename), None);
    } else {
      r := Failure("Syntax hatalari:\n" + Text.Join(issues, "\n"), true);
    }
  }

  /** Empty code passes the syntax check. */
  lemma EmptyCodePasses()
    ensures Mismatches("") == []
  {
  }

  /** `execute`: a missing "code" is a non-retryable failure; the file name
   *  defaults to "Main.kt"; exit code 0 is a success naming the file, any
   *  other a retryable failure carrying the compiler output; a compiler that
   *  cannot be run falls back to the syntax check. */
  method Execute(input: map<string, string>, compile: (string, string) -> CompileRun) returns (r: ToolResult)
    ensures "code" !in input ==> r == Failure("'code' parametresi gerekli", false)
    ensures "code" in input ==>
      var filename := if "filename" in input then input["filename"] else "Main.kt";
      match compile(input["code"], filename)
      case Exited(0, _) => r == Success("Derleme basarili: " + filename, None)
      case Exited(_, output) => r == Failure("Derleme hatasi:\n" + output, true)
      case CouldNotRun(_) =>
        && (r.Success? <==> Mismatches(input["code"]) == [])
        && (r.Success? ==> r == Success(SyntaxOkMessage(filename), None))
        && (r.Failure? ==> r == Failure("Syntax hatalari:\n" + Text.Join(Mismatches(input["code"]), "\n"), true))
  {
    if "code" !in input {
      return Failure("'code' parametresi gerekli", false);
    }
    var code := input["code"];
    var filename := if "filename" in input then input["filename"] else "Main.kt";
    match compile(code, filename)
    case Exited(exitCode, output) =>
      if exitCode == 0 {
        r := Success("Derleme basarili: " + filename, None);
      } else {
        r := Failure("Derleme hatasi:\n" + output, true);
      }
    case CouldNotRun(_) =>
      r := SyntaxCheck(code, filename);
  }
}
