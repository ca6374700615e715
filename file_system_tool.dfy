/** The "file_system" tool: validates its input, normalises the path and
 *  dispatches one of four actions inside a sandbox directory. Whether a
 *  normalised path resolves inside the sandbox, and the file operations
 *  themselves, are parameters. */
module FileSystemTool {
  import opened Wrappers
  import Text
  import opened AgentSteps
  import opened Tools

  const Spec: ToolSpec := ToolSpec(
    "file_system",
    "Proje dosyalarını oku, yaz veya listele. Sandbox dizini içinde çalışır.",
    [Param("action", "Yapılacak işlem: read | write | list | delete"),
     Param("path", "Dosya veya dizin yolu (sandbox'a göre relatif)"),
     ToolParameter("content", "string", "Yazılacak içerik (sadece write için)", false)])

  /** "action" and "path" are required, "content" is not. */
  lemma ActionAndPathRequired()
    ensures ToToolDefinition(Spec).inputSchema.required == ["action", "path"]
  {
    assert Spec.parameters[1..][1..][1..] == [];
  }

  /** `replace(old, new)` for a nonempty old: the non-overlapping
   *  occurrences, found left to right, are replaced in one pass. */
  function ReplaceAll(s: string, pat: string, rep: string): string
    requires pat != []
    decreases |s|
  {
    if |s| < |pat| then s
    else if s[..|pat|] == pat then rep + ReplaceAll(s[|pat|..], pat, rep)
    else [s[0]] + ReplaceAll(s[1..], pat, rep)
  }

  /** A pattern that does not occur leaves the text unchanged. */
  lemma {:induction false} ReplaceAbsent(s: string, pat: string, rep: string)
    requires pat != [] && !Text.Contains(s, pat)
    ensures ReplaceAll(s, pat, rep) == s
    decreases |s|
  {
    if |s| >= |pat| {
      assert !Text.OccursAt(s, pat, 0);
      assert s[..|pat|] != pat;
      forall i | 0 <= i <= |s[1..]| - |pat| ensures !Text.OccursAt(s[1..], pat, i) {
        assert s[1..][i..i + |pat|] == s[i + 1..i + 1 + |pat|];
        assert !Text.OccursAt(s, pat, i + 1);
      }
      ReplaceAbsent(s[1..], pat, rep);
    }
  }

  /** `replace('\\', '/')` */
  function Slashes(s: string): (r: string)
    ensures |r| == |s| && forall i :: 0 <= i < |r| ==> r[i] != '\\'
    ensures forall i :: 0 <= i < |s| ==> r[i] == if s[i] == '\\' then '/' else s[i]
  {
    seq(|s|, i requires 0 <= i < |s| => if s[i] == '\\' then '/' else s[i])
  }

  /** `removePrefix("/")` */
  function DropLeadingSlash(s: string): (r: string)
    ensures r == if s != [] && s[0] == '/' then s[1..] else s
  {
    if s != [] && s[0] == '/' then s[1..] else s
  }

  /** The normalisation of `sanitizePath`. */
  function Normalize(path: string): string {
    DropLeadingSlash(ReplaceAll(ReplaceAll(Slashes(path), "../", ""), "..\\", ""))
  }

  /** Removing a pattern never adds a character that was not already there. */
  lemma {:induction false} RemoveKeepsChars(s: string, pat: string, c: char)
    requires pat != [] && c !in s
    ensures c !in ReplaceAll(s, pat, "")
    decreases |s|
  {
    if |s| >= |pat| {
      if s[..|pat|] == pat {
        RemoveKeepsChars(s[|pat|..], pat, c);
      } else {
        RemoveKeepsChars(s[1..], pat, c);
      }
    }
  }

  /** Once backslashes are gone the "..\" removal has nothing to remove, and
   *  the normalised path holds no backslash. */
  lemma NormalizeHasNoBackslash(path: string)
    ensures var t := ReplaceAll(Slashes(path), "../", "");
      ReplaceAll(t, "..\\", "") == t && Normalize(path) == DropLeadingSlash(t)
    ensures '\\' !in Normalize(path)
  {
    var t := ReplaceAll(Slashes(path), "../", "");
    RemoveKeepsChars(Slashes(path), "../", '\\');
    forall i | 0 <= i <= |t| - 3 ensures !Text.OccursAt(t, "..\\", i) {
      assert t[i..i + 3][2] == t[i + 2];
    }
    ReplaceAbsent(t, "..\\", "");
  }

  /** The single removal pass can create a fresh "../" out of the pieces
   *  around a removed one, so normalising again changes the path. */
  lemma RemovalCanCreateTraversal()
    ensures Normalize("....//") == "../"
    ensures Normalize("../") == ""
  {
    assert Slashes("....//") == "....//";
    assert "....//"[..3][2] == '.' != "../"[2];
    assert "...//"[..3][2] == '.' != "../"[2];
    assert "..//"[..3] == "../";
    assert ReplaceAll("/", "../", "") == "/";
    assert ReplaceAll("....//", "../", "") == "../";
    assert "../"[..3] != "..\\";
    assert ReplaceAll("../", "..\\", "") == "../";
    assert Slashes("../") == "../";
    assert ReplaceAll("../", "../", "") == "";
  }

  /** The four file operations, performed by the environment. Each returns a
   *  tool result or throws. */
  datatype FsAction = ReadFile(path: string) | WriteFile(path: string, content: string) | ListDir(path: string) | DeleteFile(path: string)

  const Actions: set<string> := {"read", "write", "list", "delete"}

  /** The checks made before any file is touched: the action or the file
   *  operation to perform. */
  function Validate(input: map<string, string>, contained: string -> bool): (r: Result<FsAction, ToolResult>)
    ensures r.Err? ==> r.error.Failure? && !r.error.retryable
    ensures r.Ok? <==>
      && "action" in input && "path" in input && contained(Normalize(input["path"]))
      && Text.Lower(input["action"]) in Actions
      && (Text.Lower(input["action"]) == "write" ==> "content" in input)
    ensures r.Ok? ==> r.value.path == Normalize(input["path"])
  {
    if "action" !in input then Err(Failure("'action' parametresi gerekli", false))
    else if "path" !in input then Err(Failure("'path' parametresi gerekli", false))
    else
      var action, path := input["action"], input["path"];
      var sanitized := Normalize(path);
      if !contained(sanitized) then
        Err(Failure("Geçersiz path: " + path + " (sandbox dışına erişim engellendi)", false))
      else
        var act := Text.Lower(action);
        if act == "read" then Ok(ReadFile(sanitized))
        else if act == "write" then
          if "content" in input then Ok(WriteFile(sanitized, input["content"]))
          else Err(Failure("'content' parametresi gerekli (write)", false))
        else if act == "list" then Ok(ListDir(sanitized))
        else if act == "delete" then Ok(DeleteFile(sanitized))
        else Err(Failure("Bilinmeyen action: " + action + " (read|write|list|delete)", false))
  }

  /** `execute`: the validation failure, or the file operation's result,
   *  where an exception becomes a retryable I/O failure. */
  function Execute(input: map<string, string>, contained: string -> bool,
                   perform: FsAction -> Result<ToolResult, string>): (r: ToolResult)
    ensures "action" !in input ==> r == Failure("'action' parametresi gerekli", false)
    ensures "action" in input && "path" !in input ==> r == Failure("'path' parametresi gerekli", false)
    ensures "action" in input && "path" in input && !contained(Normalize(input["path"])) ==>
              r.Failure? && !r.retryable
    ensures "action" in input && "path" in input && contained(Normalize(input["path"])) &&
            Text.Lower(input["action"]) !in Actions ==>
              r.Failure? && !r.retryable && Text.StartsWith(r.error, "Bilinmeyen action: ")
  {
    match Validate(input, contained)
    case Err(failure) => failure
    case Ok(action) =>
      match perform(action)
      case Ok(result) => result
      case Err(message) => Failure("I/O hatasi: " + message, true)
  }

  /** A rejected input fails the same way whatever the file system would
   *  do: no action runs before the checks pass. */
  lemma RejectedBeforeAnyAction(input: map<string, string>, contained: string -> bool,
                                p1: FsAction -> Result<ToolResult, string>, p2: FsAction -> Result<ToolResult, string>)
    requires Validate(input, contained).Err?
    ensures Execute(input, contained, p1) == Execute(input, contained, p2) == Validate(input, contained).error
    ensures Execute(input, contained, p1).Failure? && !Execute(input, contained, p1).retryable
  {
  }

  /** Upper-case or mixed-case action names select the same operation. */
  lemma ActionCaseInsensitive(input: map<string, string>, contained: string -> bool, other: string)
    requires "action" in input && Text.Lower(other) == Text.Lower(input["action"])
    ensures Validate(input, contained).Ok? <==> Validate(input[ "action" := other], contained).Ok?
    ensures Validate(input, contained).Ok? ==> Validate(input, contained) == Validate(input["action" := other], contained)
  {
  }
}
