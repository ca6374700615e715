/** What the two model clients share: the HTTP status they report, the chat
 *  messages they send, and the code artifacts they cut out of the fenced
 *  blocks of a reply. */
module LlmReplies {
  import Text
  import Fences
  import opened AgentSteps

  /** An HTTP status as Ktor prints it, e.g. "404 Not Found". */
  datatype Status = Status(value: int, description: string)

  function StatusText(s: Status): string {
    Text.IntToString(s.value) + " " + s.description
  }

  predicate IsSuccess(s: Status) {
    200 <= s.value <= 299
  }

  /** One chat message of a request. */
  datatype Message = Message(role: string, content: string)

  const Prefix := "generated_"

  /** The name of the n-th artifact. */
  function FileName(n: nat, ext: string): (r: string)
    ensures Text.StartsWith(r, Prefix) && Text.EndsWith(r, "." + ext)
  {
    var r := Prefix + Text.NatToString(n) + "." + ext;
    assert r[..|Prefix|] == Prefix;
    assert r[|r| - |"." + ext|..] == "." + ext;
    r
  }

  /** Two artifacts with different numbers never share a file name, whatever
   *  their extensions. */
  lemma FileNamesDiffer(m: nat, n: nat, e1: string, e2: string)
    requires m != n
    ensures FileName(m, e1) != FileName(n, e2)
  {
    if FileName(m, e1) == FileName(n, e2) {
      FileNameInjective(m, n, e1, e2);
    }
  }

  lemma FileNameInjective(m: nat, n: nat, e1: string, e2: string)
    requires FileName(m, e1) == FileName(n, e2)
    ensures m == n
  {
    var a, b := Text.NatToString(m), Text.NatToString(n);
    var x, y := a + "." + e1, b + "." + e2;
    FileNameSplit(m, e1);
    FileNameSplit(n, e2);
    CancelPrefix(Prefix, x, y);
    DotAfterDigits(a, e1);
    DotAfterDigits(b, e2);
    assert a == x[..|a|] && b == y[..|b|];
    Text.NatToStringInjective(m, n);
  }

  lemma FileNameSplit(n: nat, ext: string)
    ensures FileName(n, ext) == Prefix + (Text.NatToString(n) + "." + ext)
  {
  }

  lemma CancelPrefix(p: string, x: string, y: string)
    requires p + x == p + y
    ensures x == y
  {
    assert x == (p + x)[|p|..];
    assert y == (p + y)[|p|..];
  }

  /** The number ends at the first dot. */
  lemma DotAfterDigits(digits: string, ext: string)
    requires forall i :: 0 <= i < |digits| ==> Text.IsDigit(digits[i])
    ensures Text.IndexOf(digits + "." + ext, '.') == |digits|
  {
    assert (digits + "." + ext)[|digits|] == '.';
  }

  /** The language of a block: its info word, or Kotlin without one. */
  function Language(b: Fences.Block): (r: string)
    ensures r != []
  {
    if b.tag == "" then "kotlin" else b.tag
  }

  /** The artifact of the block matched i-th. */
  function ArtifactOf(b: Fences.Block, i: nat, extension: string -> string): CodeArtifact {
    Artifact(FileName(i + 1, extension(Language(b))), Language(b), Text.Trim(b.body))
  }

  /** `extractCodeArtifacts`: one artifact per match of the code-block
   *  pattern, in order, numbered from 1, named after the extension of its
   *  language, holding the trimmed body. */
  function CodeArtifacts(text: string, extension: string -> string): (r: seq<CodeArtifact>)
    ensures |r| == |Fences.AllBlocks(text, 0, true)|
    ensures forall i :: 0 <= i < |r| ==>
      var b := Fences.AllBlocks(text, 0, true)[i];
      && r[i].language == Language(b)
      && r[i].content == Text.Trim(b.body)
      && r[i].filename == FileName(i + 1, extension(r[i].language))
      && r[i].version == 1
  {
    var blocks := Fences.AllBlocks(text, 0, true);
    seq(|blocks|, i requires 0 <= i < |blocks| => ArtifactOf(blocks[i], i, extension))
  }

  /** No two artifacts of one reply share a file name. */
  lemma ArtifactNamesDistinct(text: string, extension: string -> string)
    ensures var r := CodeArtifacts(text, extension);
      forall i, j :: 0 <= i < j < |r| ==> r[i].filename != r[j].filename
  {
    var r := CodeArtifacts(text, extension);
    forall i, j | 0 <= i < j < |r| ensures r[i].filename != r[j].filename {
      ArtifactNamesDiffer(r, i, j, extension);
    }
  }

  lemma ArtifactNamesDiffer(r: seq<CodeArtifact>, i: nat, j: nat, extension: string -> string)
    requires i < j < |r|
    requires r[i].filename == FileName(i + 1, extension(r[i].language))
    requires r[j].filename == FileName(j + 1, extension(r[j].language))
    ensures r[i].filename != r[j].filename
  {
    FileNamesDiffer(i + 1, j + 1, extension(r[i].language), extension(r[j].language));
  }

  /** Each artifact is a block of the text: an opening fence with the
   *  language as its info word, and the content is the trimmed text before
   *  the next fence. */
  lemma ArtifactsComeFromFences(text: string, extension: string -> string, i: nat)
    requires i < |CodeArtifacts(text, extension)|
    ensures var b := Fences.AllBlocks(text, 0, true)[i];
      && Fences.BlockShape(text, b.start, true, b)
      && CodeArtifacts(text, extension)[i].content == Text.Trim(b.body)
  {
    var b := Fences.AllBlocks(text, 0, true)[i];
    Fences.BlockAtShape(text, b.start, true);
  }

  /** A reply without a backtick has no artifacts. */
  lemma NoBacktickNoArtifacts(text: string, extension: string -> string)
    requires forall x :: 0 <= x < |text| ==> text[x] != '`'
    ensures CodeArtifacts(text, extension) == []
  {
    Fences.NoBacktickNoBlock(text, 0, true);
  }
}
