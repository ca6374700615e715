/** The fenced code blocks of a model reply, as matched by the two regular
 *  expressions of the core: "```(?:json)?\s*\n([\s\S]*?)```" for a JSON
 *  block and "```(\w+)?\s*\n([\s\S]*?)```" for code artifacts. Both are
 *  written out here as scanners with the regex engine's leftmost, greedy
 *  and lazy choices. */
module Fences {
  import opened Wrappers
  import Text

  /** Three backticks start at i. */
  predicate FenceAt(s: string, i: int) {
    0 <= i && i + 3 <= |s| && s[i] == '`' && s[i + 1] == '`' && s[i + 2] == '`'
  }

  /** The word "json" starts at i. */
  predicate JsonAt(s: string, i: int) {
    0 <= i && i + 4 <= |s| && s[i] == 'j' && s[i + 1] == 's' && s[i + 2] == 'o' && s[i + 3] == 'n'
  }

  /** One match: where it starts, the info word after the opening fence (the
   *  optional group), where the body starts, the body (the lazy group) and
   *  the index just past the closing fence. */
  datatype Block = Block(start: nat, tag: string, bodyStart: nat, body: string, end: nat)

  /** Length of the run of word characters at j: the greedy `(\w+)?`. */
  function WordRun(s: string, j: nat): (n: nat)
    requires j <= |s|
    ensures j + n <= |s|
    decreases |s| - j
  {
    if j < |s| && Text.IsWordChar(s[j]) then 1 + WordRun(s, j + 1) else 0
  }

  lemma {:induction false} WordRunIsMaximal(s: string, j: nat)
    requires j <= |s|
    ensures forall x :: j <= x < j + WordRun(s, j) ==> Text.IsWordChar(s[x])
    ensures j + WordRun(s, j) == |s| || !Text.IsWordChar(s[j + WordRun(s, j)])
    decreases |s| - j
  {
    if j < |s| && Text.IsWordChar(s[j]) {
      WordRunIsMaximal(s, j + 1);
    }
  }

  /** Length of the run of white space at j: the greedy `\s*`. */
  function WsRun(s: string, j: nat): (n: nat)
    requires j <= |s|
    ensures j + n <= |s|
    decreases |s| - j
  {
    if j < |s| && Text.IsWs(s[j]) then 1 + WsRun(s, j + 1) else 0
  }

  lemma {:induction false} WsRunIsMaximal(s: string, j: nat)
    requires j <= |s|
    ensures forall x :: j <= x < j + WsRun(s, j) ==> Text.IsWs(s[x])
    ensures j + WsRun(s, j) == |s| || !Text.IsWs(s[j + WsRun(s, j)])
    decreases |s| - j
  {
    if j < |s| && Text.IsWs(s[j]) {
      WsRunIsMaximal(s, j + 1);
    }
  }

  /** The last newline in s[j..m], or -1: where `\s*\n` gives back to `\n`. */
  function LastNewline(s: string, j: nat, m: nat): (p: int)
    requires j <= m <= |s|
    ensures p == -1 || (j <= p < m && s[p] == '\n')
    decreases m - j
  {
    if m == j then -1 else if s[m - 1] == '\n' then m - 1 else LastNewline(s, j, m - 1)
  }

  lemma {:induction false} LastNewlineIsLast(s: string, j: nat, m: nat)
    requires j <= m <= |s|
    ensures LastNewline(s, j, m) == -1 ==> forall x :: j <= x < m ==> s[x] != '\n'
    ensures forall x :: j <= x && LastNewline(s, j, m) < x < m ==> s[x] != '\n'
    decreases m - j
  {
    if m != j && s[m - 1] != '\n' {
      LastNewlineIsLast(s, j, m - 1);
    }
  }

  /** The first fence at or after j, or -1: where the lazy body stops. */
  function FindFence(s: string, j: nat): (q: int)
    requires j <= |s|
    ensures q == -1 || (j <= q && q + 3 <= |s|)
    decreases |s| - j
  {
    if j + 3 > |s| then -1 else if FenceAt(s, j) then j else FindFence(s, j + 1)
  }

  lemma {:induction false} FindFenceIsFirst(s: string, j: nat)
    requires j <= |s|
    ensures FindFence(s, j) != -1 ==> FenceAt(s, FindFence(s, j))
    ensures forall x :: j <= x && (FindFence(s, j) == -1 || x < FindFence(s, j)) ==> !FenceAt(s, x)
    decreases |s| - j
  {
    if j + 3 <= |s| && !FenceAt(s, j) {
      FindFenceIsFirst(s, j + 1);
    }
  }

  /** The info word the pattern consumes after an opening fence at i. */
  function TagEnd(s: string, i: nat, wordTag: bool): (k: nat)
    requires i + 3 <= |s|
    ensures i + 3 <= k <= |s|
  {
    if wordTag then i + 3 + WordRun(s, i + 3)
    else if JsonAt(s, i + 3) then i + 7
    else i + 3
  }

  /** What a match b at i looks like: an opening fence, the info word, white
   *  space ending in a newline, then the body up to the first fence after it. */
  predicate BlockShape(s: string, i: nat, wordTag: bool, b: Block) {
    && b.start == i
    && FenceAt(s, i)
    && i + 3 + |b.tag| < b.bodyStart <= b.end - 3 <= |s| - 3
    && s[i + 3..i + 3 + |b.tag|] == b.tag
    && (if wordTag then forall x :: 0 <= x < |b.tag| ==> Text.IsWordChar(b.tag[x])
        else b.tag == "" || b.tag == "json")
    && (forall x :: i + 3 + |b.tag| <= x < b.bodyStart ==> Text.IsWs(s[x]))
    && s[b.bodyStart - 1] == '\n'
    && b.body == s[b.bodyStart..b.end - 3]
    && FenceAt(s, b.end - 3)
    && (forall x :: b.bodyStart <= x < b.end - 3 ==> !FenceAt(s, x))
  }

  /** The match the pattern makes when the engine tries index i. With wordTag
   *  the info word is `(\w+)?`, otherwise `(?:json)?`. A shorter info word or
   *  an earlier newline never rescues a failed attempt, because both leave a
   *  non-space character or a body with the same first fence. */
  function BlockAt(s: string, i: nat, wordTag: bool): (r: Option<Block>)
    requires i <= |s|
    ensures r.Some? ==> r.value.start == i && i + 3 < r.value.end <= |s|
  {
    if !FenceAt(s, i) then None else BodyAfter(s, i, TagEnd(s, i, wordTag))
  }

  /** The rest of a match whose info word ends at k: `\s*\n([\s\S]*?)```. */
  function BodyAfter(s: string, i: nat, k: nat): (r: Option<Block>)
    requires i + 3 <= k <= |s|
    ensures r.Some? ==> r.value.start == i && k < r.value.bodyStart <= r.value.end - 3 <= |s| - 3
  {
    var m := k + WsRun(s, k);
    var p := LastNewline(s, k, m);
    if p == -1 then None
    else
      var q := FindFence(s, p + 1);
      if q == -1 then None
      else Some(Block(i, s[i + 3..k], p + 1, s[p + 1..q], q + 3))
  }

  lemma BlockAtShape(s: string, i: nat, wordTag: bool)
    requires i <= |s|
    ensures BlockAt(s, i, wordTag).Some? ==> BlockShape(s, i, wordTag, BlockAt(s, i, wordTag).value)
  {
    if FenceAt(s, i) {
      var k := TagEnd(s, i, wordTag);
      BodyAfterShape(s, i, k);
      var r := BodyAfter(s, i, k);
      if r.Some? {
        var b := r.value;
        assert |b.tag| == k - i - 3;
        if wordTag {
          WordRunIsMaximal(s, i + 3);
          forall x | 0 <= x < |b.tag| ensures Text.IsWordChar(b.tag[x]) {
            assert b.tag[x] == s[i + 3 + x];
          }
        } else if JsonAt(s, i + 3) {
          assert b.tag == s[i + 3..i + 7];
        }
      }
    }
  }

  lemma BodyAfterShape(s: string, i: nat, k: nat)
    requires i + 3 <= k <= |s|
    ensures var r := BodyAfter(s, i, k);
      r.Some? ==>
        && r.value.tag == s[i + 3..k]
        && (forall x :: k <= x < r.value.bodyStart ==> Text.IsWs(s[x]))
        && s[r.value.bodyStart - 1] == '\n'
        && r.value.body == s[r.value.bodyStart..r.value.end - 3]
        && FenceAt(s, r.value.end - 3)
        && (forall x :: r.value.bodyStart <= x < r.value.end - 3 ==> !FenceAt(s, x))
  {
    var m := k + WsRun(s, k);
    WsRunIsMaximal(s, k);
    var p := LastNewline(s, k, m);
    if p != -1 {
      FindFenceIsFirst(s, p + 1);
    }
  }

  /** `find`: the leftmost match at or after from. */
  function FirstBlock(s: string, from: nat, wordTag: bool): (r: Option<Block>)
    requires from <= |s|
    ensures r.Some? ==> from <= r.value.start <= |s| && BlockAt(s, r.value.start, wordTag) == r
    decreases |s| - from
  {
    var b := BlockAt(s, from, wordTag);
    if b.Some? then b
    else if from == |s| then None
    else FirstBlock(s, from + 1, wordTag)
  }

  /** The match found is the leftmost one: no index tried before it matches,
   *  and when nothing is found no index matches at all. */
  lemma {:induction false} FirstBlockIsLeftmost(s: string, from: nat, wordTag: bool)
    requires from <= |s|
    ensures var r := FirstBlock(s, from, wordTag);
      r.Some? ==> forall x :: from <= x < r.value.start ==> BlockAt(s, x, wordTag).None?
    ensures FirstBlock(s, from, wordTag).None? ==> forall x :: from <= x <= |s| ==> BlockAt(s, x, wordTag).None?
    decreases |s| - from
  {
    var r := FirstBlock(s, from, wordTag);
    if BlockAt(s, from, wordTag).None? && from < |s| {
      FirstBlockIsLeftmost(s, from + 1, wordTag);
      assert r == FirstBlock(s, from + 1, wordTag);
      var hi := if r.Some? then r.value.start else |s| + 1;
      NoneExtends(s, from, hi, wordTag);
    }
  }

  /** No match at from and none at from + 1 .. hi - 1: none at from .. hi - 1. */
  lemma NoneExtends(s: string, from: nat, hi: nat, wordTag: bool)
    requires from < hi <= |s| + 1 && BlockAt(s, from, wordTag).None?
    requires forall x :: from + 1 <= x < hi ==> BlockAt(s, x, wordTag).None?
    ensures forall x :: from <= x < hi ==> BlockAt(s, x, wordTag).None?
  {
  }

  /** `findAll`: successive leftmost matches, each search resuming where the
   *  previous match ended. */
  function AllBlocks(s: string, from: nat, wordTag: bool): (r: seq<Block>)
    requires from <= |s|
    ensures forall k :: 0 <= k < |r| ==> from <= r[k].start <= |s| && BlockAt(s, r[k].start, wordTag) == Some(r[k])
    ensures forall k :: 0 <= k < |r| - 1 ==> r[k].end <= r[k + 1].start
    decreases |s| - from
  {
    match FirstBlock(s, from, wordTag)
    case None => []
    case Some(b) =>
      var rest := AllBlocks(s, b.end, wordTag);
      assert rest == [] || b.end <= rest[0].start;
      [b] + rest
  }

  /** `extractJsonFromResponse` / `extractJson`: the trimmed body of the first
   *  JSON fence, else the text from the first '{' to the last '}', else the
   *  text itself. */
  function ExtractJson(text: string): string
  {
    match FirstBlock(text, 0, false)
    case Some(b) => Text.Trim(b.body)
    case None =>
      var a := Text.IndexOf(text, '{');
      var z := Text.LastIndexOf(text, '}');
      if a >= 0 && z > a then text[a..z + 1] else text
  }

  /** A fenced body comes back without surrounding white space. */
  lemma ExtractJsonFenced(text: string)
    requires FirstBlock(text, 0, false).Some?
    ensures var r := ExtractJson(text);
      r == Text.Trim(FirstBlock(text, 0, false).value.body)
      && |r| <= |text| && (r == [] || (!Text.IsWs(r[0]) && !Text.IsWs(r[|r| - 1])))
  {
    var b := FirstBlock(text, 0, false).value;
    BlockAtShape(text, b.start, false);
    TrimFacts(b.body);
  }

  lemma TrimFacts(t: string)
    ensures |Text.Trim(t)| <= |t|
    ensures Text.Trim(t) == [] || (!Text.IsWs(Text.Trim(t)[0]) && !Text.IsWs(Text.Trim(t)[|Text.Trim(t)| - 1]))
  {
    var u := Text.TrimStart(t);
    var v := Text.TrimEnd(u);
    if v != [] {
      assert v[0] == u[0];
    }
  }

  /** Without a fence the span from the first '{' to the last '}' is taken. */
  lemma ExtractJsonBraces(text: string)
    requires FirstBlock(text, 0, false).None?
    requires 0 <= Text.IndexOf(text, '{') < Text.LastIndexOf(text, '}')
    ensures var r := ExtractJson(text);
      r == text[Text.IndexOf(text, '{')..Text.LastIndexOf(text, '}') + 1]
      && |r| >= 2 && r[0] == '{' && r[|r| - 1] == '}'
  {
    var a := Text.IndexOf(text, '{');
    var z := Text.LastIndexOf(text, '}');
    ExtractJsonUnfenced(text);
    SpanEnds(text, a, z);
  }

  lemma ExtractJsonUnfenced(text: string)
    requires FirstBlock(text, 0, false).None?
    ensures var a, z := Text.IndexOf(text, '{'), Text.LastIndexOf(text, '}');
      ExtractJson(text) == if a >= 0 && z > a then text[a..z + 1] else text
  {
  }

  lemma SpanEnds(text: string, a: int, z: int)
    requires 0 <= a < z < |text|
    ensures var r := text[a..z + 1]; |r| >= 2 && r[0] == text[a] && r[|r| - 1] == text[z]
  {
  }

  /** Without a fence or a '{' before a '}' the text is returned unchanged. */
  lemma ExtractJsonUnchanged(text: string)
    requires FirstBlock(text, 0, false).None?
    requires !(0 <= Text.IndexOf(text, '{') < Text.LastIndexOf(text, '}'))
    ensures ExtractJson(text) == text
  {
  }

  /** Wrapping a JSON text in a json fence and extracting it gives back the
   *  text without its trailing white space. */
  lemma ExtractJsonOfFence(body: string)
    requires |body| > 0 && !Text.IsWs(body[0])
    requires forall x :: 0 <= x < |body| ==> body[x] != '`'
    ensures ExtractJson("```json\n" + body + "\n```") == Text.TrimEnd(body)
  {
    var s := "```json\n" + body + "\n```";
    JsonFenceLayout(body);
    JsonFenceBody(s, |body| + 1);
    TrimEndNewline(body);
    assert Text.TrimStart(body + "\n") == body + "\n";
  }

  lemma JsonFenceLayout(body: string)
    requires |body| > 0 && !Text.IsWs(body[0])
    requires forall x :: 0 <= x < |body| ==> body[x] != '`'
    ensures var s := "```json\n" + body + "\n```";
      && |s| == 8 + (|body| + 1) + 3
      && FenceAt(s, 0) && JsonAt(s, 3) && s[7] == '\n' && !Text.IsWs(s[8])
      && (forall x :: 8 <= x < 8 + (|body| + 1) ==> s[x] != '`')
      && FenceAt(s, 8 + (|body| + 1))
      && s[8..8 + (|body| + 1)] == body + "\n"
  {
    var s := "```json\n" + body + "\n```";
    forall x | 8 <= x < 8 + |body| ensures s[x] != '`' {
      assert s[x] == body[x - 8];
    }
    assert s[8..8 + |body| + 1] == body + "\n";
  }

  /** The first match in a text that opens with a json fence and a newline
   *  and holds no backtick before its closing fence. */
  lemma JsonFenceBody(s: string, n: nat)
    requires |s| == 8 + n + 3 && n > 0
    requires FenceAt(s, 0) && JsonAt(s, 3) && s[7] == '\n' && !Text.IsWs(s[8])
    requires forall x :: 8 <= x < 8 + n ==> s[x] != '`'
    requires FenceAt(s, 8 + n)
    ensures ExtractJson(s) == Text.Trim(s[8..8 + n])
  {
    var q := 8 + n;
    assert TagEnd(s, 0, false) == 7;
    assert WsRun(s, 8) == 0;
    assert WsRun(s, 7) == 1;
    assert LastNewline(s, 7, 8) == 7;
    FindFenceIsFirst(s, 8);
    var f := FindFence(s, 8);
    assert f == q;
    assert BlockAt(s, 0, false) == Some(Block(0, s[3..7], 8, s[8..q], q + 3));
  }

  lemma TrimEndNewline(t: string)
    ensures Text.TrimEnd(t + "\n") == Text.TrimEnd(t)
  {
    assert (t + "\n")[..|t|] == t;
  }

  /** A text with no fence that already runs from '{' to '}' is taken whole. */
  lemma ExtractJsonOfObject(text: string)
    requires |text| >= 2 && text[0] == '{' && text[|text| - 1] == '}'
    requires forall x :: 0 <= x < |text| ==> text[x] != '`'
    ensures ExtractJson(text) == text
  {
    NoBacktickNoBlock(text, 0, false);
  }

  /** Text without a backtick holds no block of either kind. */
  lemma {:induction false} NoBacktickNoBlock(text: string, from: nat, wordTag: bool)
    requires from <= |text|
    requires forall x :: 0 <= x < |text| ==> text[x] != '`'
    ensures FirstBlock(text, from, wordTag).None?
    ensures AllBlocks(text, from, wordTag) == []
    decreases |text| - from
  {
    assert !FenceAt(text, from);
    if from < |text| {
      NoBacktickNoBlock(text, from + 1, wordTag);
    }
  }
}
