/** The system prompt of an agent: its role text, what memory recalls, the
 *  task's constraints, extra context and the fixed general rules, laid out
 *  in one margin-trimmed template. The rendering of an episode's score as
 *  text is a parameter. */
module SystemPromptBuilder {
  import Text
  import Margin
  import opened AgentRoles
  import opened MemoryLayer

  /** The first line of a role text, naming the role. */
  function RoleHeader(role: AgentRole): string {
    "## Rol: " + DisplayName(role) + " Agent\n"
  }

  /** The rest of each role text, as the margin-trimmed literal reads. */
  function RoleBody(role: AgentRole): string {
    match role
    case PLANNER =>
      "Sen bir yazilim mimar ve gorev plancisin.\nKullanicinin isteğini analiz et ve alt gorevlere bol.\n"
      + "Her alt gorevi hangi ajanin yapacagini belirle.\nGorevler arasi bagimliliklari tanimla.\nJSON formatta ExecutionPlan dondur."
    case CODE_WRITER =>
      "Sen uzman bir Kotlin/KTOR gelistiricisin.\nTemiz, idiomatic, test edilebilir Kotlin kodu yaz.\n"
      + "Her zaman:\n- Data class ve sealed class kullan\n- Null safety'ye dikkat et\n- Coroutine-friendly yaz (suspend fun)\n- SOLID prensiplerine uy"
    case REVIEWER =>
      "Sen bir kod review uzmanisin.\nVerilen kodu su kriterlere gore incele:\n1. Dogruluk — gorevi yerine getiriyor mu?\n"
      + "2. Kotlin best practices\n3. Hata yonetimi\n4. Performans ve verimlilik\n5. Guvenlik\nScore (0.0-1.0) ve issues listesi dondur."
    case FIXER =>
      "Sen bir bug-fix uzmanisin.\nVerilen hatalari/uyarilari duzelt.\n"
      + "Minimum degisiklikle maximum etki sagla.\nOrijinal kodun stiline ve pattern'ine sadik kal."
    case TESTER =>
      "Sen bir test muhendisisin.\nJUnit 5 + Kotlin Test ile unit testler yaz.\nMockK ile mock'lama yap.\n"
      + "Edge case'leri ve hata senaryolarini kapsa.\nHer test icin acik bir isimlendirme kullan:\n`should do X when Y`"
    case RESEARCHER =>
      "Sen bir teknik arastirmacisin.\nKotlin, KTOR, Android ve JVM ekosisteminde uzmansin.\n"
      + "Dokumantasyon ve API referanslarini ara.\nBulgulari ozet olarak sun, kod ornekleri ekle."
  }

  /** `rolePrompt`: every role text opens with a header naming the role. */
  function RolePrompt(role: AgentRole): (r: string)
    ensures Text.StartsWith(r, RoleHeader(role))
  {
    var r := RoleHeader(role) + RoleBody(role);
    assert r[..|RoleHeader(role)|] == RoleHeader(role);
    r
  }

  // ---- memory section ----

  const EpisodicHeader := "## Gecmis Deneyimler (Episodic Memory)"
  const SemanticHeader := "\n## Bilgi Grafi (Semantic Memory)"

  function EpisodeHeadline(ep: Episode, showScore: real -> string): string {
    "- [Skor: " + showScore(ep.outcomeScore) + "] " + Text.Take16(ep.taskDescription, 100)
  }

  function EpisodeSummary(ep: Episode): string {
    "  Ozet: " + Text.Take16(ep.trajectorySummary, 150)
  }

  /** Two lines per episode, in the given order. */
  function EpisodeLines(eps: seq<Episode>, showScore: real -> string): (r: seq<string>)
    ensures |r| == 2 * |eps|
    ensures forall i :: 0 <= i < |eps| ==>
      r[2 * i] == EpisodeHeadline(eps[i], showScore) && r[2 * i + 1] == EpisodeSummary(eps[i])
  {
    if eps == [] then []
    else
      var front, last := eps[..|eps| - 1], eps[|eps| - 1];
      assert forall i :: 0 <= i < |front| ==> front[i] == eps[i];
      EpisodeLines(front, showScore) + [EpisodeHeadline(last, showScore), EpisodeSummary(last)]
  }

  lemma EpisodeLinesStep(eps: seq<Episode>, i: nat, showScore: real -> string, parts: seq<string>)
    requires i < |eps| && parts == [EpisodicHeader] + EpisodeLines(eps[..i], showScore)
    ensures parts + [EpisodeHeadline(eps[i], showScore), EpisodeSummary(eps[i])] ==
      [EpisodicHeader] + EpisodeLines(eps[..i + 1], showScore)
  {
    assert eps[..i + 1][..i] == eps[..i];
  }

  /** The parts of the memory section: the episodic block when there are
   *  episodes, then the semantic block when there are facts. */
  function MemoryParts(eps: seq<Episode>, g: GraphContext, showScore: real -> string): (r: seq<string>)
    ensures |r| == (if eps == [] then 0 else 1 + 2 * |eps|) + (if g.facts == [] then 0 else 2)
    ensures r == [] <==> eps == [] && g.facts == []
    ensures eps != [] ==> r[0] == EpisodicHeader && r[1..1 + 2 * |eps|] == EpisodeLines(eps, showScore)
    ensures g.facts != [] ==> r[|r| - 2..] == [SemanticHeader, ToPromptString(g)]
  {
    (if eps != [] then [EpisodicHeader] + EpisodeLines(eps, showScore) else []) +
    (if g.facts != [] then [SemanticHeader, ToPromptString(g)] else [])
  }

  lemma MemoryPartsAre(eps: seq<Episode>, g: GraphContext, showScore: real -> string, front: seq<string>, parts: seq<string>)
    requires front == if eps != [] then [EpisodicHeader] + EpisodeLines(eps, showScore) else []
    requires parts == front + if g.facts != [] then [SemanticHeader, ToPromptString(g)] else []
    ensures parts == MemoryParts(eps, g, showScore)
  {
  }

  function MemorySection(eps: seq<Episode>, g: GraphContext, showScore: real -> string): string {
    var parts := MemoryParts(eps, g, showScore);
    if parts != [] then Text.Join(parts, "\n") else ""
  }

  /** `buildMemorySection`, filling the parts list episode by episode. */
  method BuildMemorySection(eps: seq<Episode>, g: GraphContext, showScore: real -> string) returns (s: string)
    ensures s == MemorySection(eps, g, showScore)
  {
    var parts: seq<string> := [];
    if eps != [] {
      parts := parts + [EpisodicHeader];
      var i := 0;
      while i < |eps|
        invariant 0 <= i <= |eps|
        invariant parts == [EpisodicHeader] + EpisodeLines(eps[..i], showScore)
      {
        EpisodeLinesStep(eps, i, showScore, parts);
        parts := parts + [EpisodeHeadline(eps[i], showScore), EpisodeSummary(eps[i])];
        i := i + 1;
      }
      assert eps[..i] == eps;
    }
    ghost var front := parts;
    if g.facts != [] {
      parts := parts + [SemanticHeader];
      parts := parts + [ToPromptString(g)];
    }
    MemoryPartsAre(eps, g, showScore, front, parts);
    if parts != [] {
      s := Text.Join(parts, "\n");
    } else {
      s := "";
    }
  }

  /** The memory section is empty exactly when nothing is recalled, and
   *  with facts it ends in the semantic header and the graph lines. */
  lemma MemorySectionShape(eps: seq<Episode>, g: GraphContext, showScore: real -> string)
    ensures MemorySection(eps, g, showScore) == "" <==> eps == [] && g.facts == []
    ensures g.facts != [] ==>
      Text.EndsWith(MemorySection(eps, g, showScore), SemanticHeader + "\n" + ToPromptString(g))
  {
    var parts := MemoryParts(eps, g, showScore);
    if parts != [] {
      assert parts[0] != "" by {
        if eps != [] { assert parts[0] == EpisodicHeader; } else { assert parts[0] == SemanticHeader; }
      }
      Margin.JoinConcat([parts[0]], parts[1..], "\n");
      assert [parts[0]] + parts[1..] == parts;
    }
    if g.facts != [] {
      var front := parts[..|parts| - 2];
      var tail := [SemanticHeader, ToPromptString(g)];
      assert parts == front + tail;
      var s := MemorySection(eps, g, showScore);
      var t := SemanticHeader + "\n" + ToPromptString(g);
      assert Text.Join(tail, "\n") == t;
      if front == [] {
        assert s == t;
      } else {
        Margin.JoinConcat(front, tail, "\n");
        assert s == Text.Join(front, "\n") + "\n" + t;
      }
      assert s[|s| - |t|..] == t;
    }
  }

  // ---- constraints and context ----

  function Bullets(cs: seq<string>): (r: seq<string>)
    ensures |r| == |cs| && forall i :: 0 <= i < |cs| ==> r[i] == "- " + cs[i]
  {
    seq(|cs|, i requires 0 <= i < |cs| => "- " + cs[i])
  }

  /** The constraints block appears exactly when there are constraints,
   *  with one "- c" line per constraint in order. */
  function ConstraintSection(cs: seq<string>): (r: string)
    ensures r == "" <==> cs == []
    ensures cs != [] ==> r == "\n## Kisitlar\n" + Text.Join(Bullets(cs), "\n")
  {
    if cs != [] then "\n## Kisitlar\n" + Text.Join(Bullets(cs), "\n") else ""
  }

  /** The extra context block appears exactly when the context is not blank. */
  function ContextSection(ctx: string): (r: string)
    ensures r == "" <==> Text.IsBlank(ctx)
    ensures !Text.IsBlank(ctx) ==> r == "\n## Ek Baglam\n" + ctx
  {
    if !Text.IsBlank(ctx) then "\n## Ek Baglam\n" + ctx else ""
  }

  // ---- the template ----

  /** The general rule lines of the template, in order. */
  function RuleLine(i: nat): string {
    if i == 0 then "## Genel Kurallar"
    else if i == 1 then "- Her zaman Kotlin idiomatic kodla. `when` yerine `if-else` zinciri KULLANMA."
    else if i == 2 then "- Coroutine kullan, blocking I/O YAPMA."
    else if i == 3 then "- Hata durumlarini sealed class veya Result ile yonet."
    else if i == 4 then "- Kodu acikla, ama gereksiz yorum yazma."
    else "- Turkce dusun, kod isimleri Ingilizce olsun."
  }

  function RuleLines(): (r: seq<string>)
    ensures |r| == 6 && forall i :: 0 <= i < 6 ==> r[i] == RuleLine(i)
  {
    seq(6, i requires 0 <= i < 6 => RuleLine(i))
  }

  /** The indentation and bar that open each template line, and the
   *  indentation of the closing line. */
  const Indent := "            "
  const Bar := Indent + "|"
  const Closing := "        "

  function MarginAll(ls: seq<string>): (r: seq<string>)
    ensures |r| == |ls| && forall k :: 0 <= k < |ls| ==> r[k] == Bar + ls[k]
  {
    seq(|ls|, k requires 0 <= k < |ls| => Bar + ls[k])
  }

  /** The texts placed after a bar, in template order. */
  function Pieces(base: string, memory: string, constraints: string, context: string, rules: seq<string>): seq<string> {
    [base, memory, constraints, context, ""] + rules
  }

  /** The raw template with the four pieces interpolated: an empty first
   *  line, one barred line per piece, a barred empty line, the barred rule
   *  lines and the closing indentation. */
  function Template(base: string, memory: string, constraints: string, context: string, rules: seq<string>): string {
    Text.Join([""] + MarginAll(Pieces(base, memory, constraints, context, rules)) + [Closing], "\n")
  }

  /** `build`: the template, margin-trimmed after interpolation. */
  function Build(role: AgentRole, eps: seq<Episode>, g: GraphContext, cs: seq<string>, ctx: string,
                 showScore: real -> string): string
  {
    Margin.TrimMargin(Template(RolePrompt(role), MemorySection(eps, g, showScore), ConstraintSection(cs),
      ContextSection(ctx), RuleLines()))
  }

  /** What the margin cut does to a piece placed after a bar: its first
   *  line is kept, every later line is cut. */
  function Head(piece: string): (r: seq<string>)
    ensures |r| == |Margin.Lines(piece)|
  {
    var ls := Margin.Lines(piece);
    [ls[0]] + Margin.CutAll(ls[1..])
  }

  function HeadsOf(pieces: seq<string>): (r: seq<string>)
    ensures pieces != [] ==> r != []
  {
    if pieces == [] then [] else Head(pieces[0]) + HeadsOf(pieces[1..])
  }

  /** Text the program writes itself, as the margin cut renders it. */
  function Fixed(text: string): string {
    Text.Join(Head(text), "\n")
  }

  /** The general rules block of every prompt. */
  function GeneralRules(): string {
    Text.Join(HeadsOf(RuleLines()), "\n")
  }

  /** The prompt the template is written to produce: the role text and the
   *  rules as the margin cut renders them, the memory, constraints and
   *  context pieces verbatim, one after the other, then a blank line and
   *  the rules. */
  function Intended(role: AgentRole, eps: seq<Episode>, g: GraphContext, cs: seq<string>, ctx: string,
                    showScore: real -> string): string
  {
    Fixed(RolePrompt(role)) + "\n" + MemorySection(eps, g, showScore) + "\n" + ConstraintSection(cs) + "\n"
      + ContextSection(ctx) + ("\n\n" + GeneralRules())
  }

  /** A piece none of whose later lines starts, after white space, with '|'. */
  predicate MarginFree(piece: string) {
    forall k :: 1 <= k < |Margin.Lines(piece)| ==> Margin.Cut(Margin.Lines(piece)[k]) == Margin.Lines(piece)[k]
  }

  lemma HeadOfMarginFree(piece: string)
    requires MarginFree(piece)
    ensures Head(piece) == Margin.Lines(piece)
  {
    var ls := Margin.Lines(piece);
    assert Margin.CutAll(ls[1..]) == ls[1..];
  }

  /** A piece without '|' is left alone by the cut. */
  lemma NoBarMarginFree(piece: string)
    requires '|' !in piece
    ensures MarginFree(piece)
  {
    Margin.LinesChars(piece, '|');
    forall k | 1 <= k < |Margin.Lines(piece)| ensures Margin.Cut(Margin.Lines(piece)[k]) == Margin.Lines(piece)[k] {
      Margin.CutNoBar(Margin.Lines(piece)[k]);
    }
  }

  /** The lines of a barred piece: the bar joins its first line. */
  function Barred(piece: string): seq<string> {
    var ls := Margin.Lines(piece);
    [Bar + ls[0]] + ls[1..]
  }

  function BarredAll(pieces: seq<string>): seq<string> {
    if pieces == [] then [] else Barred(pieces[0]) + BarredAll(pieces[1..])
  }

  lemma BarredLines(piece: string)
    ensures Margin.Lines(Bar + piece) == Barred(piece)
  {
    Margin.LinesPrefix(Bar, piece);
  }

  lemma BarredCut(piece: string)
    ensures Margin.CutAll(Barred(piece)) == Head(piece)
  {
    var ls := Margin.Lines(piece);
    Margin.CutAfterMargin(Indent, ls[0]);
    CutAllConcat([Bar + ls[0]], ls[1..]);
    assert Margin.CutAll([Bar + ls[0]]) == [ls[0]];
  }

  lemma CutAllConcat(a: seq<string>, b: seq<string>)
    ensures Margin.CutAll(a + b) == Margin.CutAll(a) + Margin.CutAll(b)
  {
  }

  lemma {:induction false} ConcatAllAppend(a: seq<seq<string>>, b: seq<seq<string>>)
    ensures Margin.ConcatAll(a + b) == Margin.ConcatAll(a) + Margin.ConcatAll(b)
  {
    if a != [] {
      assert (a + b)[1..] == a[1..] + b;
      ConcatAllAppend(a[1..], b);
    } else {
      assert a + b == b;
    }
  }

  lemma {:induction false} LinesOfMarginAll(pieces: seq<string>)
    ensures Margin.ConcatAll(Margin.LinesEach(MarginAll(pieces))) == BarredAll(pieces)
  {
    if pieces != [] {
      BarredLines(pieces[0]);
      assert Margin.LinesEach(MarginAll(pieces))[1..] == Margin.LinesEach(MarginAll(pieces[1..]));
      LinesOfMarginAll(pieces[1..]);
    }
  }

  lemma {:induction false} CutBarredAll(pieces: seq<string>)
    ensures Margin.CutAll(BarredAll(pieces)) == HeadsOf(pieces)
  {
    if pieces != [] {
      BarredCut(pieces[0]);
      CutAllConcat(Barred(pieces[0]), BarredAll(pieces[1..]));
      CutBarredAll(pieces[1..]);
    }
  }

  lemma LinesEachAppend(a: seq<string>, b: seq<string>)
    ensures Margin.LinesEach(a + b) == Margin.LinesEach(a) + Margin.LinesEach(b)
  {
  }

  lemma {:induction false} HeadsOfAppend(a: seq<string>, b: seq<string>)
    ensures HeadsOf(a + b) == HeadsOf(a) + HeadsOf(b)
  {
    if a != [] {
      assert (a + b)[1..] == a[1..] + b;
      HeadsOfAppend(a[1..], b);
    } else {
      assert a + b == b;
    }
  }

  /** The template's lines: an empty one, each barred piece's lines and
   *  the closing indentation. */
  lemma TemplateLines(base: string, memory: string, constraints: string, context: string, rules: seq<string>)
    ensures Margin.Lines(Template(base, memory, constraints, context, rules)) ==
      [""] + BarredAll(Pieces(base, memory, constraints, context, rules)) + [Closing]
  {
    var ps := Pieces(base, memory, constraints, context, rules);
    var each := Margin.LinesEach(MarginAll(ps));
    Margin.LinesOfJoin([""] + MarginAll(ps) + [Closing]);
    LinesEachAppend([""] + MarginAll(ps), [Closing]);
    LinesEachAppend([""], MarginAll(ps));
    Margin.LinesSingle(Closing);
    Margin.LinesSingle("");
    assert Margin.LinesEach([""] + MarginAll(ps) + [Closing]) == [[""]] + each + [[Closing]];
    ConcatAllAppend([[""]] + each, [[Closing]]);
    ConcatAllAppend([[""]], each);
    LinesOfMarginAll(ps);
    assert Margin.ConcatAll([[Closing]]) == [Closing] + Margin.ConcatAll([]);
    assert Margin.ConcatAll([[""]]) == [""] + Margin.ConcatAll([]);
  }

  /** The margin-trimmed template: every piece's lines after the cut. */
  lemma TrimmedTemplate(base: string, memory: string, constraints: string, context: string, rules: seq<string>)
    ensures Margin.TrimMargin(Template(base, memory, constraints, context, rules)) ==
      Text.Join(HeadsOf(Pieces(base, memory, constraints, context, rules)), "\n")
  {
    var ps := Pieces(base, memory, constraints, context, rules);
    TemplateLines(base, memory, constraints, context, rules);
    assert Text.IsBlank(Closing);
    assert Margin.DropBlankEnds([""] + BarredAll(ps) + [Closing]) == BarredAll(ps);
    CutBarredAll(ps);
  }

  /** Joining the cut lines of several pieces joins their cut texts. */
  lemma JoinHeads(pieces: seq<string>)
    requires |pieces| >= 2
    ensures Text.Join(HeadsOf(pieces), "\n") == Fixed(pieces[0]) + "\n" + Text.Join(HeadsOf(pieces[1..]), "\n")
  {
    Margin.JoinConcat(Head(pieces[0]), HeadsOf(pieces[1..]), "\n");
  }

  lemma LineChain(a: string, b: string, c: string, d: string, r: string)
    ensures a + "\n" + (b + "\n" + (c + "\n" + (d + "\n" + ""))) + "\n" + r ==
      a + "\n" + b + "\n" + c + "\n" + d + ("\n\n" + r)
  {
    assert d + "\n" + "" == d + "\n";
    assert c + "\n" + (d + "\n") == c + "\n" + d + "\n";
    assert b + "\n" + (c + "\n" + d + "\n") == b + "\n" + c + "\n" + d + "\n";
    assert a + "\n" + (b + "\n" + c + "\n" + d + "\n") == a + "\n" + b + "\n" + c + "\n" + d + "\n";
  }

  /** The trimmed template for any pieces: the four pieces after the
   *  cut, each on its own lines, then a blank line and the cut rules. */
  lemma TrimmedPieces(base: string, memory: string, constraints: string, context: string, rules: seq<string>)
    requires rules != []
    ensures Margin.TrimMargin(Template(base, memory, constraints, context, rules)) ==
      Fixed(base) + "\n" + Fixed(memory) + "\n" + Fixed(constraints) + "\n" + Fixed(context)
        + ("\n\n" + Text.Join(HeadsOf(rules), "\n"))
  {
    var front := [base, memory, constraints, context, ""];
    TrimmedTemplate(base, memory, constraints, context, rules);
    HeadsOfAppend(front, rules);
    Margin.JoinConcat(HeadsOf(front), HeadsOf(rules), "\n");
    JoinHeads(front);
    JoinHeads(front[1..]);
    JoinHeads(front[2..]);
    JoinHeads(front[3..]);
    assert HeadsOf(front[4..]) == Head("") + HeadsOf([]);
    assert Margin.Lines("") == [""];
    LineChain(Fixed(base), Fixed(memory), Fixed(constraints), Fixed(context), Text.Join(HeadsOf(rules), "\n"));
  }

  /** What `build` yields for every input: the role text, memory,
   *  constraints and context after the margin cut, each on its own lines,
   *  then a blank line and the general rules. */
  lemma BuildPieces(role: AgentRole, eps: seq<Episode>, g: GraphContext, cs: seq<string>, ctx: string,
                    showScore: real -> string)
    ensures Build(role, eps, g, cs, ctx, showScore) ==
      Fixed(RolePrompt(role)) + "\n" + Fixed(MemorySection(eps, g, showScore)) + "\n" + Fixed(ConstraintSection(cs)) + "\n"
        + Fixed(ContextSection(ctx)) + ("\n\n" + GeneralRules())
  {
    TrimmedPieces(RolePrompt(role), MemorySection(eps, g, showScore), ConstraintSection(cs), ContextSection(ctx), RuleLines());
  }

  /** The general rules close every prompt, after a blank line, whatever
   *  the pieces hold. */
  lemma RulesAlwaysPresent(role: AgentRole, eps: seq<Episode>, g: GraphContext, cs: seq<string>, ctx: string,
                           showScore: real -> string)
    ensures Text.EndsWith(Build(role, eps, g, cs, ctx, showScore), "\n\n" + GeneralRules())
  {
    BuildPieces(role, eps, g, cs, ctx, showScore);
    Text.EndsWithAppended(Fixed(RolePrompt(role)) + "\n" + Fixed(MemorySection(eps, g, showScore)) + "\n"
      + Fixed(ConstraintSection(cs)) + "\n" + Fixed(ContextSection(ctx)), "\n\n" + GeneralRules());
  }

  /** A margin-free piece is rendered verbatim. */
  lemma FixedMarginFree(piece: string)
    requires MarginFree(piece)
    ensures Fixed(piece) == piece
  {
    HeadOfMarginFree(piece);
    Margin.LinesJoin(piece);
  }

  /** When no later line of the memory, constraints or context piece starts
   *  with a bar, `build` yields the intended prompt. */
  lemma BuildAsIntended(role: AgentRole, eps: seq<Episode>, g: GraphContext, cs: seq<string>, ctx: string,
                        showScore: real -> string)
    requires MarginFree(MemorySection(eps, g, showScore))
    requires MarginFree(ConstraintSection(cs)) && MarginFree(ContextSection(ctx))
    ensures Build(role, eps, g, cs, ctx, showScore) == Intended(role, eps, g, cs, ctx, showScore)
  {
    BuildPieces(role, eps, g, cs, ctx, showScore);
    FixedMarginFree(MemorySection(eps, g, showScore));
    FixedMarginFree(ConstraintSection(cs));
    FixedMarginFree(ContextSection(ctx));
  }

  /** The intended prompt holds the constraints block when there are
   *  constraints and the context block when it is not blank, each in full,
   *  and always ends with the rules. */
  lemma IntendedSections(role: AgentRole, eps: seq<Episode>, g: GraphContext, cs: seq<string>, ctx: string,
                         showScore: real -> string)
    ensures var r := Intended(role, eps, g, cs, ctx, showScore);
      (cs != [] ==> Text.Contains(r, "\n## Kisitlar\n" + Text.Join(Bullets(cs), "\n"))) &&
      (!Text.IsBlank(ctx) ==> Text.Contains(r, "\n## Ek Baglam\n" + ctx)) &&
      Text.EndsWith(r, "\n\n" + GeneralRules())
  {
    var c, x := ConstraintSection(cs), ContextSection(ctx);
    var r := Intended(role, eps, g, cs, ctx, showScore);
    var a := Fixed(RolePrompt(role)) + "\n" + MemorySection(eps, g, showScore) + "\n";
    var t := "\n\n" + GeneralRules();
    Text.OccursAtEnd(a, c);
    Text.OccursExtend(a + c, c, |a|, "\n");
    Text.OccursExtend(a + c + "\n", c, |a|, x);
    Text.OccursExtend(a + c + "\n" + x, c, |a|, t);
    Text.OccursAtEnd(a + c + "\n", x);
    Text.OccursExtend(a + c + "\n" + x, x, |a + c + "\n"|, t);
    Text.EndsWithAppended(a + c + "\n" + x, t);
  }

  /** The cut runs after interpolation, so a context line that starts with
   *  a bar loses it: the contexts "|x" and "x" give the same prompt,
   *  although the intended prompts differ. */
  lemma BarInContextIsStripped(role: AgentRole, showScore: real -> string)
    ensures var g := GraphContext([], []);
      Build(role, [], g, [], "|x", showScore) == Build(role, [], g, [], "x", showScore) &&
      Intended(role, [], g, [], "|x", showScore) != Intended(role, [], g, [], "x", showScore)
  {
    var g := GraphContext([], []);
    ContextBarLost();
    BuildPieces(role, [], g, [], "|x", showScore);
    BuildPieces(role, [], g, [], "x", showScore);
    assert |ContextSection("|x")| == |ContextSection("x")| + 1;
  }

  /** The context block of "|x" and of "x" have the same lines after the
   *  cut. */
  lemma ContextBarLost()
    ensures !Text.IsBlank("|x") && !Text.IsBlank("x")
    ensures Head(ContextSection("|x")) == Head(ContextSection("x")) == ["", "## Ek Baglam", "x"]
  {
    assert !Text.IsWs("|x"[0]);
    assert !Text.IsWs("x"[0]);
    assert Text.TrimStart("|x") == "|x";
    assert Text.TrimStart("x") == "x";
    ContextHead("|x");
    ContextHead("x");
  }

  /** A one-line context block: the cut keeps its header and cuts the
   *  context line. */
  lemma ContextHead(ctx: string)
    requires !Text.IsBlank(ctx) && '\n' !in ctx
    ensures Head(ContextSection(ctx)) == ["", "## Ek Baglam", Margin.Cut(ctx)]
  {
    var header := "## Ek Baglam";
    assert '\n' !in header;
    assert "\n## Ek Baglam\n" == "" + "\n" + header + "\n";
    JoinThree("", header, ctx);
    assert Text.TrimStart(header) == header by { assert !Text.IsWs(header[0]); }
    HeadOfThree("", header, ctx);
  }

  lemma JoinThree(a: string, b: string, c: string)
    ensures Text.Join([a, b, c], "\n") == a + "\n" + b + "\n" + c
  {
    assert [a, b, c][1..] == [b, c];
    assert [b, c][1..] == [c];
    assert Text.Join([c], "\n") == c;
    assert Text.Join([b, c], "\n") == b + "\n" + c;
    assert a + "\n" + (b + "\n" + c) == a + "\n" + b + "\n" + c;
  }

  lemma HeadOfThree(a: string, b: string, c: string)
    requires '\n' !in a && '\n' !in b && '\n' !in c
    ensures Head(Text.Join([a, b, c], "\n")) == [a, Margin.Cut(b), Margin.Cut(c)]
  {
    LinesOfThree([a, b, c]);
  }

  lemma LinesOfThree(ls: seq<string>)
    requires |ls| == 3 && '\n' !in ls[0] && '\n' !in ls[1] && '\n' !in ls[2]
    ensures Margin.Lines(Text.Join(ls, "\n")) == ls
  {
    Margin.LinesSingle(ls[0]);
    Margin.LinesSingle(ls[1]);
    Margin.LinesSingle(ls[2]);
    Margin.LinesConcat(ls[0], Text.Join(ls[1..], "\n"));
    Margin.LinesConcat(ls[1], Text.Join(ls[2..], "\n"));
  }
}
