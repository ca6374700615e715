/** Kotlin's `lines()` and `trimMargin()` for text whose only line break is
 *  '\n'. */
module Margin {
  import Text

  /** `lines()`: the pieces between line breaks; a text always has a line. */
  function Lines(s: string): (r: seq<string>)
    ensures |r| >= 1
    decreases |s|
  {
    if s == [] then [""]
    else
      var rest := Lines(s[1..]);
      if s[0] == '\n' then [""] + rest else [[s[0]] + rest[0]] + rest[1..]
  }

  /** Joining the lines with '\n' gives the text back. */
  lemma {:induction false} LinesJoin(s: string)
    ensures Text.Join(Lines(s), "\n") == s
    decreases |s|
  {
    if s != [] {
      var rest := Lines(s[1..]);
      LinesJoin(s[1..]);
      if s[0] == '\n' {
        assert ([""] + rest)[1..] == rest;
        assert s == "" + "\n" + s[1..];
      } else if |rest| == 1 {
        assert s == [s[0]] + s[1..];
      } else {
        var r := [[s[0]] + rest[0]] + rest[1..];
        assert r[1..] == rest[1..];
        assert s == [s[0]] + rest[0] + "\n" + Text.Join(rest[1..], "\n");
      }
    }
  }

  /** A text without a line break is one line. */
  lemma {:induction false} LinesSingle(s: string)
    requires '\n' !in s
    ensures Lines(s) == [s]
    decreases |s|
  {
    if s != [] {
      assert '\n' !in s[1..];
      LinesSingle(s[1..]);
      assert [s[0]] + s[1..] == s;
    }
  }

  /** A line break splits the lines in two. */
  lemma {:induction false} LinesConcat(a: string, b: string)
    ensures Lines(a + "\n" + b) == Lines(a) + Lines(b)
    decreases |a|
  {
    var s := a + "\n" + b;
    if a == [] {
      assert s == "\n" + b && s[1..] == b;
    } else {
      assert s[0] == a[0] && s[1..] == a[1..] + "\n" + b;
      LinesConcat(a[1..], b);
      var la := Lines(a[1..]);
      if a[0] != '\n' {
        assert (la + Lines(b))[0] == la[0];
        assert (la + Lines(b))[1..] == la[1..] + Lines(b);
      }
    }
  }

  /** Text without a line break in front of s joins s's first line. */
  lemma {:induction false} LinesPrefix(p: string, s: string)
    requires '\n' !in p
    ensures Lines(p + s) == [p + Lines(s)[0]] + Lines(s)[1..]
    decreases |p|
  {
    if p == [] {
      assert p + s == s && p + Lines(s)[0] == Lines(s)[0];
    } else {
      var ps := p + s;
      assert ps[0] == p[0] && ps[1..] == p[1..] + s;
      assert '\n' !in p[1..];
      LinesPrefix(p[1..], s);
      assert [p[0]] + (p[1..] + Lines(s)[0]) == p + Lines(s)[0];
    }
  }

  function ConcatAll(xss: seq<seq<string>>): seq<string> {
    if xss == [] then [] else xss[0] + ConcatAll(xss[1..])
  }

  function LinesEach(parts: seq<string>): (r: seq<seq<string>>)
    ensures |r| == |parts| && forall k :: 0 <= k < |parts| ==> r[k] == Lines(parts[k])
  {
    seq(|parts|, k requires 0 <= k < |parts| => Lines(parts[k]))
  }

  /** The lines of joined parts are the parts' lines one after another. */
  lemma {:induction false} LinesOfJoin(parts: seq<string>)
    requires parts != []
    ensures Lines(Text.Join(parts, "\n")) == ConcatAll(LinesEach(parts))
  {
    if |parts| == 1 {
      assert ConcatAll(LinesEach(parts)) == Lines(parts[0]) + ConcatAll([]);
    } else {
      LinesConcat(parts[0], Text.Join(parts[1..], "\n"));
      LinesOfJoin(parts[1..]);
      assert LinesEach(parts)[1..] == LinesEach(parts[1..]);
    }
  }

  /** Joining a concatenation joins the two halves with one separator. */
  lemma {:induction false} JoinConcat(a: seq<string>, b: seq<string>, sep: string)
    requires a != [] && b != []
    ensures Text.Join(a + b, sep) == Text.Join(a, sep) + sep + Text.Join(b, sep)
    decreases |a|
  {
    if |a| == 1 {
      assert (a + b)[1..] == b;
    } else {
      assert (a + b)[1..] == a[1..] + b;
      JoinConcat(a[1..], b, sep);
    }
  }

  /** The margin cut of one line: after leading white space, a '|' and what
   *  precedes it are removed; any other line is kept as it is. */
  function Cut(line: string): string {
    var rest := Text.TrimStart(line);
    if rest != [] && rest[0] == '|' then rest[1..] else line
  }

  /** A first and a last line that are blank are dropped. */
  function DropBlankEnds(ls: seq<string>): seq<string> {
    var a := if ls != [] && Text.IsBlank(ls[0]) then ls[1..] else ls;
    if a != [] && Text.IsBlank(a[|a| - 1]) then a[..|a| - 1] else a
  }

  function CutAll(ls: seq<string>): (r: seq<string>)
    ensures |r| == |ls| && forall k :: 0 <= k < |ls| ==> r[k] == Cut(ls[k])
  {
    seq(|ls|, k requires 0 <= k < |ls| => Cut(ls[k]))
  }

  /** `trimMargin()` */
  function TrimMargin(s: string): string {
    Text.Join(CutAll(DropBlankEnds(Lines(s))), "\n")
  }

  /** A text without a bar whose first and last lines are not blank is
   *  left as it is by `trimMargin()`. */
  lemma TrimMarginBarless(s: string)
    requires '|' !in s
    requires !Text.IsBlank(Lines(s)[0]) && !Text.IsBlank(Lines(s)[|Lines(s)| - 1])
    ensures TrimMargin(s) == s
  {
    var ls := Lines(s);
    assert DropBlankEnds(ls) == ls;
    LinesChars(s, '|');
    forall k | 0 <= k < |ls| ensures Cut(ls[k]) == ls[k] {
      CutNoBar(ls[k]);
    }
    assert CutAll(ls) == ls;
    LinesJoin(s);
  }

  /** White space followed by '|' is cut off whatever follows. */
  lemma {:induction false} CutAfterMargin(ws: string, line: string)
    requires forall j :: 0 <= j < |ws| ==> Text.IsWs(ws[j])
    ensures Cut(ws + "|" + line) == line
    decreases |ws|
  {
    if ws == [] {
      assert ("|" + line)[0] == '|';
      assert ("|" + line)[1..] == line;
    } else {
      assert (ws + "|" + line)[1..] == ws[1..] + "|" + line;
      CutAfterMargin(ws[1..], line);
      assert Text.TrimStart(ws + "|" + line) == Text.TrimStart(ws[1..] + "|" + line);
    }
  }

  /** A line without '|' is kept as it is. */
  lemma CutNoBar(line: string)
    requires '|' !in line
    ensures Cut(line) == line
  {
    var rest := Text.TrimStart(line);
    if rest != [] {
      assert rest[0] == line[|line| - |rest|];
    }
  }

  /** No line holds a character the text does not. */
  lemma {:induction false} LinesChars(s: string, c: char)
    requires c !in s
    ensures forall k :: 0 <= k < |Lines(s)| ==> c !in Lines(s)[k]
    decreases |s|
  {
    if s != [] {
      assert c !in s[1..];
      LinesChars(s[1..], c);
    }
  }
}
