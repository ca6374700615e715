/** String helpers shared by the model: the parts of the Kotlin and
 *  TypeScript standard libraries that the core relies on. Case mapping and
 *  whitespace are ASCII; `length` and `take` count UTF-16 code units. */
module Text {

  /** The characters matched by the regular-expression class `\s`. */
  predicate IsWs(c: char) {
    c == ' ' || c == '\t' || c == '\n' || c == '\U{B}' || c == '\U{C}' || c == '\r'
  }

  /** The characters matched by the regular-expression class `\w`. */
  predicate IsWordChar(c: char) {
    ('a' <= c <= 'z') || ('A' <= c <= 'Z') || ('0' <= c <= '9') || c == '_'
  }

  predicate IsUpper(c: char) { 'A' <= c <= 'Z' }

  predicate IsLower(c: char) { 'a' <= c <= 'z' }

  predicate IsDigit(c: char) { '0' <= c <= '9' }

  function LowerChar(c: char): char {
    if IsUpper(c) then (c as int + 32) as char else c
  }

  function UpperChar(c: char): char {
    if IsLower(c) then (c as int - 32) as char else c
  }

  /** `lowercase()` */
  function Lower(s: string): (r: string)
    ensures |r| == |s|
    ensures forall i :: 0 <= i < |s| ==> r[i] == LowerChar(s[i])
  {
    seq(|s|, i requires 0 <= i < |s| => LowerChar(s[i]))
  }

  /** `uppercase()` */
  function Upper(s: string): (r: string)
    ensures |r| == |s|
    ensures forall i :: 0 <= i < |s| ==> r[i] == UpperChar(s[i])
  {
    seq(|s|, i requires 0 <= i < |s| => UpperChar(s[i]))
  }

  /** The UTF-16 code units of a character: two outside the Basic
   *  Multilingual Plane, one inside it. */
  function Units(c: char): nat {
    if c as int > 0xFFFF then 2 else 1
  }

  /** A character inside the Basic Multilingual Plane. */
  predicate InBmp(c: char) { c as int <= 0xFFFF }

  /** Every character of s lies in the Basic Multilingual Plane. */
  predicate AllBmp(s: string) {
    forall i :: 0 <= i < |s| ==> InBmp(s[i])
  }

  /** `length` of a JVM or JavaScript string: its UTF-16 code units. */
  function Length16(s: string): (n: nat)
    ensures |s| <= n <= 2 * |s|
  {
    if s == [] then 0 else Units(s[0]) + Length16(s[1..])
  }

  /** Inside the Basic Multilingual Plane, `length` counts characters. */
  lemma {:induction false} Length16Bmp(s: string)
    requires AllBmp(s)
    ensures Length16(s) == |s|
  {
    if s != [] {
      assert forall i :: 0 <= i < |s[1..]| ==> s[1..][i] == s[i + 1];
      Length16Bmp(s[1..]);
    }
  }

  /** A string wholly outside the Basic Multilingual Plane counts two
   *  UTF-16 code units per character. */
  lemma {:induction false} Length16Astral(s: string)
    requires forall i :: 0 <= i < |s| ==> !InBmp(s[i])
    ensures Length16(s) == 2 * |s|
  {
    if s != [] {
      assert forall i :: 0 <= i < |s[1..]| ==> s[1..][i] == s[i + 1];
      Length16Astral(s[1..]);
    }
  }

  /** `take(n)` of a JVM string: the longest prefix within n UTF-16 code
   *  units. Where unit n is the first half of a surrogate pair, the JVM
   *  keeps that lone half and this prefix stops before the character. */
  function Take16(s: string, n: nat): (r: string)
    ensures r <= s && Length16(r) <= n && |r| <= n
    ensures |r| < |s| ==> n < Length16(r) + Units(s[|r|])
  {
    if s == [] || Units(s[0]) > n then []
    else
      var rest := Take16(s[1..], n - Units(s[0]));
      assert ([s[0]] + rest)[1..] == rest;
      [s[0]] + rest
  }

  /** Inside the Basic Multilingual Plane, `take(n)` keeps the first n
   *  characters. */
  lemma Take16Bmp(s: string, n: nat)
    requires AllBmp(s)
    ensures Take16(s, n) == Take(s, n)
  {
    var r := Take16(s, n);
    assert AllBmp(r) by {
      forall i | 0 <= i < |r| ensures InBmp(r[i]) { assert r[i] == s[i]; }
    }
    Length16Bmp(r);
    if |r| < |s| {
      assert InBmp(s[|r|]);
      assert r == s[..n];
    } else {
      assert r == s;
    }
  }

  /** `take(n)`: the first n characters, or all of them. */
  function Take<T>(s: seq<T>, n: nat): (r: seq<T>)
    ensures |r| == if |s| <= n then |s| else n
    ensures r <= s
  {
    if |s| <= n then s else s[..n]
  }

  function TrimStart(s: string): (r: string)
    ensures |r| <= |s| && r == s[|s| - |r|..]
    ensures r == [] || !IsWs(r[0])
  {
    if |s| > 0 && IsWs(s[0]) then TrimStart(s[1..]) else s
  }

  function TrimEnd(s: string): (r: string)
    ensures |r| <= |s| && r == s[..|r|]
    ensures r == [] || !IsWs(r[|r| - 1])
  {
    if |s| > 0 && IsWs(s[|s| - 1]) then TrimEnd(s[..|s| - 1]) else s
  }

  /** `trim()`: drops leading and trailing white space. */
  function Trim(s: string): string {
    TrimEnd(TrimStart(s))
  }

  /** A string is blank when it holds white space only. */
  predicate IsBlank(s: string) {
    forall i :: 0 <= i < |s| ==> IsWs(s[i])
  }

  /** `startsWith(p)` */
  predicate StartsWith(s: string, p: string) {
    |p| <= |s| && s[..|p|] == p
  }

  /** `endsWith(p)` */
  predicate EndsWith(s: string, p: string) {
    |p| <= |s| && s[|s| - |p|..] == p
  }

  /** True when p occurs in s at index i. */
  predicate OccursAt(s: string, p: string, i: int) {
    0 <= i && i + |p| <= |s| && s[i..i + |p|] == p
  }

  /** `contains(p)` */
  predicate Contains(s: string, p: string) {
    exists i :: 0 <= i <= |s| - |p| && OccursAt(s, p, i)
  }

  /** `contains(p, ignoreCase = true)` */
  predicate ContainsIgnoreCase(s: string, p: string) {
    Contains(Lower(s), Lower(p))
  }

  /** Number of occurrences of character c: `count { it == c }`. */
  function Count(s: string, c: char): (n: nat)
    ensures n <= |s|
  {
    if s == [] then 0 else (if s[0] == c then 1 else 0) + Count(s[1..], c)
  }

  /** `indexOf(c)`: the first index of c, or -1. */
  function IndexOf(s: string, c: char): (r: int)
    ensures -1 <= r < |s|
    ensures r >= 0 ==> s[r] == c && forall j :: 0 <= j < r ==> s[j] != c
    ensures r == -1 ==> forall j :: 0 <= j < |s| ==> s[j] != c
  {
    if s == [] then -1
    else if s[0] == c then 0
    else var k := IndexOf(s[1..], c); if k == -1 then -1 else k + 1
  }

  /** `lastIndexOf(c)`: the last index of c, or -1. */
  function LastIndexOf(s: string, c: char): (r: int)
    ensures -1 <= r < |s|
    ensures r >= 0 ==> s[r] == c && forall j :: r < j < |s| ==> s[j] != c
    ensures r == -1 ==> forall j :: 0 <= j < |s| ==> s[j] != c
  {
    if s == [] then -1
    else if s[|s| - 1] == c then |s| - 1
    else LastIndexOf(s[..|s| - 1], c)
  }

  /** `joinToString(sep)` */
  function Join(parts: seq<string>, sep: string): string {
    if parts == [] then ""
    else if |parts| == 1 then parts[0]
    else parts[0] + sep + Join(parts[1..], sep)
  }

  /** Decimal rendering of a natural number. */
  function NatToString(n: nat): (r: string)
    ensures |r| > 0
    ensures forall i :: 0 <= i < |r| ==> IsDigit(r[i])
  {
    var d := ['0' + (n % 10) as char];
    if n < 10 then d else NatToString(n / 10) + d
  }

  /** Decimal rendering of an integer. */
  function IntToString(n: int): string {
    if n < 0 then "-" + NatToString(-n) else NatToString(n)
  }

  /** Drops a leading run of white space. */
  function DropWs(s: string): (r: string)
    ensures |r| <= |s| && r == s[|s| - |r|..]
    ensures r == [] || !IsWs(r[0])
  {
    if |s| > 0 && IsWs(s[0]) then DropWs(s[1..]) else s
  }

  /** `split(Regex("\\s+"))`: the pieces between maximal runs of white space,
   *  keeping an empty piece before a leading run and after a trailing one. */
  function SplitWs(s: string): (r: seq<string>)
    ensures |r| > 0
    ensures forall k :: 0 <= k < |r| ==> forall j :: 0 <= j < |r[k]| ==> !IsWs(r[k][j])
  {
    SplitFrom(s, "")
  }

  function SplitFrom(s: string, cur: string): (r: seq<string>)
    requires forall j :: 0 <= j < |cur| ==> !IsWs(cur[j])
    ensures |r| > 0
    ensures forall k :: 0 <= k < |r| ==> forall j :: 0 <= j < |r[k]| ==> !IsWs(r[k][j])
    decreases |s|
  {
    if s == [] then [cur]
    else if IsWs(s[0]) then [cur] + SplitFrom(DropWs(s), "")
    else SplitFrom(s[1..], cur + [s[0]])
  }

  /** `distinct()`: keeps the first occurrence of each element. */
  function Distinct<T(==)>(s: seq<T>): (r: seq<T>)
    ensures forall i :: 0 <= i < |r| ==> r[i] in s
    ensures forall i :: 0 <= i < |s| ==> s[i] in r
    ensures forall i, j :: 0 <= i < j < |r| ==> r[i] != r[j]
  {
    DistinctAfter(s, [])
  }

  function DistinctAfter<T(==)>(s: seq<T>, seen: seq<T>): (r: seq<T>)
    requires forall i, j :: 0 <= i < j < |seen| ==> seen[i] != seen[j]
    ensures forall i :: 0 <= i < |r| ==> r[i] in seen || r[i] in s
    ensures forall i :: 0 <= i < |s| ==> s[i] in r
    ensures forall i, j :: 0 <= i < j < |r| ==> r[i] != r[j]
    ensures |seen| <= |r| && r[..|seen|] == seen
    decreases |s|
  {
    if s == [] then seen
    else if s[0] in seen then DistinctAfter(s[1..], seen)
    else
      var r := DistinctAfter(s[1..], seen + [s[0]]);
      assert r[..|seen| + 1][|seen|] == s[0];
      r
  }

  /** `distinct()` keeps first occurrences in order: appending an element
   *  adds it at the end exactly when it is new. */
  lemma DistinctSnoc<T>(s: seq<T>, x: T)
    ensures Distinct(s + [x]) == Distinct(s) + (if x in s then [] else [x])
  {
    DistinctAfterSnoc(s, [], x);
  }

  lemma {:induction false} DistinctAfterSnoc<T>(s: seq<T>, seen: seq<T>, x: T)
    requires forall i, j :: 0 <= i < j < |seen| ==> seen[i] != seen[j]
    ensures DistinctAfter(s + [x], seen) == DistinctAfter(s, seen) + (if x in seen || x in s then [] else [x])
    decreases |s|
  {
    if s == [] {
      assert s + [x] == [x];
    } else {
      assert (s + [x])[0] == s[0];
      assert (s + [x])[1..] == s[1..] + [x];
      if s[0] in seen {
        DistinctAfterSnoc(s[1..], seen, x);
      } else {
        DistinctAfterSnoc(s[1..], seen + [s[0]], x);
      }
    }
  }

  /** Joining one more part adds the separator and the part at the end. */
  lemma {:induction false} JoinSnoc(parts: seq<string>, x: string, sep: string)
    requires parts != []
    ensures Join(parts + [x], sep) == Join(parts, sep) + sep + x
  {
    if |parts| == 1 {
      assert parts + [x] == [parts[0], x];
    } else {
      assert (parts + [x])[1..] == parts[1..] + [x];
      JoinSnoc(parts[1..], x, sep);
    }
  }

  /** `takeLast(n)`: the last n elements, or all of them. */
  function TakeLast<T>(s: seq<T>, n: nat): (r: seq<T>)
    ensures |r| == if |s| <= n then |s| else n
    ensures r == s[|s| - |r|..]
  {
    if |s| <= n then s else s[|s| - n..]
  }

  /** A text ends with what was appended last. */
  lemma EndsWithAppended(p: string, t: string)
    ensures EndsWith(p + t, t)
  {
    assert (p + t)[|p + t| - |t|..] == t;
  }

  /** The part appended last occurs right after the rest. */
  lemma OccursAtEnd(a: string, m: string)
    ensures OccursAt(a + m, m, |a|)
  {
    assert (a + m)[|a|..|a| + |m|] == m;
  }

  /** An occurrence survives appending, and makes the text contain it. */
  lemma OccursExtend(p: string, m: string, i: int, z: string)
    requires OccursAt(p, m, i)
    ensures OccursAt(p + z, m, i) && Contains(p + z, m)
  {
    assert (p + z)[i..i + |m|] == p[i..i + |m|];
    assert OccursAt(p + z, m, i);
  }

  /** Different numbers have different decimal renderings. */
  lemma {:induction false} NatToStringInjective(m: nat, n: nat)
    requires NatToString(m) == NatToString(n)
    ensures m == n
  {
    var a, b := NatToString(m), NatToString(n);
    assert a[|a| - 1] == b[|b| - 1];
    assert m % 10 == n % 10;
    if m >= 10 && n >= 10 {
      assert NatToString(m / 10) == a[..|a| - 1] == b[..|b| - 1] == NatToString(n / 10);
      NatToStringInjective(m / 10, n / 10);
    }
  }

  /** Lower-casing twice is lower-casing once. */
  lemma LowerIdempotent(s: string)
    ensures Lower(Lower(s)) == Lower(s)
  {
  }

  /** `trimStart()` drops white space only. */
  lemma {:induction false} TrimStartDropsWs(s: string)
    ensures forall j :: 0 <= j < |s| - |TrimStart(s)| ==> IsWs(s[j])
  {
    if |s| > 0 && IsWs(s[0]) {
      var t := s[1..];
      TrimStartDropsWs(t);
      assert TrimStart(s) == TrimStart(t);
      forall j | 1 <= j < |s| - |TrimStart(s)| ensures IsWs(s[j]) {
        assert s[j] == t[j - 1];
      }
    }
  }

  /** `trimEnd()` drops white space only. */
  lemma {:induction false} TrimEndDropsWs(s: string)
    ensures forall j :: |TrimEnd(s)| <= j < |s| ==> IsWs(s[j])
  {
    if |s| > 0 && IsWs(s[|s| - 1]) {
      TrimEndDropsWs(s[..|s| - 1]);
    }
  }

  /** Text without white space that occurs in s survives `trim()`. */
  lemma TrimKeeps(s: string, p: string, i: int)
    requires OccursAt(s, p, i) && p != []
    requires forall j :: 0 <= j < |p| ==> !IsWs(p[j])
    ensures Contains(Trim(s), p)
  {
    var a := TrimStart(s);
    var d := |s| - |a|;
    TrimStartDropsWs(s);
    assert !IsWs(s[i]);
    assert d <= i;
    assert OccursAt(a, p, i - d) by {
      assert a[i - d..i - d + |p|] == s[i..i + |p|];
    }
    var t := TrimEnd(a);
    TrimEndDropsWs(a);
    assert !IsWs(a[i - d + |p| - 1]);
    assert i - d + |p| <= |t|;
    assert t[i - d..i - d + |p|] == a[i - d..i - d + |p|];
    assert OccursAt(t, p, i - d);
  }

  /** Text without upper-case letters that occurs in s survives
   *  `lowercase()`. */
  lemma LowerKeeps(s: string, p: string, i: int)
    requires OccursAt(s, p, i)
    requires forall j :: 0 <= j < |p| ==> !IsUpper(p[j])
    ensures OccursAt(Lower(s), p, i)
  {
    assert Lower(s)[i..i + |p|] == p;
  }

  /** `distinct()` keeps exactly the elements of s. */
  lemma DistinctMembers<T>(s: seq<T>)
    ensures forall x :: x in Distinct(s) <==> x in s
  {
    var r := Distinct(s);
    forall x | x in r ensures x in s {
      var i :| 0 <= i < |r| && r[i] == x;
    }
    forall x | x in s ensures x in r {
      var i :| 0 <= i < |s| && s[i] == x;
    }
  }

  /** Trimming a blank string leaves nothing. */
  lemma {:induction false} TrimBlank(s: string)
    requires IsBlank(s)
    ensures TrimStart(s) == [] && Trim(s) == []
  {
    if s != [] {
      assert IsWs(s[0]);
      assert IsBlank(s[1..]) by {
        forall j | 0 <= j < |s[1..]| ensures IsWs(s[1..][j]) {
          assert s[1..][j] == s[j + 1];
        }
      }
      TrimBlank(s[1..]);
    }
  }
}
