/** The parts of Go's `strings` package that the parsers use, on ASCII text: a string is a sequence of
    characters, and white space is the six ASCII white-space characters. */
module Strings {

  predicate IsSpace(c: char) {
    c == ' ' || c == '\t' || c == '\n' || c == '\U{000B}' || c == '\U{000C}' || c == '\r'
  }

  predicate All(s: string, p: char -> bool) {
    forall i | 0 <= i < |s| :: p(s[i])
  }

  predicate Free(s: string, c: char) { c !in s }

  // White space within a line.
  predicate IsPadding(s: string) { All(s, IsSpace) && Free(s, '\n') }

  function TrimLeft(s: string, cut: char -> bool): string {
    if s != [] && cut(s[0]) then TrimLeft(s[1..], cut) else s
  }

  function TrimRight(s: string, cut: char -> bool): string {
    if s != [] && cut(s[|s| - 1]) then TrimRight(s[..|s| - 1], cut) else s
  }

  function TrimSpace(s: string): string {
    TrimRight(TrimLeft(s, IsSpace), IsSpace)
  }

  function Lower(c: char): char {
    if 'A' <= c <= 'Z' then (c as int + 32) as char else c
  }

  function ToLower(s: string): string {
    seq(|s|, i requires 0 <= i < |s| => Lower(s[i]))
  }

  predicate HasPrefix(s: string, p: string) { p <= s }

  predicate HasSuffix(s: string, p: string) {
    |p| <= |s| && s[|s| - |p|..] == p
  }

  predicate OccursAt(s: string, p: string, i: int) {
    0 <= i <= |s| - |p| && s[i..i + |p|] == p
  }

  predicate Contains(s: string, p: string) {
    exists i | 0 <= i <= |s| - |p| :: OccursAt(s, p, i)
  }

  // The first index of c, or -1; the last index of c, or -1.
  function IndexOf(s: string, c: char): (i: int)
    ensures -1 <= i < |s|
  {
    if s == [] then -1
    else if s[0] == c then 0
    else var r := IndexOf(s[1..], c); if r < 0 then -1 else r + 1
  }

  function LastIndexOf(s: string, c: char): (i: int)
    ensures -1 <= i < |s|
  {
    if s == [] then -1
    else if s[|s| - 1] == c then |s| - 1
    else LastIndexOf(s[..|s| - 1], c)
  }

  lemma {:induction false} IndexOfIs(s: string, c: char)
    ensures var i := IndexOf(s, c);
      && (i >= 0 ==> s[i] == c && forall j | 0 <= j < i :: s[j] != c)
      && (i < 0 ==> forall j | 0 <= j < |s| :: s[j] != c)
  {
    if s != [] && s[0] != c {
      IndexOfIs(s[1..], c);
      assert forall j | 1 <= j < |s| :: s[j] == s[1..][j - 1];
    }
  }

  lemma {:induction false} LastIndexOfIs(s: string, c: char)
    ensures var i := LastIndexOf(s, c);
      && (i >= 0 ==> s[i] == c)
      && forall j | i < j < |s| :: s[j] != c
  {
    if s != [] && s[|s| - 1] != c {
      LastIndexOfIs(s[..|s| - 1], c);
    }
  }

  function Split(s: string, sep: char): (parts: seq<string>)
    ensures |parts| >= 1
  {
    if s == [] then [[]]
    else
      var rest := Split(s[1..], sep);
      if s[0] == sep then [[]] + rest else [[s[0]] + rest[0]] + rest[1..]
  }

  function Join(parts: seq<string>, sep: string): string {
    if parts == [] then []
    else if |parts| == 1 then parts[0]
    else parts[0] + sep + Join(parts[1..], sep)
  }

  // Both parsers strip one pair of matching quotes.
  function TrimMatchingQuotes(value: string): string {
    if |value| < 2 then value
    else
      var first, last := value[0], value[|value| - 1];
      if (first == '"' || first == '\'') && first == last then value[1..|value| - 1] else value
  }

  predicate InQuotes(value: string, body: string) {
    value == "\"" + body + "\"" || value == "'" + body + "'"
  }

  /** Exactly one pair of equal quotes around the whole value is stripped. */
  lemma QuotesExactly(value: string)
    ensures if exists body :: InQuotes(value, body) then InQuotes(value, TrimMatchingQuotes(value))
            else TrimMatchingQuotes(value) == value
  {
    if body :| InQuotes(value, body) {
      assert value[1..|value| - 1] == body;
    } else if |value| >= 2 && value[0] == value[|value| - 1] {
      assert value == [value[0]] + value[1..|value| - 1] + [value[0]];
      assert value[0] == '"' || value[0] == '\'' ==> InQuotes(value, value[1..|value| - 1]);
    }
  }

  // The leading characters that are not white space.
  function Word(s: string): string {
    if s == [] || IsSpace(s[0]) then [] else [s[0]] + Word(s[1..])
  }

  lemma TrimLeftShorter(s: string, cut: char -> bool)
    ensures |TrimLeft(s, cut)| <= |s|
    ensures TrimLeft(s, cut) != [] ==> !cut(TrimLeft(s, cut)[0])
  {
  }

  function Fields(s: string): seq<string>
    decreases |s|
  {
    TrimLeftShorter(s, IsSpace);
    var t := TrimLeft(s, IsSpace);
    if t == [] then [] else WordPrefix(t); [Word(t)] + Fields(t[|Word(t)|..])
  }

  lemma {:induction false} WordPrefix(s: string)
    ensures Word(s) <= s && All(Word(s), c => !IsSpace(c))
    ensures s != [] && !IsSpace(s[0]) ==> Word(s) != []
    ensures |Word(s)| < |s| ==> IsSpace(s[|Word(s)|])
  {
    if s != [] && !IsSpace(s[0]) {
      WordPrefix(s[1..]);
    }
  }

  // ---- sequences ---------------------------------------------------------------------------------------

  lemma AppendAssoc<T>(a: seq<T>, b: seq<T>, c: seq<T>)
    ensures a + (b + c) == (a + b) + c
  {
  }

  lemma AppendNil<T>(a: seq<T>)
    ensures a + [] == a && [] + a == a
  {
  }

  // ---- trimming ----------------------------------------------------------------------------------------

  // s is not empty and neither of its ends would be trimmed.
  predicate Trimmed(s: string) {
    s != [] && !IsSpace(s[0]) && !IsSpace(s[|s| - 1])
  }

  lemma {:induction false} TrimLeftPad(pad: string, s: string, cut: char -> bool)
    requires All(pad, cut) && (s == [] || !cut(s[0]))
    ensures TrimLeft(pad + s, cut) == s
  {
    if pad == [] {
      assert pad + s == s;
    } else {
      assert (pad + s)[1..] == pad[1..] + s;
      TrimLeftPad(pad[1..], s, cut);
    }
  }

  // Trimming s + pad on the right stops inside the padding when s itself would not be trimmed.
  lemma {:induction false} TrimRightPad(s: string, pad: string, cut: char -> bool)
    requires s == [] || !cut(s[|s| - 1])
    ensures TrimRight(s + pad, cut) == s + TrimRight(pad, cut)
  {
    if pad == [] || !cut(pad[|pad| - 1]) {
      assert pad == [] ==> s + pad == s;
    } else {
      assert (s + pad)[..|s + pad| - 1] == s + pad[..|pad| - 1];
      TrimRightPad(s, pad[..|pad| - 1], cut);
    }
  }

  lemma {:induction false} TrimRightAll(pad: string, cut: char -> bool)
    requires All(pad, cut)
    ensures TrimRight(pad, cut) == []
  {
    if pad != [] {
      TrimRightAll(pad[..|pad| - 1], cut);
    }
  }

  lemma {:induction false} TrimRightPrefix(s: string, cut: char -> bool)
    ensures TrimRight(s, cut) <= s
  {
    if s != [] && cut(s[|s| - 1]) {
      TrimRightPrefix(s[..|s| - 1], cut);
    }
  }

  lemma {:induction false} TrimRightKeeps(s: string, i: nat, cut: char -> bool)
    requires i < |s| && !cut(s[i])
    ensures |TrimRight(s, cut)| > i && TrimRight(s, cut)[i] == s[i]
  {
    if cut(s[|s| - 1]) {
      TrimRightKeeps(s[..|s| - 1], i, cut);
    }
  }

  lemma {:induction false} TrimLeftKeeps(s: string, c: char, cut: char -> bool)
    requires c in s && !cut(c)
    ensures c in TrimLeft(s, cut)
  {
    if cut(s[0]) {
      TrimLeftKeeps(s[1..], c, cut);
    }
  }

  lemma NotBlank(s: string, c: char)
    requires c in s && !IsSpace(c)
    ensures TrimSpace(s) != ""
  {
    TrimLeftKeeps(s, c, IsSpace);
    var t := TrimLeft(s, IsSpace);
    var i :| 0 <= i < |t| && t[i] == c;
    TrimRightKeeps(t, i, IsSpace);
  }

  lemma TrimSpacePad(left: string, s: string, right: string)
    requires All(left, IsSpace) && All(right, IsSpace) && (s == [] || Trimmed(s))
    ensures TrimSpace(left + s + right) == s
  {
    if s == [] {
      assert left + s + right == left + right + [];
      TrimLeftPad(left + right, [], IsSpace);
    } else {
      assert left + s + right == left + (s + right);
      TrimLeftPad(left, s + right, IsSpace);
      TrimRightPad(s, right, IsSpace);
      TrimRightAll(right, IsSpace);
    }
  }

  lemma {:induction false} TrimLeftSnoc(x: string, c: char)
    requires IsSpace(c)
    ensures TrimLeft(x + [c], IsSpace) == if TrimLeft(x, IsSpace) == [] then [] else TrimLeft(x, IsSpace) + [c]
  {
    if x == [] {
      assert x + [c] == [c] && [c][1..] == [];
    } else {
      assert (x + [c])[1..] == x[1..] + [c];
      TrimLeftSnoc(x[1..], c);
    }
  }

  // White space at the ends does not matter.
  lemma TrimSpaceOuter(x: string, c: char)
    requires IsSpace(c)
    ensures TrimSpace([c] + x) == TrimSpace(x) && TrimSpace(x + [c]) == TrimSpace(x)
  {
    assert ([c] + x)[1..] == x;
    var l := TrimLeft(x, IsSpace);
    TrimLeftSnoc(x, c);
    if l == [] {
      assert TrimLeft(x + [c], IsSpace) == [];
    } else {
      assert (l + [c])[..|l + [c]| - 1] == l;
    }
  }

  // ---- splitting and joining --------------------------------------------------------------------------

  lemma {:induction false} SplitAppend(a: string, sep: char, b: string)
    ensures Split(a + [sep] + b, sep) == Split(a, sep) + Split(b, sep)
  {
    if a == [] {
      assert a + [sep] + b == [sep] + b && ([sep] + b)[1..] == b;
    } else {
      assert (a + [sep] + b)[1..] == a[1..] + [sep] + b;
      SplitAppend(a[1..], sep, b);
    }
  }

  lemma {:induction false} SplitFree(s: string, sep: char)
    requires Free(s, sep)
    ensures Split(s, sep) == [s]
  {
    if s != [] {
      assert s[0] in s;
      SplitFree(s[1..], sep);
      assert [s[0]] + s[1..] == s;
    }
  }

  /** Splitting undoes joining when no part holds the separator. */
  lemma {:induction false} SplitJoin(parts: seq<string>, sep: char)
    requires parts != [] && forall i | 0 <= i < |parts| :: Free(parts[i], sep)
    ensures Split(Join(parts, [sep]), sep) == parts
  {
    SplitFree(parts[0], sep);
    if |parts| > 1 {
      SplitJoin(parts[1..], sep);
      SplitAppend(parts[0], sep, Join(parts[1..], [sep]));
    }
  }
}
