/** Image references and ARG substitution (internal/parser/dockerfileparser.go):
    `splitDockerImageReference`, `trimMatchingQuotes`, `resolveArgReferences`. */
module DockerReferences {
  import opened Options
  import opened Strings

  // ---- image references ------------------------------------------------------------------------------

  // A colon after the last slash separates a tag.
  function SplitAtTag(front: string): (string, Option<string>) {
    var colon := LastIndexOf(front, ':');
    if colon > LastIndexOf(front, '/') then (front[..colon], Some(front[colon + 1..])) else (front, None)
  }

  function SplitImageReference(ref: string): (string, string) {
    if ref == "" then ("", "")
    else
      var at := IndexOf(ref, '@');
      if at >= 0 then
        var digest := ref[at + 1..];
        var (imageRef, tag) := SplitAtTag(ref[..at]);
        (imageRef, if tag.Some? then tag.value + "@" + digest else digest)
      else
        var (imageRef, tag) := SplitAtTag(ref);
        (imageRef, if tag.Some? then tag.value else "latest")
  }

  // A reference as a registry writes it. A colon in the name stands before a slash: a registry port.
  datatype Image = Image(name: string, tag: Option<string>, digest: Option<string>)

  predicate PortBeforeSlash(name: string) {
    forall i | 0 <= i < |name| && name[i] == ':' :: '/' in name[i..]
  }

  predicate ImageOk(x: Image) {
    && x.name != "" && '@' !in x.name && PortBeforeSlash(x.name)
    && (x.tag.Some? ==> '/' !in x.tag.value && ':' !in x.tag.value && '@' !in x.tag.value)
  }

  function TagPart(x: Image): string { if x.tag.Some? then ":" + x.tag.value else "" }

  function DigestPart(x: Image): string { if x.digest.Some? then "@" + x.digest.value else "" }

  function PrintImage(x: Image): string { x.name + TagPart(x) + DigestPart(x) }

  // What is recorded as the tag of an image.
  function RecordedTag(x: Image): string {
    match (x.tag, x.digest)
    case (None, None) => "latest"
    case (Some(t), None) => t
    case (None, Some(d)) => d
    case (Some(t), Some(d)) => t + "@" + d
  }

  lemma IndexOfAppend(a: string, c: char, b: string)
    requires c !in a
    ensures IndexOf(a + [c] + b, c) == |a|
  {
    var s := a + [c] + b;
    IndexOfIs(s, c);
    assert s[|a|] == c;
    assert forall k | 0 <= k < |a| :: s[k] == a[k];
  }

  lemma LastIndexIs(s: string, c: char, k: nat)
    requires k < |s| && s[k] == c && forall j | k < j < |s| :: s[j] != c
    ensures LastIndexOf(s, c) == k
  {
    LastIndexOfIs(s, c);
  }

  lemma LastIndexBelow(s: string, c: char, k: nat)
    requires k <= |s| && forall j | k <= j < |s| :: s[j] != c
    ensures LastIndexOf(s, c) < k
  {
    LastIndexOfIs(s, c);
  }

  // A name whose colons all stand before a slash has no tag of its own.
  lemma NameHasNoTag(name: string)
    requires PortBeforeSlash(name)
    ensures LastIndexOf(name, ':') <= LastIndexOf(name, '/')
  {
    LastIndexOfIs(name, ':');
    LastIndexOfIs(name, '/');
    var colon := LastIndexOf(name, ':');
    if colon >= 0 {
      var j :| 0 <= j < |name[colon..]| && name[colon..][j] == '/';
      assert name[colon + j] == '/';
    }
  }

  // A tagged name splits at the tag's colon.
  lemma TaggedName(name: string, tag: string)
    requires '/' !in tag && ':' !in tag
    ensures LastIndexOf(name + ":" + tag, ':') == |name|
    ensures LastIndexOf(name + ":" + tag, '/') < |name|
  {
    hide LastIndexOf;
    var s := name + ":" + tag;
    LastIndexIs(s, ':', |name|);
    LastIndexBelow(s, '/', |name|);
  }

  lemma FrontSplits(x: Image)
    requires ImageOk(x)
    ensures SplitAtTag(x.name + TagPart(x)) == (x.name, x.tag)
    ensures '@' !in x.name + TagPart(x)
  {
    match x.tag
    case Some(tag) =>
      TaggedName(x.name, tag);
      hide LastIndexOf;
      AppendAssoc(x.name, ":", tag);
      SliceAround(x.name, ':', tag);
    case None =>
      NameHasNoTag(x.name);
      hide LastIndexOf;
      AppendNil(x.name);
  }

  lemma SliceAround(a: string, c: char, b: string)
    ensures (a + [c] + b)[..|a|] == a && (a + [c] + b)[|a| + 1..] == b
  {
  }

  lemma CutAround(s: string, k: nat)
    requires k < |s|
    ensures s[..k] + ([s[k]] + s[k + 1..]) == s
  {
  }

  /** Splitting the printed form of any image recovers its name and its tag, digest, tag@digest, or the
      default tag latest; a registry port is never taken for a tag. */
  lemma SplitPrinted(x: Image)
    requires ImageOk(x)
    ensures SplitImageReference(PrintImage(x)) == (x.name, RecordedTag(x))
  {
    FrontSplits(x);
    var front := x.name + TagPart(x);
    hide SplitAtTag, TagPart, IndexOf;
    IndexOfIs(PrintImage(x), '@');
    match x.digest
    case Some(digest) =>
      IndexOfAppend(front, '@', digest);
      AppendAssoc(front, "@", digest);
      SliceAround(front, '@', digest);
    case None =>
      AppendNil(front);
  }

  // What a reference holds.
  function ReadImage(ref: string): Image {
    var at := IndexOf(ref, '@');
    var (name, tag) := SplitAtTag(if at >= 0 then ref[..at] else ref);
    Image(name, tag, if at >= 0 then Some(ref[at + 1..]) else None)
  }

  lemma FrontRebuilds(front: string)
    ensures var (name, tag) := SplitAtTag(front);
      name + TagPart(Image(name, tag, None)) == front
  {
    var colon := LastIndexOf(front, ':');
    LastIndexOfIs(front, ':');
    hide LastIndexOf;
    if colon > LastIndexOf(front, '/') {
      CutAround(front, colon);
    } else {
      AppendNil(front);
    }
  }

  /** Conversely every reference is the printed form of an image without loss, and its split parts are
      that image's name and recorded tag, except for the empty reference. */
  lemma SplitRebuilds(ref: string)
    ensures PrintImage(ReadImage(ref)) == ref
    ensures SplitImageReference(ref)
         == if ref == "" then ("", "") else (ReadImage(ref).name, RecordedTag(ReadImage(ref)))
  {
    var at := IndexOf(ref, '@');
    IndexOfIs(ref, '@');
    FrontRebuilds(if at >= 0 then ref[..at] else ref);
    hide SplitAtTag, IndexOf;
    if at >= 0 {
      CutAround(ref, at);
    } else {
      AppendNil(ref);
    }
  }

  // ---- ARG references --------------------------------------------------------------------------------------

  predicate IsNameStart(c: char) { 'A' <= c <= 'Z' || 'a' <= c <= 'z' || c == '_' }
  predicate IsNameChar(c: char) { IsNameStart(c) || '0' <= c <= '9' }

  function NameTail(s: string): nat {
    if s == [] || !IsNameChar(s[0]) then 0 else 1 + NameTail(s[1..])
  }

  // The length of the name that s starts with, or 0.
  function NameLength(s: string): (n: nat)
    ensures n <= |s|
  {
    if s == [] || !IsNameStart(s[0]) then 0 else NameTailBound(s[1..]); 1 + NameTail(s[1..])
  }

  lemma {:induction false} NameTailBound(s: string)
    ensures NameTail(s) <= |s|
    ensures forall i | 0 <= i < NameTail(s) :: IsNameChar(s[i])
    ensures NameTail(s) < |s| ==> !IsNameChar(s[NameTail(s)])
  {
    if s != [] && IsNameChar(s[0]) {
      NameTailBound(s[1..]);
    }
  }

  // A piece of a value: one character that no reference starts at, or a reference and its text.
  datatype Token = Char(c: char) | Ref(name: string, text: string)

  // The match of the reference pattern at the start of s, if there is one.
  function Match(s: string): (m: Option<Token>)
    ensures m.Some? ==> m.value.Ref? && 0 < |m.value.text| <= |s| && s[..|m.value.text|] == m.value.text
  {
    if s == [] || s[0] != '$' then None
    else
      var braced := if |s| > 1 && s[1] == '{' then NameLength(s[2..]) else 0;
      if braced > 0 && braced + 2 < |s| && s[braced + 2] == '}' then
        Some(Ref(s[2..braced + 2], s[..braced + 3]))
      else
        var plain := NameLength(s[1..]);
        if plain > 0 then Some(Ref(s[1..plain + 1], s[..plain + 1])) else None
  }

  function Tokens(s: string): seq<Token>
    decreases |s|
  {
    if s == [] then []
    else match Match(s)
      case Some(t) => [t] + Tokens(s[|t.text|..])
      case None => [Char(s[0])] + Tokens(s[1..])
  }

  function Text(toks: seq<Token>): string {
    if toks == [] then [] else TokenText(toks[0]) + Text(toks[1..])
  }

  function TokenText(t: Token): string {
    match t
    case Char(c) => [c]
    case Ref(_, text) => text
  }

  function Replacement(t: Token, args: map<string, string>): string {
    if t.Ref? && t.name in args then args[t.name] else TokenText(t)
  }

  function Substituted(toks: seq<Token>, args: map<string, string>): string {
    if toks == [] then [] else Replacement(toks[0], args) + Substituted(toks[1..], args)
  }

  predicate Unresolved(toks: seq<Token>, args: map<string, string>) {
    exists i | 0 <= i < |toks| :: toks[i].Ref? && toks[i].name !in args
  }

  // The pattern's matches are replaced from left to right; replacements are not scanned again.
  function ResolveArgReferences(value: string, args: map<string, string>): (string, bool) {
    (Substituted(Tokens(value), args), Unresolved(Tokens(value), args))
  }

  // The pieces make up the value.
  lemma {:induction false} TokensText(s: string)
    ensures Text(Tokens(s)) == s
    decreases |s|
  {
    if s != [] {
      match Match(s)
      case Some(t) => TokensText(s[|t.text|..]);
      case None => TokensText(s[1..]);
    }
  }

  lemma {:induction false} NoDollarTokens(s: string, args: map<string, string>)
    requires '$' !in s
    ensures Substituted(Tokens(s), args) == s
    ensures forall i | 0 <= i < |Tokens(s)| :: Tokens(s)[i].Char?
    decreases |s|
  {
    if s != [] {
      assert s[0] in s;
      NoDollarTokens(s[1..], args);
    }
  }

  // ---- the preamble's ARG defaults -----------------------------------------------------------------------

  datatype ArgDef = ArgDef(name: string, default: string)

  // globalArgs after these ARG instructions.
  function GlobalArgs(defs: seq<ArgDef>): map<string, string> {
    if defs == [] then map[]
    else
      var n := |defs| - 1;
      var args := GlobalArgs(defs[..n]);
      args[defs[n].name := TrimMatchingQuotes(ResolveArgReferences(defs[n].default, args).0)]
  }

  // The latest of the first n definitions that defines the name.
  function Definition(defs: seq<ArgDef>, n: nat, name: string): (j: Option<nat>)
    requires n <= |defs|
    ensures j.Some? ==> j.value < n && defs[j.value].name == name
    ensures j.None? ==> forall i | 0 <= i < n :: defs[i].name != name
  {
    if n == 0 then None
    else if defs[n - 1].name == name then Some(n - 1)
    else Definition(defs, n - 1, name)
  }

  // The full expansion of definition i: references stand for the full expansions of the definitions
  // they see, and quotes are trimmed at each level.
  function Expansion(defs: seq<ArgDef>, i: nat): string
    requires i < |defs|
    decreases i, |Tokens(defs[i].default)| + 1
  {
    TrimMatchingQuotes(Expand(defs, i, Tokens(defs[i].default)))
  }

  function Expand(defs: seq<ArgDef>, i: nat, toks: seq<Token>): string
    requires i <= |defs|
    decreases i, |toks|
  {
    if toks == [] then []
    else
      (match toks[0]
       case Char(c) => [c]
       case Ref(name, text) =>
         match Definition(defs, i, name)
         case Some(j) => Expansion(defs, j)
         case None => text)
      + Expand(defs, i, toks[1..])
  }

  predicate ClosedToken(defs: seq<ArgDef>, n: nat, t: Token)
    requires n <= |defs|
  {
    match t
    case Char(c) => c != '$'
    case Ref(name, _) => Definition(defs, n, name).Some?
  }

  // Every dollar sign of the value belongs to a reference to one of the first n definitions.
  predicate Closed(defs: seq<ArgDef>, n: nat, value: string)
    requires n <= |defs|
  {
    forall i | 0 <= i < |Tokens(value)| :: ClosedToken(defs, n, Tokens(value)[i])
  }

  predicate ClosedPreamble(defs: seq<ArgDef>) {
    forall i | 0 <= i < |defs| :: Closed(defs, i, defs[i].default)
  }

  lemma {:induction false} DefinitionPrefix(defs: seq<ArgDef>, m: nat, n: nat, name: string)
    requires n <= m <= |defs|
    ensures Definition(defs[..m], n, name) == Definition(defs, n, name)
    decreases n
  {
    if n > 0 {
      DefinitionPrefix(defs, m, n - 1, name);
    }
  }

  // Expansion looks only at earlier definitions.
  lemma {:induction false} ExpansionPrefix(defs: seq<ArgDef>, m: nat, i: nat)
    requires i < m <= |defs|
    ensures Expansion(defs[..m], i) == Expansion(defs, i)
    decreases i, |Tokens(defs[i].default)| + 1
  {
    ExpandPrefix(defs, m, i, Tokens(defs[i].default));
  }

  lemma {:induction false} ExpandPrefix(defs: seq<ArgDef>, m: nat, i: nat, toks: seq<Token>)
    requires i <= m <= |defs|
    ensures Expand(defs[..m], i, toks) == Expand(defs, i, toks)
    decreases i, |toks|
  {
    if toks != [] {
      ExpandPrefix(defs, m, i, toks[1..]);
      if toks[0].Ref? {
        DefinitionPrefix(defs, m, i, toks[0].name);
        var j := Definition(defs, i, toks[0].name);
        if j.Some? {
          ExpansionPrefix(defs, m, j.value);
        }
      }
    }
  }

  /** globalArgs holds for each name the full expansion of its latest definition, whatever the preamble:
      one substitution pass for each ARG does the whole recursive expansion. */
  lemma {:induction false} StoredIsExpansion(defs: seq<ArgDef>, name: string)
    ensures name in GlobalArgs(defs) <==> Definition(defs, |defs|, name).Some?
    ensures name in GlobalArgs(defs) ==>
      GlobalArgs(defs)[name] == Expansion(defs, Definition(defs, |defs|, name).value)
    decreases |defs|, 0
  {
    if defs != [] {
      var n := |defs| - 1;
      var init := defs[..n];
      if defs[n].name == name {
        SubstitutedIsExpand(init, Tokens(defs[n].default));
        ExpandPrefix(defs, n, n, Tokens(defs[n].default));
      } else {
        StoredIsExpansion(init, name);
        DefinitionPrefix(defs, n, n, name);
        if name in GlobalArgs(init) {
          ExpansionPrefix(defs, n, Definition(init, n, name).value);
        }
      }
    }
  }

  lemma {:induction false} SubstitutedIsExpand(defs: seq<ArgDef>, toks: seq<Token>)
    ensures Substituted(toks, GlobalArgs(defs)) == Expand(defs, |defs|, toks)
    decreases |defs|, |toks|
  {
    if toks != [] {
      SubstitutedIsExpand(defs, toks[1..]);
      if toks[0].Ref? {
        StoredIsExpansion(defs, toks[0].name);
      }
    }
  }

  lemma TrimMatchingQuotesKeeps(s: string, c: char)
    requires c !in s
    ensures c !in TrimMatchingQuotes(s)
  {
  }

  lemma {:induction false} ExpansionHasNoDollar(defs: seq<ArgDef>, i: nat)
    requires ClosedPreamble(defs) && i < |defs|
    ensures '$' !in Expansion(defs, i)
    decreases i, |Tokens(defs[i].default)| + 1
  {
    ExpandHasNoDollar(defs, i, Tokens(defs[i].default));
    TrimMatchingQuotesKeeps(Expand(defs, i, Tokens(defs[i].default)), '$');
  }

  lemma {:induction false} ExpandHasNoDollar(defs: seq<ArgDef>, i: nat, toks: seq<Token>)
    requires ClosedPreamble(defs) && i <= |defs|
    requires forall k | 0 <= k < |toks| :: ClosedToken(defs, i, toks[k])
    ensures '$' !in Expand(defs, i, toks)
    decreases i, |toks|
  {
    if toks != [] {
      assert ClosedToken(defs, i, toks[0]);
      ExpandHasNoDollar(defs, i, toks[1..]);
      if toks[0].Ref? {
        ExpansionHasNoDollar(defs, Definition(defs, i, toks[0].name).value);
      }
    }
  }

  /** ARG expansion: when every dollar sign in the preamble's defaults and in the FROM reference belongs
      to a reference to an earlier ARG with a default, the stored values hold no dollar sign, nothing is
      unresolved, and the one substitution pass on the reference is its full expansion, a fixed point
      of further substitution. */
  lemma PreambleResolves(defs: seq<ArgDef>, ref: string, others: map<string, string>)
    requires ClosedPreamble(defs) && Closed(defs, |defs|, ref)
    ensures forall name | name in GlobalArgs(defs) :: '$' !in GlobalArgs(defs)[name]
    ensures var (resolved, unresolved) := ResolveArgReferences(ref, GlobalArgs(defs));
      && !unresolved && resolved == Expand(defs, |defs|, Tokens(ref))
      && ResolveArgReferences(resolved, others) == (resolved, false)
  {
    var args := GlobalArgs(defs);
    forall name | name in args ensures '$' !in args[name] {
      StoredIsExpansion(defs, name);
      ExpansionHasNoDollar(defs, Definition(defs, |defs|, name).value);
    }
    forall i | 0 <= i < |Tokens(ref)| && Tokens(ref)[i].Ref? ensures Tokens(ref)[i].name in args {
      assert ClosedToken(defs, |defs|, Tokens(ref)[i]);
      StoredIsExpansion(defs, Tokens(ref)[i].name);
    }
    SubstitutedIsExpand(defs, Tokens(ref));
    ExpandHasNoDollar(defs, |defs|, Tokens(ref));
    NoDollarTokens(Expand(defs, |defs|, Tokens(ref)), others);
  }

  /** A reference is reported as unresolved exactly when it names an ARG that no definition of the
      preamble gives a default. */
  lemma UnresolvedExactly(defs: seq<ArgDef>, ref: string)
    ensures ResolveArgReferences(ref, GlobalArgs(defs)).1
      <==> exists i | 0 <= i < |Tokens(ref)| ::
             Tokens(ref)[i].Ref? && Definition(defs, |defs|, Tokens(ref)[i].name).None?
  {
    var toks := Tokens(ref);
    UnresolvedTokens(defs, toks);
    assert ResolveArgReferences(ref, GlobalArgs(defs)).1 == Unresolved(toks, GlobalArgs(defs));
    hide Unresolved;
  }

  lemma UnresolvedTokens(defs: seq<ArgDef>, toks: seq<Token>)
    ensures Unresolved(toks, GlobalArgs(defs))
      <==> exists i | 0 <= i < |toks| :: toks[i].Ref? && Definition(defs, |defs|, toks[i].name).None?
  {
    hide GlobalArgs, Definition, Expansion;
    forall name ensures name in GlobalArgs(defs) <==> Definition(defs, |defs|, name).Some? {
      StoredIsExpansion(defs, name);
    }
  }

  // ---- reading printed references back ---------------------------------------------------------------------

  predicate IsName(s: string) {
    s != "" && IsNameStart(s[0]) && All(s, IsNameChar)
  }

  // A reference in braces, or without when no name character follows it.
  predicate WrittenRef(t: Token, rest: string) {
    t.Ref? && IsName(t.name)
    && (t.text == "${" + t.name + "}"
        || (t.text == "$" + t.name && (rest == "" || !IsNameChar(rest[0]))))
  }

  predicate Written(toks: seq<Token>) {
    forall i | 0 <= i < |toks| ::
      match toks[i]
      case Char(c) => c != '$'
      case Ref(_, _) => WrittenRef(toks[i], Text(toks[i + 1..]))
  }

  lemma {:induction false} NameTailOf(s: string, rest: string)
    requires All(s, IsNameChar) && (rest == "" || !IsNameChar(rest[0]))
    ensures NameTail(s + rest) == |s|
  {
    if s == "" {
      assert s + rest == rest;
    } else {
      assert (s + rest)[1..] == s[1..] + rest;
      NameTailOf(s[1..], rest);
    }
  }

  lemma NameLengthOf(name: string, rest: string)
    requires IsName(name) && (rest == "" || !IsNameChar(rest[0]))
    ensures NameLength(name + rest) == |name|
  {
    assert (name + rest)[1..] == name[1..] + rest;
    NameTailOf(name[1..], rest);
  }

  lemma MatchWritten(t: Token, rest: string)
    requires WrittenRef(t, rest)
    ensures Match(t.text + rest) == Some(t)
  {
    var s := t.text + rest;
    if t.text == "${" + t.name + "}" {
      assert s[2..] == t.name + ("}" + rest);
      NameLengthOf(t.name, "}" + rest);
      assert s[|t.name| + 2] == '}';
      assert s[2..|t.name| + 2] == t.name && s[..|t.name| + 3] == t.text;
    } else {
      assert s[1..] == t.name + rest;
      assert s[1] == t.name[0];
      NameLengthOf(t.name, rest);
      assert s[1..|t.name| + 1] == t.name && s[..|t.name| + 1] == t.text;
    }
  }

  // The text of the first token is read as that token.
  lemma TokensCons(t: Token, rest: string)
    requires if t.Ref? then WrittenRef(t, rest) else t.c != '$'
    ensures Tokens(TokenText(t) + rest) == [t] + Tokens(rest)
  {
    var s := TokenText(t) + rest;
    assert s[|TokenText(t)|..] == rest;
    if t.Ref? {
      hide NameLength;
      MatchWritten(t, rest);
    } else {
      assert s[0] == t.c;
    }
  }

  lemma WrittenTail(toks: seq<Token>)
    requires toks != [] && Written(toks)
    ensures Written(toks[1..])
  {
    var rest := toks[1..];
    forall i | 0 <= i < |rest|
      ensures match rest[i] case Char(c) => c != '$' case Ref(_, _) => WrittenRef(rest[i], Text(rest[i + 1..]))
    {
      assert rest[i] == toks[i + 1] && rest[i + 1..] == toks[i + 2..];
    }
  }

  /** The pattern finds exactly the references that were written: reading the text of any sequence of
      characters and references gives that sequence back. */
  lemma {:induction false} TokensOfText(toks: seq<Token>)
    requires Written(toks)
    ensures Tokens(Text(toks)) == toks
    decreases |toks|
  {
    if toks != [] {
      WrittenTail(toks);
      assert toks[0].Ref? ==> WrittenRef(toks[0], Text(toks[1..]));
      TokensOfText(toks[1..]);
      hide Tokens, WrittenRef;
      TokensCons(toks[0], Text(toks[1..]));
    }
  }

  // ---- what is a reference ------------------------------------------------------------------------------------

  predicate IsLetter(c: char) { 'a' <= c <= 'z' || 'A' <= c <= 'Z' || c == '_' }

  // s starts with a dollar sign and a name.
  predicate StartsPlain(s: string) { |s| >= 2 && s[0] == '$' && IsLetter(s[1]) }

  // s starts with a name of n characters, and no longer one.
  predicate StartsName(s: string, n: nat) {
    && 1 <= n <= |s| && IsLetter(s[0])
    && (forall i | 1 <= i < n :: IsLetter(s[i]) || '0' <= s[i] <= '9')
    && (n < |s| ==> !(IsLetter(s[n]) || '0' <= s[n] <= '9'))
  }

  // s starts with a name of n characters in braces after a dollar sign.
  predicate StartsBraced(s: string, n: nat) {
    |s| >= n + 3 && s[0] == '$' && s[1] == '{' && StartsName(s[2..], n) && s[n + 2] == '}'
  }

  lemma NameLengthIs(s: string)
    ensures var n := NameLength(s); if n == 0 then s == "" || !IsLetter(s[0]) else StartsName(s, n)
  {
    if s != [] && IsNameStart(s[0]) {
      NameTailBound(s[1..]);
      assert forall i | 1 <= i < NameLength(s) :: s[i] == s[1..][i - 1];
    }
  }

  lemma NameIsUnique(s: string, m: nat, n: nat)
    requires StartsName(s, m) && StartsName(s, n)
    ensures m == n
  {
  }

  /** A reference starts exactly at a dollar sign with a name behind it, as long as it goes, or with a name in
      closed braces; every other dollar sign is text. */
  lemma ReferenceExactly(s: string)
    ensures Match(s).Some? <==> StartsPlain(s) || exists n: nat :: StartsBraced(s, n)
    ensures forall n: nat :: StartsBraced(s, n) ==> Match(s) == Some(Ref(s[2..n + 2], s[..n + 3]))
    ensures StartsPlain(s) ==>
      exists n: nat :: StartsName(s[1..], n) && Match(s) == Some(Ref(s[1..n + 1], s[..n + 1]))
  {
    hide NameLength;
    if |s| >= 2 && s[0] == '$' {
      NameLengthIs(s[1..]);
      NameLengthIs(s[2..]);
      forall n: nat | StartsBraced(s, n) ensures NameLength(s[2..]) == n {
        NameIsUnique(s[2..], NameLength(s[2..]), n);
      }
      var n := NameLength(s[2..]);
      if s[1] == '{' && n > 0 && n + 2 < |s| && s[n + 2] == '}' {
        assert StartsBraced(s, n);
      }
    }
  }
}
