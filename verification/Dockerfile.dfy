/** Stages of a Dockerfile: `ParseDockerfile`, `parseFromInstruction`, `parseArgInstruction`
    (internal/parser/dockerfileparser.go). */
module Dockerfile {
  import opened Strings
  import opened DockerInstructions
  import opened DockerReferences

  datatype StageMeta = StageMeta(stageIndex: nat, baseImage: string, baseTag: string)

  // The features that the FROM instructions decide.
  datatype Features = Features(baseImage: string, baseTag: string, usesLatestTag: bool, usesMultistage: bool)

  datatype FromInstruction = FromInstruction(
    alias: string, baseImage: string, baseTag: string, isAlias: bool, unresolved: bool, parseable: bool)

  const NO_FROM := FromInstruction("", "", "", false, false, false)

  predicate IsFlag(field: string) { HasPrefix(field, "--") }

  // The index of the first field that is not a flag.
  function SkipFlags(fields: seq<string>, i: nat): (k: nat)
    requires i <= |fields|
    ensures i <= k <= |fields|
    ensures forall j | i <= j < k :: IsFlag(fields[j])
    ensures k < |fields| ==> !IsFlag(fields[k])
    decreases |fields| - i
  {
    if i < |fields| && IsFlag(fields[i]) then SkipFlags(fields, i + 1) else i
  }

  // The image reference that a FROM value names, after substitution, and whether it is unresolved.
  function ResolvedReference(field: string, args: map<string, string>): (string, bool) {
    var (resolved, unresolved) := ResolveArgReferences(field, args);
    (TrimMatchingQuotes(resolved), unresolved)
  }

  function StageAlias(fields: seq<string>, i: nat): string {
    if i + 1 < |fields| && ToLower(fields[i]) == "as" then fields[i + 1] else ""
  }

  function FromSpec(value: string, aliases: set<string>, args: map<string, string>): FromInstruction {
    var fields := Fields(value);
    var i := SkipFlags(fields, 0);
    if i == |fields| then NO_FROM
    else
      var (ref, unresolved) := ResolvedReference(fields[i], args);
      var alias := StageAlias(fields, i + 1);
      if ToLower(ref) in aliases then NO_FROM.(alias := alias, isAlias := true)
      else if unresolved then NO_FROM.(alias := alias, baseImage := ref, unresolved := true)
      else
        var (image, tag) := SplitImageReference(ref);
        FromInstruction(alias, image, tag, false, false, true)
  }

  method ParseFromInstruction(value: string, knownAliases: set<string>, globalArgs: map<string, string>)
    returns (from: FromInstruction)
    ensures from == FromSpec(value, knownAliases, globalArgs)
  {
    var fields := Fields(value);
    if |fields| == 0 {
      return NO_FROM;
    }
    var i := 0;
    while i < |fields| && HasPrefix(fields[i], "--")
      invariant i <= |fields| && SkipFlags(fields, i) == SkipFlags(fields, 0)
    {
      i := i + 1;
    }
    if i >= |fields| {
      return NO_FROM;
    }
    var imageRef := fields[i];
    i := i + 1;
    var (resolvedRef, unresolved) := ResolveArgReferences(imageRef, globalArgs);
    resolvedRef := TrimMatchingQuotes(resolvedRef);
    var alias := "";
    if i + 1 < |fields| && ToLower(fields[i]) == "as" {
      alias := fields[i + 1];
    }
    if ToLower(resolvedRef) in knownAliases {
      return NO_FROM.(alias := alias, isAlias := true);
    }
    if unresolved {
      return NO_FROM.(alias := alias, baseImage := resolvedRef, unresolved := true);
    }
    var (baseImage, baseTag) := SplitImageReference(resolvedRef);
    return FromInstruction(alias, baseImage, baseTag, false, false, true);
  }

  // Name, default, and whether there is a default.
  function ParseArgInstruction(value: string): (string, string, bool) {
    if Fields(value) == [] then ("", "", false)
    else
      var assignment := Fields(value)[0];
      var eq := IndexOf(assignment, '=');
      if eq >= 0 then (assignment[..eq], assignment[eq + 1..], true) else (assignment, "", false)
  }

  // ---- what the instructions before a point define -------------------------------------------------------

  datatype Scope = Scope(seenFrom: bool, args: map<string, string>, aliases: set<string>)

  function Enter(scope: Scope, x: Instruction): Scope {
    if x.keyword == "arg" && !scope.seenFrom then
      var (name, default, hasDefault) := ParseArgInstruction(x.value);
      if name == "" || !hasDefault then scope
      else scope.(args := scope.args[name := TrimMatchingQuotes(ResolveArgReferences(default, scope.args).0)])
    else if x.keyword == "from" then
      var alias := FromSpec(x.value, scope.aliases, scope.args).alias;
      scope.(seenFrom := true, aliases := scope.aliases + if alias == "" then {} else {ToLower(alias)})
    else scope
  }

  // The scope after the first n instructions.
  function ScopeAt(xs: seq<Instruction>, n: nat): Scope
    requires n <= |xs|
  {
    if n == 0 then Scope(false, map[], {}) else Enter(ScopeAt(xs, n - 1), xs[n - 1])
  }

  datatype Kind = NotFrom | AliasDerived | EmptyFrom | ExternalStage(image: string, tag: string)

  // What the instruction at position k is.
  function KindAt(xs: seq<Instruction>, k: nat): Kind
    requires k < |xs|
  {
    if xs[k].keyword != "from" then NotFrom
    else
      var scope := ScopeAt(xs, k);
      var p := FromSpec(xs[k].value, scope.aliases, scope.args);
      if p.isAlias then AliasDerived
      else if p.baseImage == "" then EmptyFrom
      else ExternalStage(p.baseImage, p.baseTag)
  }

  // The positions of the external stages.
  function StagePositions(xs: seq<Instruction>, n: nat): seq<nat>
    requires n <= |xs|
  {
    if n == 0 then []
    else StagePositions(xs, n - 1) + if KindAt(xs, n - 1).ExternalStage? then [n - 1] else []
  }

  function Stages(xs: seq<Instruction>, n: nat): seq<StageMeta>
    requires n <= |xs|
  {
    if n == 0 then []
    else
      var before := Stages(xs, n - 1);
      match KindAt(xs, n - 1)
      case ExternalStage(image, tag) => before + [StageMeta(|before|, image, tag)]
      case _ => before
  }

  predicate HasLatest(stages: seq<StageMeta>) {
    exists i | 0 <= i < |stages| :: stages[i].baseTag == "latest"
  }

  // The features of these stages, before usesMultistage is decided.
  ghost predicate Summarises(f: Features, stages: seq<StageMeta>) {
    && (stages == [] ==> f.baseImage == "" && f.baseTag == "")
    && (stages != [] ==> f.baseImage == stages[0].baseImage != "" && f.baseTag == stages[0].baseTag)
    && (f.usesLatestTag <==> HasLatest(stages))
  }

  function AddStage(f: Features, latest: bool, image: string, tag: string): Features {
    var f1 := if latest then f.(usesLatestTag := true) else f;
    if f1.baseImage == "" then f1.(baseImage := image, baseTag := tag) else f1
  }

  lemma SummaryStep(f: Features, stages: seq<StageMeta>, m: StageMeta)
    requires Summarises(f, stages) && m.baseImage != ""
    ensures Summarises(AddStage(f, m.baseTag == "latest", m.baseImage, m.baseTag), stages + [m])
  {
    assert HasLatest(stages + [m]) <==> HasLatest(stages) || m.baseTag == "latest" by {
      var all := stages + [m];
      assert all[|stages|] == m;
      if HasLatest(stages) {
        var i :| 0 <= i < |stages| && stages[i].baseTag == "latest";
        assert all[i].baseTag == "latest";
      }
    }
    hide HasLatest;
  }

  // Only a parseable reference can have the tag latest.
  lemma LatestIsParseable(value: string, aliases: set<string>, args: map<string, string>)
    ensures FromSpec(value, aliases, args).baseTag == "latest" ==> FromSpec(value, aliases, args).parseable
  {
  }

  lemma ScopeStep(xs: seq<Instruction>, k: nat)
    requires k < |xs|
    ensures ScopeAt(xs, k + 1) == Enter(ScopeAt(xs, k), xs[k])
  {
  }

  lemma KindIs(xs: seq<Instruction>, k: nat)
    requires k < |xs|
    ensures xs[k].keyword != "from" ==> KindAt(xs, k) == NotFrom
    ensures xs[k].keyword == "from" ==>
      var p := FromSpec(xs[k].value, ScopeAt(xs, k).aliases, ScopeAt(xs, k).args);
      KindAt(xs, k) == if p.isAlias then AliasDerived
                       else if p.baseImage == "" then EmptyFrom
                       else ExternalStage(p.baseImage, p.baseTag)
  {
  }

  method ParseDockerfile(content: string) returns (features: Features, stages: seq<StageMeta>)
    ensures stages == Stages(Instructions(content), |Instructions(content)|)
    ensures features.baseImage == (if stages == [] then "" else stages[0].baseImage)
    ensures features.baseTag == (if stages == [] then "" else stages[0].baseTag)
    ensures features.usesLatestTag <==> exists i | 0 <= i < |stages| :: stages[i].baseTag == "latest"
    ensures features.usesMultistage <==> |stages| > 1
  {
    hide FromSpec, ParseArgInstruction, ResolveArgReferences, TrimMatchingQuotes, ScopeAt, Summarises, KindAt,
         ToLower, HasLatest, Instructions;
    features, stages := Features("", "", false, false), [];
    ParseStart(features);
    var globalArgs: map<string, string> := map[];
    var knownAliases: set<string> := {};
    var stageIndex: nat := 0;
    var seenFrom := false;
    var xs := ParseDockerInstructions(content);
    var k := 0;
    while k < |xs|
      invariant k <= |xs|
      invariant Scope(seenFrom, globalArgs, knownAliases) == ScopeAt(xs, k)
      invariant stages == Stages(xs, k) && stageIndex == |stages|
      invariant Summarises(features, stages)
    {
      var x := xs[k];
      ScopeStep(xs, k);
      KindIs(xs, k);
      k := k + 1;
      if x.keyword == "arg" {
        if seenFrom {
          continue;
        }
        var (name, defaultValue, hasDefault) := ParseArgInstruction(x.value);
        if name == "" || !hasDefault {
          continue;
        }
        var (resolvedValue, _) := ResolveArgReferences(defaultValue, globalArgs);
        resolvedValue := TrimMatchingQuotes(resolvedValue);
        globalArgs := globalArgs[name := resolvedValue];
      } else if x.keyword == "from" {
        seenFrom := true;
        var parsed := ParseFromInstruction(x.value, knownAliases, globalArgs);
        LatestIsParseable(x.value, knownAliases, globalArgs);
        if parsed.alias != "" {
          knownAliases := knownAliases + {ToLower(parsed.alias)};
        }
        if parsed.isAlias || parsed.baseImage == "" {
          continue;
        }
        SummaryStep(features, stages, StageMeta(stageIndex, parsed.baseImage, parsed.baseTag));
        if parsed.parseable && parsed.baseTag == "latest" {
          features := features.(usesLatestTag := true);
        }
        if features.baseImage == "" {
          features := features.(baseImage := parsed.baseImage, baseTag := parsed.baseTag);
        }
        stages := stages + [StageMeta(stageIndex, parsed.baseImage, parsed.baseTag)];
        stageIndex := stageIndex + 1;
      }
    }
    SummaryMeans(features, stages);
    features := features.(usesMultistage := |stages| > 1);
  }

  lemma ParseStart(f: Features)
    requires f == Features("", "", false, false)
    ensures Summarises(f, []) && forall xs: seq<Instruction> :: ScopeAt(xs, 0) == Scope(false, map[], {})
  {
  }

  lemma SummaryMeans(f: Features, stages: seq<StageMeta>)
    requires Summarises(f, stages)
    ensures f.baseImage == (if stages == [] then "" else stages[0].baseImage)
    ensures f.baseTag == (if stages == [] then "" else stages[0].baseTag)
    ensures f.usesLatestTag <==> exists i | 0 <= i < |stages| :: stages[i].baseTag == "latest"
  {
  }

  // ---- the stage ledger --------------------------------------------------------------------------------------

  // How many of the first n instructions satisfy p.
  function CountKind(xs: seq<Instruction>, n: nat, p: Kind -> bool): nat
    requires n <= |xs|
  {
    if n == 0 then 0 else CountKind(xs, n - 1, p) + if p(KindAt(xs, n - 1)) then 1 else 0
  }

  predicate IsFrom(kind: Kind) { !kind.NotFrom? }
  predicate IsAliasDerived(kind: Kind) { kind.AliasDerived? }
  predicate IsEmptyFrom(kind: Kind) { kind.EmptyFrom? }

  // Every FROM among the first n instructions is a stage, derived from an alias, or empty.
  ghost predicate Counted(xs: seq<Instruction>, n: nat)
    requires n <= |xs|
  {
    CountKind(xs, n, IsFrom)
      == |Stages(xs, n)| + CountKind(xs, n, IsAliasDerived) + CountKind(xs, n, IsEmptyFrom)
  }

  // The stages are exactly the external ones among the first n instructions, in order, numbered from 0.
  ghost predicate Ordered(xs: seq<Instruction>, n: nat)
    requires n <= |xs|
  {
    var stages, at := Stages(xs, n), StagePositions(xs, n);
    && |at| == |stages|
    && (forall i | 0 <= i < |stages| ::
          at[i] < n && stages[i].stageIndex == i
          && KindAt(xs, at[i]) == ExternalStage(stages[i].baseImage, stages[i].baseTag))
    && (forall i, j | 0 <= i < j < |at| :: at[i] < at[j])
    && (forall k | 0 <= k < n && KindAt(xs, k).ExternalStage? :: k in at)
  }

  lemma LedgerStart(xs: seq<Instruction>)
    ensures Counted(xs, 0) && Ordered(xs, 0)
  {
  }

  lemma CountStep(xs: seq<Instruction>, n: nat)
    requires n < |xs| && Counted(xs, n)
    ensures Counted(xs, n + 1)
  {
    hide KindAt;
  }

  lemma OrderStep(xs: seq<Instruction>, n: nat)
    requires n < |xs| && Ordered(xs, n)
    ensures Ordered(xs, n + 1)
  {
    hide KindAt;
  }

  /** After any number of instructions: every FROM is an external stage, derived from an earlier alias, or
      empty; and the stages are exactly the external ones, in order, numbered from 0. */
  lemma {:induction false} StageLedger(xs: seq<Instruction>, n: nat)
    requires n <= |xs|
    ensures Counted(xs, n) && Ordered(xs, n)
    decreases n
  {
    hide Counted, Ordered;
    if n == 0 {
      LedgerStart(xs);
    } else {
      StageLedger(xs, n - 1);
      CountStep(xs, n - 1);
      OrderStep(xs, n - 1);
    }
  }

  // The alias that the FROM instruction at position k declares, or "".
  function DeclaredAlias(xs: seq<Instruction>, k: nat): string
    requires k < |xs|
  {
    if xs[k].keyword != "from" then ""
    else
      var fields := Fields(xs[k].value);
      var i := SkipFlags(fields, 0);
      if i == |fields| then "" else StageAlias(fields, i + 1)
  }

  lemma AliasIsDeclared(xs: seq<Instruction>, k: nat, aliases: set<string>, args: map<string, string>)
    requires k < |xs| && xs[k].keyword == "from"
    ensures FromSpec(xs[k].value, aliases, args).alias == DeclaredAlias(xs, k)
  {
  }

  /** The alias of a FROM is the second field after its reference, if the first one is AS in any capitalisation;
      there is none otherwise. */
  lemma AliasExactly(xs: seq<Instruction>, k: nat)
    requires k < |xs| && xs[k].keyword == "from"
    ensures var fields := Fields(xs[k].value); var i := SkipFlags(fields, 0);
      DeclaredAlias(xs, k) == if i + 2 < |fields| && ToLower(fields[i + 1]) == "as" then fields[i + 2] else ""
  {
    hide Fields, SkipFlags;
  }

  predicate Declares(xs: seq<Instruction>, j: nat, name: string)
    requires j < |xs|
  {
    DeclaredAlias(xs, j) != "" && ToLower(DeclaredAlias(xs, j)) == name
  }

  lemma AliasStep(xs: seq<Instruction>, k: nat, scope: Scope, name: string)
    requires k < |xs|
    ensures name in Enter(scope, xs[k]).aliases <==> name in scope.aliases || Declares(xs, k, name)
  {
    if xs[k].keyword == "from" {
      AliasIsDeclared(xs, k, scope.aliases, scope.args);
    } else {
      assert DeclaredAlias(xs, k) == "";
    }
    hide FromSpec, DeclaredAlias, ParseArgInstruction, ResolveArgReferences;
  }

  lemma {:induction false} KnownAliases(xs: seq<Instruction>, n: nat, name: string)
    requires n <= |xs|
    ensures name in ScopeAt(xs, n).aliases <==> exists j | 0 <= j < n :: Declares(xs, j, name)
  {
    hide Enter, Declares, Fields, FromSpec;
    if n > 0 {
      hide ScopeAt;
      ScopeStep(xs, n - 1);
      AliasStep(xs, n - 1, ScopeAt(xs, n - 1), name);
      KnownAliases(xs, n - 1, name);
      assert name in ScopeAt(xs, n).aliases <==> exists j | 0 <= j < n :: Declares(xs, j, name);
    }
  }

  /** No external stage's resolved reference names, in any capitalisation, an alias that an earlier FROM
      declares; and a FROM whose reference does is no external stage. */
  lemma StagesAreNotAliases(xs: seq<Instruction>, k: nat)
    requires k < |xs| && xs[k].keyword == "from"
    requires SkipFlags(Fields(xs[k].value), 0) < |Fields(xs[k].value)|
    ensures var fields := Fields(xs[k].value);
      var (ref, _) := ResolvedReference(fields[SkipFlags(fields, 0)], ScopeAt(xs, k).args);
      KindAt(xs, k).AliasDerived?
      == exists j | 0 <= j < k :: Declares(xs, j, ToLower(ref))
  {
    var fields := Fields(xs[k].value);
    var (ref, _) := ResolvedReference(fields[SkipFlags(fields, 0)], ScopeAt(xs, k).args);
    KnownAliases(xs, k, ToLower(ref));
  }

  // ---- from the preamble to the stage ------------------------------------------------------------------------

  // No white space, so the string is one field.
  predicate OneField(s: string) {
    s != "" && All(s, c => !IsSpace(c))
  }

  lemma FieldsOfOne(s: string)
    requires OneField(s)
    ensures Fields(s) == [s]
  {
    assert !IsSpace(s[0]);
    WordOf(s, "");
    AppendNil(s);
    assert s[|s|..] == "";
    assert Fields("") == [];
  }

  lemma FieldsSkipSpace(s: string)
    ensures Fields(" " + s) == Fields(s)
  {
    assert (" " + s)[1..] == s;
  }

  lemma FieldsCons(w: string, rest: string)
    requires OneField(w)
    ensures Fields(w + (" " + rest)) == [w] + Fields(rest)
  {
    var s := w + (" " + rest);
    assert s[0] == w[0] && !IsSpace(w[0]);
    assert TrimLeft(s, IsSpace) == s;
    WordOf(w, " " + rest);
    assert s[|w|..] == " " + rest;
    FieldsSkipSpace(rest);
  }

  lemma {:induction false} FieldsOfWords(words: seq<string>)
    requires forall i | 0 <= i < |words| :: OneField(words[i])
    ensures Fields(Join(words, " ")) == words
    decreases |words|
  {
    hide Fields, OneField;
    if words == [] {
      assert Fields("") == [] by { NoFields(); }
    } else if |words| == 1 {
      FieldsOfOne(words[0]);
    } else {
      FieldsOfWords(words[1..]);
      AppendAssoc(words[0], " ", Join(words[1..], " "));
      FieldsCons(words[0], Join(words[1..], " "));
    }
  }

  lemma NoFields()
    ensures Fields("") == []
  {
  }

  // The words of a FROM instruction; without an alias the last two are left out.
  function FromWords(flags: seq<string>, ref: string, asWord: string, alias: string): seq<string> {
    flags + [ref] + if alias == "" then [] else [asWord, alias]
  }

  // A reference without ARG references and quotes.
  predicate PlainReference(ref: string) {
    OneField(ref) && !("--" <= ref) && '$' !in ref && ref[0] != '"' && ref[0] != '\''
  }

  /** Parsing a printed FROM recovers its alias and, unless the reference names an alias, the image's name and
      recorded tag, whatever flags stand before it. */
  lemma FromPrinted(flags: seq<string>, x: Image, asWord: string, alias: string,
                    aliases: set<string>, args: map<string, string>)
    requires forall i | 0 <= i < |flags| :: OneField(flags[i]) && "--" <= flags[i]
    requires ImageOk(x) && PlainReference(PrintImage(x))
    requires alias != "" ==> OneField(alias) && OneField(asWord) && ToLower(asWord) == "as"
    ensures FromSpec(Join(FromWords(flags, PrintImage(x), asWord, alias), " "), aliases, args)
         == if ToLower(PrintImage(x)) in aliases then NO_FROM.(alias := alias, isAlias := true)
            else FromInstruction(alias, x.name, RecordedTag(x), false, false, true)
  {
    hide Fields, Join, ImageOk, RecordedTag, SplitImageReference, Tokens, Substituted;
    var ref := PrintImage(x);
    var words := FromWords(flags, ref, asWord, alias);
    hide PrintImage;
    FieldsOfWords(words);
    assert words[|flags|] == ref && forall i | 0 <= i < |flags| :: words[i] == flags[i];
    assert SkipFlags(words, 0) == |flags|;
    NoDollarTokens(ref, args);
    SplitPrinted(x);
  }

  lemma WordRest(s: string) returns (rest: string)
    ensures s == Word(s) + rest && (rest == "" || IsSpace(rest[0]))
    ensures All(Word(s), c => !IsSpace(c))
  {
    WordPrefix(s);
    rest := s[|Word(s)|..];
  }

  /** Parsing a printed ARG recovers its name and the default up to the first white space: all of it if and
      only if it holds none, quoted or not. */
  lemma ParseArgPrinted(name: string, default: string)
    requires OneField(name) && '=' !in name
    ensures ParseArgInstruction(name + "=" + default) == (name, Word(default), true)
    ensures Word(default) == default <==> All(default, c => !IsSpace(c))
  {
    hide Word, Fields;
    var word := Word(default);
    var rest := WordRest(default);
    var assignment := name + "=" + word;
    assert name + "=" + default == assignment + rest;
    FirstField(assignment, rest);
    hide IndexOf;
    IndexOfAppend(name, '=', word);
    SliceAround(name, '=', word);
    if rest != "" {
      assert default[|word|] == rest[0];
    }
  }

  /** An ARG without `=` in its first word has that word as its name and no default; an empty one has neither. */
  lemma ParseArgBare(name: string, rest: string)
    requires OneField(name) && '=' !in name && (rest == "" || IsSpace(rest[0]))
    ensures ParseArgInstruction(name + rest) == (name, "", false)
    ensures ParseArgInstruction("") == ("", "", false)
  {
    FirstField(name, rest);
    IndexOfIs(name, '=');
    NoFields();
    hide Fields, IndexOf;
  }

  // A FROM is among the first n instructions.
  predicate HasFrom(xs: seq<Instruction>, n: nat)
    requires n <= |xs|
  {
    exists i | 0 <= i < n :: xs[i].keyword == "from"
  }

  // The definition that the instruction makes, if any: an ARG with a name and a default.
  function Defined(x: Instruction): seq<ArgDef> {
    var (name, default, hasDefault) := ParseArgInstruction(x.value);
    if x.keyword == "arg" && name != "" && hasDefault then [ArgDef(name, default)] else []
  }

  // The definitions of the preamble, the instructions before the first FROM, among the first n.
  function DefsAt(xs: seq<Instruction>, n: nat): seq<ArgDef>
    requires n <= |xs|
  {
    if n == 0 then [] else DefsAt(xs, n - 1) + if HasFrom(xs, n - 1) then [] else Defined(xs[n - 1])
  }

  lemma HasFromStep(xs: seq<Instruction>, n: nat)
    requires n < |xs|
    ensures HasFrom(xs, n + 1) <==> HasFrom(xs, n) || xs[n].keyword == "from"
  {
  }

  // What an instruction does to the defaults in force.
  lemma EnterArgs(scope: Scope, x: Instruction, defs: seq<ArgDef>)
    requires scope.args == GlobalArgs(defs)
    ensures Enter(scope, x).args == GlobalArgs(defs + if scope.seenFrom then [] else Defined(x))
    ensures Enter(scope, x).seenFrom <==> scope.seenFrom || x.keyword == "from"
  {
    ArgsAdd(defs, Defined(x));
    hide ParseArgInstruction, FromSpec, ResolveArgReferences, TrimMatchingQuotes, GlobalArgs;
  }

  /** At every point of every Dockerfile the ARG defaults in force are those of the preamble, each name with
      its latest one; from the first FROM on they stay. */
  lemma {:induction false} PreambleScope(xs: seq<Instruction>, n: nat)
    requires n <= |xs|
    ensures ScopeAt(xs, n).args == GlobalArgs(DefsAt(xs, n)) && (ScopeAt(xs, n).seenFrom <==> HasFrom(xs, n))
    decreases n
  {
    hide Enter, GlobalArgs, Defined, HasFrom;
    if n == 0 {
      assert !HasFrom(xs, 0) by { NoFromYet(xs); }
      assert GlobalArgs([]) == map[] by { NoArgs(); }
    } else {
      PreambleScope(xs, n - 1);
      HasFromStep(xs, n - 1);
      EnterArgs(ScopeAt(xs, n - 1), xs[n - 1], DefsAt(xs, n - 1));
    }
  }

  lemma NoFromYet(xs: seq<Instruction>)
    ensures !HasFrom(xs, 0)
  {
  }

  lemma NoArgs()
    ensures GlobalArgs([]) == map[]
  {
  }

  // One more definition, or none.
  lemma ArgsAdd(defs: seq<ArgDef>, more: seq<ArgDef>)
    requires |more| <= 1
    ensures GlobalArgs(defs + []) == GlobalArgs(defs)
    ensures GlobalArgs(defs + more)
         == if more == [] then GlobalArgs(defs)
            else GlobalArgs(defs)[more[0].name :=
              TrimMatchingQuotes(ResolveArgReferences(more[0].default, GlobalArgs(defs)).0)]
  {
    AppendNil(defs);
    if more != [] {
      assert (defs + more)[..|defs|] == defs;
    }
  }

  // The full recursive expansion of a reference over the preamble.
  function FullReference(defs: seq<ArgDef>, ref: string): string {
    TrimMatchingQuotes(Expand(defs, |defs|, Tokens(ref)))
  }

  // The reference names an ARG that the preamble gives no default.
  predicate NamesUnknown(defs: seq<ArgDef>, ref: string) {
    exists i | 0 <= i < |Tokens(ref)| ::
      Tokens(ref)[i].Ref? && Definition(defs, |defs|, Tokens(ref)[i].name).None?
  }

  // An unknown reference stays as it was written, dollar sign and all.
  lemma {:induction false} UnknownStays(defs: seq<ArgDef>, toks: seq<Token>, i: nat)
    requires i < |toks| && toks[i].Ref? && Definition(defs, |defs|, toks[i].name).None? && '$' in toks[i].text
    ensures '$' in Expand(defs, |defs|, toks)
    decreases |toks|
  {
    if i > 0 {
      UnknownStays(defs, toks[1..], i - 1);
    }
  }

  lemma {:induction false} ReferencesHaveDollars(s: string, i: nat)
    requires i < |Tokens(s)| && Tokens(s)[i].Ref?
    ensures '$' in Tokens(s)[i].text
    decreases |s|
  {
    hide NameLength;
    match Match(s)
    case Some(t) =>
      if i == 0 {
        assert t.text[0] == s[0] == '$';
      } else {
        ReferencesHaveDollars(s[|t.text|..], i - 1);
      }
    case None =>
      ReferencesHaveDollars(s[1..], i - 1);
  }

  lemma QuotesKeepDollar(s: string)
    requires '$' in s
    ensures TrimMatchingQuotes(s) != ""
  {
    if |s| >= 2 {
      var k :| 0 <= k < |s| && s[k] == '$';
    }
  }

  lemma UnknownIsNotEmpty(defs: seq<ArgDef>, ref: string)
    requires NamesUnknown(defs, ref)
    ensures FullReference(defs, ref) != ""
  {
    var i :| 0 <= i < |Tokens(ref)| && Tokens(ref)[i].Ref? && Definition(defs, |defs|, Tokens(ref)[i].name).None?;
    ReferencesHaveDollars(ref, i);
    UnknownStays(defs, Tokens(ref), i);
    QuotesKeepDollar(Expand(defs, |defs|, Tokens(ref)));
  }

  lemma ResolvedIs(defs: seq<ArgDef>, ref: string)
    ensures ResolvedReference(ref, GlobalArgs(defs)) == (FullReference(defs, ref), NamesUnknown(defs, ref))
  {
    hide GlobalArgs, Tokens, Substituted, Expand, Unresolved;
    SubstitutedIsExpand(defs, Tokens(ref));
    UnresolvedExactly(defs, ref);
    assert ResolveArgReferences(ref, GlobalArgs(defs)).1 <==> NamesUnknown(defs, ref);
    assert ResolveArgReferences(ref, GlobalArgs(defs)).0 == Expand(defs, |defs|, Tokens(ref));
    assert ResolvedReference(ref, GlobalArgs(defs)).0 == FullReference(defs, ref);
  }

  /** Every FROM instruction of every Dockerfile, whatever flags and alias it has: it is derived from an alias if
      its reference's full recursive expansion names one that an earlier FROM declares; else, if the reference
      names an ARG without a default, it is a stage with that expansion as its image and no tag; else it is the
      stage of the expansion's image and tag. In the expansion unknown references stay as they were written. */
  lemma PreambleStage(xs: seq<Instruction>, k: nat)
    requires k < |xs| && xs[k].keyword == "from"
    requires SkipFlags(Fields(xs[k].value), 0) < |Fields(xs[k].value)|
    ensures var fields, defs := Fields(xs[k].value), DefsAt(xs, k);
      var ref := fields[SkipFlags(fields, 0)];
      var full := FullReference(defs, ref);
      var (image, tag) := SplitImageReference(full);
      KindAt(xs, k) == if exists j | 0 <= j < k :: Declares(xs, j, ToLower(full)) then AliasDerived
                       else if NamesUnknown(defs, ref) then ExternalStage(full, "")
                       else if image == "" then EmptyFrom
                       else ExternalStage(image, tag)
  {
    var fields, defs, scope := Fields(xs[k].value), DefsAt(xs, k), ScopeAt(xs, k);
    var ref := fields[SkipFlags(fields, 0)];
    var full := FullReference(defs, ref);
    hide Fields, ScopeAt, DefsAt, SplitImageReference, GlobalArgs, Declares;
    PreambleScope(xs, k);
    ResolvedIs(defs, ref);
    if NamesUnknown(defs, ref) {
      UnknownIsNotEmpty(defs, ref);
    }
    hide ResolvedReference, NamesUnknown, FullReference;
    KnownAliases(xs, k, ToLower(full));
  }

  /** A FROM without a reference is empty. */
  lemma FromWithoutReference(xs: seq<Instruction>, k: nat)
    requires k < |xs| && xs[k].keyword == "from"
    requires forall i | 0 <= i < |Fields(xs[k].value)| :: "--" <= Fields(xs[k].value)[i]
    ensures KindAt(xs, k) == EmptyFrom && DeclaredAlias(xs, k) == ""
  {
  }

  /** With a closed preamble and reference the expansion holds no dollar sign and nothing is unknown. */
  lemma ClosedStage(defs: seq<ArgDef>, ref: string)
    requires ClosedPreamble(defs) && Closed(defs, |defs|, ref)
    ensures !NamesUnknown(defs, ref) && '$' !in FullReference(defs, ref)
  {
    ExpandHasNoDollar(defs, |defs|, Tokens(ref));
    TrimMatchingQuotesKeeps(Expand(defs, |defs|, Tokens(ref)), '$');
    forall i | 0 <= i < |Tokens(ref)| && Tokens(ref)[i].Ref?
      ensures Definition(defs, |defs|, Tokens(ref)[i].name).Some?
    {
      assert ClosedToken(defs, |defs|, Tokens(ref)[i]);
    }
  }
}
