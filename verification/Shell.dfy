/** Shell command detection (internal/parser/shellparser.go). */
module Shell {
  import opened Strings

  const NUL := '\0'

  // ---- segments ----------------------------------------------------------------------------------------

  // The length of the operator that s starts with, or 0; the first listed operator wins.
  function OperatorLength(s: string): (n: nat)
    ensures n <= |s|
  {
    if HasPrefix(s, "&&") || HasPrefix(s, "||") then 2
    else if HasPrefix(s, ";") || HasPrefix(s, "|") then 1
    else 0
  }

  // Every operator replaced by NUL, from left to right.
  function ReplaceOperators(s: string): string
    decreases |s|
  {
    if s == [] then []
    else if OperatorLength(s) > 0 then [NUL] + ReplaceOperators(s[OperatorLength(s)..])
    else [s[0]] + ReplaceOperators(s[1..])
  }

  function SplitRunSegments(line: string): (segments: seq<string>)
    ensures |segments| >= 1
  {
    Split(ReplaceOperators(line), NUL)
  }

  // ---- commands -----------------------------------------------------------------------------------------

  predicate IsWordChar(c: char) {
    'a' <= c <= 'z' || 'A' <= c <= 'Z' || '0' <= c <= '9' || c == '-' || c == '_'
  }

  // The first index at which p occurs, or -1.
  function Index(s: string, p: string): (i: int)
    ensures i == -1 || 0 <= i <= |s| - |p|
  {
    if HasPrefix(s, p) then 0
    else if s == [] then -1
    else var r := Index(s[1..], p); if r < 0 then -1 else r + 1
  }

  predicate ContainsCmd(segment: string, cmd: string) {
    var i := Index(segment, cmd);
    i >= 0 && !(i > 0 && segment[i - 1] != ' ')
    && (i + |cmd| == |segment| || !IsWordChar(segment[i + |cmd|]))
  }

  predicate StartsWithCmd(segment: string, cmd: string) {
    HasPrefix(segment, cmd) && (|cmd| == |segment| || !IsWordChar(segment[|cmd|]))
  }

  // ---- detectors ----------------------------------------------------------------------------------------

  function TrimAll(segments: seq<string>): seq<string> {
    if segments == [] then [] else [TrimSpace(segments[0])] + TrimAll(segments[1..])
  }

  // The commands of a line, as every detector sees them.
  function CommandsOf(line: string): seq<string> { TrimAll(SplitRunSegments(line)) }

  predicate AnyCommand(line: string, p: string -> bool) {
    exists s | s in CommandsOf(line) :: p(s)
  }

  predicate IsNpmInstall(line: string) { AnyCommand(line, s => ContainsCmd(s, "npm install")) }

  predicate IsNpxUsage(line: string) { AnyCommand(line, s => StartsWithCmd(s, "npx")) }

  predicate IsSudo(line: string) { AnyCommand(line, s => s == "sudo" || HasPrefix(s, "sudo ")) }

  const PUBLISH_COMMANDS := ["npm publish", "pnpm publish", "yarn npm publish", "yarn publish"]

  predicate HasCommand(s: string, commands: seq<string>) {
    exists cmd | cmd in commands :: ContainsCmd(s, cmd)
  }

  predicate IsPackagePublish(line: string) {
    AnyCommand(line, s => !Contains(s, "--dry-run") && HasCommand(s, PUBLISH_COMMANDS))
  }

  // The first command that is one of the listed ones decides.
  predicate MissingFlag(segments: seq<string>, commands: seq<string>, flag: string) {
    segments != [] &&
    if HasCommand(segments[0], commands) then !Contains(segments[0], flag)
    else MissingFlag(segments[1..], commands, flag)
  }

  predicate CommandMissingFlag(line: string, commands: seq<string>, flag: string) {
    MissingFlag(CommandsOf(line), commands, flag)
  }

  // ---- segmentation loses nothing -------------------------------------------------------------------------

  // What separates s's first two segments, when s starts with it: an operator, or NUL itself.
  function SeparatorLength(s: string): (n: nat)
    ensures n <= |s|
  {
    if OperatorLength(s) > 0 then OperatorLength(s) else if s != [] && s[0] == NUL then 1 else 0
  }

  function Separators(s: string): seq<string>
    decreases |s|
  {
    var n := SeparatorLength(s);
    if s == [] then [] else if n > 0 then [s[..n]] + Separators(s[n..]) else Separators(s[1..])
  }

  function Interleave(segments: seq<string>, separators: seq<string>): string
    requires |segments| == |separators| + 1
  {
    if separators == [] then segments[0]
    else segments[0] + (separators[0] + Interleave(segments[1..], separators[1..]))
  }

  // The segments read directly off the line.
  lemma SegmentsUnfold(s: string)
    ensures s == [] ==> SplitRunSegments(s) == [""]
    ensures s != [] && SeparatorLength(s) > 0 ==>
      SplitRunSegments(s) == [""] + SplitRunSegments(s[SeparatorLength(s)..])
    ensures s != [] && SeparatorLength(s) == 0 ==>
      var rest := SplitRunSegments(s[1..]);
      SplitRunSegments(s) == [[s[0]] + rest[0]] + rest[1..]
  {
    if s != [] {
      var n := if OperatorLength(s) > 0 then OperatorLength(s) else 1;
      var rest := ReplaceOperators(s[n..]);
      var c := if OperatorLength(s) > 0 then NUL else s[0];
      assert ReplaceOperators(s) == [c] + rest;
      assert ([c] + rest)[1..] == rest;
    }
  }

  /** The segments interleaved with the separators rebuild the line. */
  lemma {:induction false} SegmentsRebuildLine(s: string)
    ensures |SplitRunSegments(s)| == |Separators(s)| + 1
    ensures Interleave(SplitRunSegments(s), Separators(s)) == s
    decreases |s|
  {
    SegmentsUnfold(s);
    hide SplitRunSegments;
    if s != [] {
      var n := SeparatorLength(s);
      if n > 0 {
        SegmentsRebuildLine(s[n..]);
        hide SeparatorLength, OperatorLength;
        InterleaveCons(s[..n], SplitRunSegments(s[n..]), Separators(s[n..]));
        assert s[..n] + s[n..] == s;
      } else {
        SegmentsRebuildLine(s[1..]);
        hide SeparatorLength, OperatorLength;
        InterleaveHead(s[0], SplitRunSegments(s[1..]), Separators(s[1..]));
      }
    }
  }

  lemma InterleaveCons(sep: string, segs: seq<string>, seps: seq<string>)
    requires |segs| == |seps| + 1
    ensures Interleave([""] + segs, [sep] + seps) == sep + Interleave(segs, seps)
  {
    assert ([""] + segs)[1..] == segs && ([sep] + seps)[1..] == seps;
    AppendNil(sep + Interleave(segs, seps));
  }

  lemma InterleaveHead(c: char, segs: seq<string>, seps: seq<string>)
    requires |segs| == |seps| + 1
    ensures Interleave([[c] + segs[0]] + segs[1..], seps) == [c] + Interleave(segs, seps)
  {
    if seps != [] {
      assert ([[c] + segs[0]] + segs[1..])[1..] == segs[1..];
      AppendAssoc([c], segs[0], seps[0] + Interleave(segs[1..], seps[1..]));
    }
  }

  predicate IsOperator(op: string) { op == "&&" || op == "||" || op == ";" || op == "|" }

  /** In a line without NUL every separator is one of the four operators. */
  lemma {:induction false} SeparatorsAreOperators(s: string)
    requires NUL !in s
    ensures forall i | 0 <= i < |Separators(s)| :: IsOperator(Separators(s)[i])
    decreases |s|
  {
    if s != [] {
      assert s[0] in s;
      var n := SeparatorLength(s);
      if n > 0 {
        SeparatorsAreOperators(s[n..]);
      } else {
        SeparatorsAreOperators(s[1..]);
      }
    }
  }

  predicate FreeOfOperators(segment: string) {
    && ';' !in segment && '|' !in segment
    && forall i | 0 <= i < |segment| - 1 :: !(segment[i] == '&' && segment[i + 1] == '&')
  }

  /** No segment holds an operator: neither `;` nor `|` nor `&&`. */
  lemma {:induction false} SegmentsFreeOfOperators(s: string)
    ensures forall i | 0 <= i < |SplitRunSegments(s)| :: FreeOfOperators(SplitRunSegments(s)[i])
    ensures SplitRunSegments(s)[0] <= s
    decreases |s|
  {
    SegmentsUnfold(s);
    hide SplitRunSegments;
    if s != [] {
      var n := SeparatorLength(s);
      if n > 0 {
        SegmentsFreeOfOperators(s[n..]);
      } else {
        SegmentsFreeOfOperators(s[1..]);
        var first := SplitRunSegments(s[1..])[0];
        FreeCons(s[0], first, s);
      }
    }
  }

  lemma FreeCons(c: char, first: string, s: string)
    requires s != [] && s[0] == c && first <= s[1..] && SeparatorLength(s) == 0 && FreeOfOperators(first)
    ensures FreeOfOperators([c] + first) && [c] + first <= s
  {
    var t := [c] + first;
    forall i | 0 <= i < |t| - 1 ensures !(t[i] == '&' && t[i + 1] == '&') {
      if i > 0 {
        assert t[i] == first[i - 1] && t[i + 1] == first[i];
      }
    }
  }

  // ---- a line without operators --------------------------------------------------------------------------

  lemma OperatorCharacters(s: string)
    ensures OperatorLength(s) > 0 ==>
      s[0] == ';' || s[0] == '|' || (|s| > 1 && s[0] == '&' && s[1] == '&')
  {
    assert HasPrefix(s, "&&") == (|s| > 1 && s[0] == '&' && s[1] == '&');
    assert HasPrefix(s, "||") == (|s| > 1 && s[0] == '|' && s[1] == '|');
  }

  lemma FreeTail(s: string)
    requires s != [] && FreeOfOperators(s)
    ensures FreeOfOperators(s[1..]) && OperatorLength(s) == 0
  {
    assert s[0] in s;
    OperatorCharacters(s);
    hide OperatorLength;
    forall i | 0 <= i < |s[1..]| - 1 ensures !(s[1..][i] == '&' && s[1..][i + 1] == '&') {
      assert !(s[i + 1] == '&' && s[i + 2] == '&');
    }
  }

  lemma {:induction false} NothingToReplace(s: string)
    requires FreeOfOperators(s)
    ensures ReplaceOperators(s) == s
    decreases |s|
  {
    if s != [] {
      FreeTail(s);
      hide FreeOfOperators, OperatorLength;
      NothingToReplace(s[1..]);
    }
  }

  lemma SingleCommand(s: string)
    requires FreeOfOperators(s) && NUL !in s
    ensures CommandsOf(s) == [TrimSpace(s)]
  {
    hide TrimSpace;
    NothingToReplace(s);
    SplitFree(s, NUL);
    assert [s][1..] == [] && TrimAll([]) == [];
    AppendNil([TrimSpace(s)]);
  }

  /** commandMissingFlag is decided by exactly the first command that is one of the listed ones: it holds
      if and only if there is one and the flag is missing there. */
  lemma {:induction false} FirstCommandDecides(segments: seq<string>, commands: seq<string>, flag: string)
    ensures MissingFlag(segments, commands, flag)
      <==> exists i | 0 <= i < |segments| :: IsFirst(segments, commands, i) && !Contains(segments[i], flag)
  {
    hide HasCommand, Contains;
    if segments != [] {
      var rest := segments[1..];
      FirstCommandDecides(rest, commands, flag);
      if HasCommand(segments[0], commands) {
        assert IsFirst(segments, commands, 0);
      } else {
        forall i | 0 <= i < |rest| ensures IsFirst(rest, commands, i) == IsFirst(segments, commands, i + 1) {
          assert forall j | 0 <= j < i :: rest[j] == segments[j + 1];
        }
        if i :| 0 <= i < |rest| && IsFirst(rest, commands, i) && !Contains(rest[i], flag) {
          assert segments[i + 1] == rest[i];
          assert IsFirst(segments, commands, i + 1);
        }
        if i :| 0 <= i < |segments| && IsFirst(segments, commands, i) && !Contains(segments[i], flag) {
          assert rest[i - 1] == segments[i];
        }
      }
    }
  }

  predicate IsFirst(segments: seq<string>, commands: seq<string>, i: nat)
    requires i < |segments|
  {
    HasCommand(segments[i], commands) && forall j | 0 <= j < i :: !HasCommand(segments[j], commands)
  }

  // ---- standalone commands ----------------------------------------------------------------------------------

  lemma OccursShift(s: string, p: string, j: nat)
    requires s != []
    ensures OccursAt(s, p, j + 1) == OccursAt(s[1..], p, j)
  {
    if j + 1 <= |s| - |p| {
      assert s[j + 1..j + 1 + |p|] == s[1..][j..j + |p|];
    }
  }

  lemma {:induction false} IndexIsFirst(s: string, p: string)
    ensures var i := Index(s, p);
      && (i >= 0 ==> OccursAt(s, p, i) && forall j | 0 <= j < i :: !OccursAt(s, p, j))
      && (i < 0 ==> forall j | 0 <= j <= |s| :: !OccursAt(s, p, j))
    decreases |s|
  {
    assert HasPrefix(s, p) <==> OccursAt(s, p, 0);
    if !HasPrefix(s, p) && s != [] {
      var r := Index(s[1..], p);
      IndexIsFirst(s[1..], p);
      forall j | 1 <= j <= |s| ensures OccursAt(s, p, j) == OccursAt(s[1..], p, j - 1) {
        OccursShift(s, p, j - 1);
      }
      hide OccursAt, HasPrefix;
      assert r >= 0 ==> OccursAt(s, p, r + 1);
    }
  }

  // cmd stands alone at i: after a space or at the start, before no word character.
  predicate Standalone(segment: string, cmd: string, i: nat) {
    OccursAt(segment, cmd, i) && (i == 0 || segment[i - 1] == ' ')
    && (i + |cmd| == |segment| || !IsWordChar(segment[i + |cmd|]))
  }

  /** containsCmd holds exactly when the command's first occurrence stands alone; so what it reports is a
      standalone command, but a later one may be missed. */
  lemma ContainsCmdExactly(segment: string, cmd: string)
    ensures ContainsCmd(segment, cmd)
      <==> exists i | 0 <= i <= |segment| ::
             Standalone(segment, cmd, i) && forall j | 0 <= j < i :: !OccursAt(segment, cmd, j)
  {
    IndexIsFirst(segment, cmd);
    var k := Index(segment, cmd);
    if ContainsCmd(segment, cmd) {
      assert Standalone(segment, cmd, k);
    }
    if i :| 0 <= i <= |segment| && Standalone(segment, cmd, i) && forall j | 0 <= j < i :: !OccursAt(segment, cmd, j) {
      assert i == k;
    }
  }

  // A command glued to the character before it is none, whatever follows.
  lemma GluedCommand(c: char, cmd: string, rest: string)
    requires cmd != "" && c != ' ' && c != cmd[0]
    ensures !ContainsCmd([c] + cmd + rest, cmd)
  {
    var s := [c] + cmd + rest;
    assert s[1..1 + |cmd|] == cmd;
    assert !OccursAt(s, cmd, 0) by {
      assert s[0..0 + |cmd|][0] == c;
    }
    assert OccursAt(s, cmd, 1);
    hide Index;
    IndexIsFirst(s, cmd);
  }

  /** Any command whose first occurrence is glued to another character is missed where it stands alone. */
  lemma GluedCommandHides(c: char, cmd: string)
    requires cmd != "" && c != ' ' && c != cmd[0]
    ensures var s := [c] + cmd + (" " + cmd);
      Standalone(s, cmd, |cmd| + 2) && !ContainsCmd(s, cmd)
  {
    var s := [c] + cmd + (" " + cmd);
    assert s[|cmd| + 2..|cmd| + 2 + |cmd|] == cmd && s[|cmd| + 1] == ' ';
    GluedCommand(c, cmd, " " + cmd);
    hide ContainsCmd;
  }

  const INSTALLS_TWICE := "pnpm install npm install"

  lemma InstallsTwiceIsOneCommand()
    ensures CommandsOf(INSTALLS_TWICE) == [INSTALLS_TWICE]
  {
    var s := INSTALLS_TWICE;
    assert '|' !in s && ';' !in s && '&' !in s && NUL !in s;
    assert s[0] == 'p' && s[23] == 'l' && |s| == 24;
    TrimSpacePad("", s, "");
    assert "" + s + "" == s;
    hide CommandsOf, TrimSpace;
    SingleCommand(s);
  }

  /** A line that installs twice, the second time with npm, is no npm install to the detector. */
  lemma LaterCommandIsMissed()
    ensures Standalone(INSTALLS_TWICE, "npm install", 13)
    ensures !ContainsCmd(INSTALLS_TWICE, "npm install") && !IsNpmInstall(INSTALLS_TWICE)
  {
    hide CommandsOf, ContainsCmd, Standalone;
    assert ['p'] + "npm install" + (" " + "npm install") == INSTALLS_TWICE;
    GluedCommandHides('p', "npm install");
    InstallsTwiceIsOneCommand();
  }
}
