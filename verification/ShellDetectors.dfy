/** What each shell detector finds (internal/parser/shellparser.go), on every line and on lines written as
    commands with operators between them. */
module ShellDetectors {
  import opened Strings
  import opened Shell
  import opened ShellCompounds

  // The first occurrence of cmd in the command stands alone.
  predicate FirstAlone(command: string, cmd: string) {
    exists i | 0 <= i <= |command| ::
      Standalone(command, cmd, i) && forall j | 0 <= j < i :: !OccursAt(command, cmd, j)
  }

  // The word cmd starts the command.
  predicate Leads(command: string, cmd: string) {
    cmd <= command && (|command| > |cmd| ==> !IsWordChar(command[|cmd|]))
  }

  predicate Publishes(command: string) {
    && !Contains(command, "--dry-run")
    && (|| FirstAlone(command, "npm publish") || FirstAlone(command, "pnpm publish")
        || FirstAlone(command, "yarn npm publish") || FirstAlone(command, "yarn publish"))
  }

  predicate RunsAsRoot(command: string) { command == "sudo" || "sudo " <= command }

  // The first command that is one of the listed ones lacks the flag.
  ghost predicate FirstLacks(commands: seq<string>, listed: seq<string>, flag: string) {
    exists i | 0 <= i < |commands| ::
      && (exists cmd | cmd in listed :: FirstAlone(commands[i], cmd))
      && (forall j | 0 <= j < i :: forall cmd | cmd in listed :: !FirstAlone(commands[j], cmd))
      && !Contains(commands[i], flag)
  }

  lemma ContainsIsFirstAlone(command: string, cmd: string)
    ensures ContainsCmd(command, cmd) <==> FirstAlone(command, cmd)
  {
    ContainsCmdExactly(command, cmd);
  }

  // q says of every command what p says.
  lemma AnyIsSome(line: string, p: string -> bool, q: string -> bool)
    requires forall s :: p(s) <==> q(s)
    ensures AnyCommand(line, p) <==> exists i | 0 <= i < |CommandsOf(line)| :: q(CommandsOf(line)[i])
  {
    hide CommandsOf;
    if i :| 0 <= i < |CommandsOf(line)| && q(CommandsOf(line)[i]) {
      assert p(CommandsOf(line)[i]);
    }
  }

  lemma PublishesIs(command: string)
    ensures Publishes(command) <==> !Contains(command, "--dry-run") && HasCommand(command, PUBLISH_COMMANDS)
  {
    forall cmd ensures ContainsCmd(command, cmd) <==> FirstAlone(command, cmd) {
      ContainsIsFirstAlone(command, cmd);
    }
    hide ContainsCmd, FirstAlone, Contains;
  }

  /** On every line, with c ranging over its trimmed segments: a line is npm install if and only if the first
      `npm install` of some c stands alone; npx if and only if that word starts some c; sudo if and only if some c
      is sudo or starts with it and a blank; publish if and only if some c holds no `--dry-run` and the first
      occurrence of one of four publish commands in it stands alone. */
  lemma DetectorsExactly(line: string)
    ensures var commands := CommandsOf(line);
      && (IsNpmInstall(line) <==> exists i | 0 <= i < |commands| :: FirstAlone(commands[i], "npm install"))
      && (IsNpxUsage(line) <==> exists i | 0 <= i < |commands| :: Leads(commands[i], "npx"))
      && (IsSudo(line) <==> exists i | 0 <= i < |commands| :: RunsAsRoot(commands[i]))
      && (IsPackagePublish(line) <==> exists i | 0 <= i < |commands| :: Publishes(commands[i]))
  {
    hide CommandsOf, ContainsCmd, FirstAlone, Publishes, Contains, HasCommand;
    forall s ensures ContainsCmd(s, "npm install") <==> FirstAlone(s, "npm install") {
      ContainsIsFirstAlone(s, "npm install");
    }
    forall s ensures Publishes(s) <==> !Contains(s, "--dry-run") && HasCommand(s, PUBLISH_COMMANDS) {
      PublishesIs(s);
    }
    AnyIsSome(line, s => ContainsCmd(s, "npm install"), s => FirstAlone(s, "npm install"));
    AnyIsSome(line, s => StartsWithCmd(s, "npx"), s => Leads(s, "npx"));
    AnyIsSome(line, s => s == "sudo" || HasPrefix(s, "sudo "), s => RunsAsRoot(s));
    AnyIsSome(line, s => !Contains(s, "--dry-run") && HasCommand(s, PUBLISH_COMMANDS), s => Publishes(s));
    hide AnyCommand;
  }

  /** commandMissingFlag of a line holds if and only if some segment has a listed command and the first such
      segment lacks the flag. */
  lemma MissingFlagExactly(line: string, listed: seq<string>, flag: string)
    ensures CommandMissingFlag(line, listed, flag) <==> FirstLacks(CommandsOf(line), listed, flag)
  {
    FirstCommandDecides(CommandsOf(line), listed, flag);
    forall s ensures HasCommand(s, listed) <==> exists cmd | cmd in listed :: FirstAlone(s, cmd) {
      forall cmd ensures ContainsCmd(s, cmd) <==> FirstAlone(s, cmd) {
        ContainsIsFirstAlone(s, cmd);
      }
      hide ContainsCmd, FirstAlone;
    }
    hide CommandsOf, FirstAlone, HasCommand, Contains, MissingFlag;
  }

  /** For a line written as commands with operators between them the detectors look at exactly those commands,
      trimmed. */
  lemma DetectorsOfPrinted(commands: seq<string>, operators: seq<string>, listed: seq<string>, flag: string)
    requires |commands| == |operators| + 1 && Apart(commands, operators)
    requires forall i | 0 <= i < |operators| :: IsOperator(operators[i])
    requires forall i | 0 <= i < |commands| :: FreeOfOperators(commands[i]) && NUL !in commands[i]
    ensures var line := PrintCommands(commands, operators);
      && (IsNpmInstall(line) <==> exists i | 0 <= i < |commands| :: FirstAlone(TrimSpace(commands[i]), "npm install"))
      && (IsNpxUsage(line) <==> exists i | 0 <= i < |commands| :: Leads(TrimSpace(commands[i]), "npx"))
      && (IsSudo(line) <==> exists i | 0 <= i < |commands| :: RunsAsRoot(TrimSpace(commands[i])))
      && (IsPackagePublish(line) <==> exists i | 0 <= i < |commands| :: Publishes(TrimSpace(commands[i])))
      && (CommandMissingFlag(line, listed, flag) <==> FirstLacks(TrimAll(commands), listed, flag))
  {
    hide CommandsOf, Apart, PrintCommands, IsNpmInstall, IsNpxUsage, IsSudo, IsPackagePublish, CommandMissingFlag,
         FirstAlone, Leads, RunsAsRoot, Publishes, FirstLacks, FreeOfOperators, TrimSpace;
    var line := PrintCommands(commands, operators);
    SegmentationInvertsPrinting(commands, operators);
    DetectorsExactly(line);
    MissingFlagExactly(line, listed, flag);
    TrimAllLength(commands);
    forall i | 0 <= i < |commands| ensures TrimAll(commands)[i] == TrimSpace(commands[i]) {
      TrimAllAt(commands, i);
    }
  }

  // Characters that can be part of a command's name.
  predicate InWord(c: char) {
    'a' <= c <= 'z' || 'A' <= c <= 'Z' || '0' <= c <= '9' || c == '-' || c == '_'
  }

  /** A command with a character behind it is one if and only if that character cannot be part of its name: not in
      `npm install-ci-test`, but in `npm install"`. */
  lemma NextCharacterDecides(cmd: string, c: char, rest: string)
    requires cmd != ""
    ensures ContainsCmd(cmd + [c] + rest, cmd) <==> !InWord(c)
    ensures StartsWithCmd(cmd + [c] + rest, cmd) <==> !InWord(c)
  {
    var s := cmd + [c] + rest;
    assert s[..|cmd|] == cmd && s[|cmd|] == c;
  }
}
