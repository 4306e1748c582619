/** Shell lines composed of commands and operators (internal/parser/shellparser.go): when the segments of the
    whole are those of the parts. */
module ShellCompounds {
  import opened Strings
  import opened Shell

  // The trimmed segments of a line whose operators have been replaced.
  function Commands(x: string): seq<string> { TrimAll(Split(x, NUL)) }

  // ---- runs of one character -------------------------------------------------------------------------------

  // s ends with an odd number of c; s starts with an odd number of c.
  predicate EndsOdd(s: string, c: char) {
    s != [] && s[|s| - 1] == c && !EndsOdd(s[..|s| - 1], c)
  }

  predicate StartsOdd(s: string, c: char) {
    s != [] && s[0] == c && !StartsOdd(s[1..], c)
  }

  predicate Starts(s: string, c: char) { s != [] && s[0] == c }

  function Bars(n: nat): string { seq(n, _ => '|') }

  function Nuls(n: nat): string { seq(n, _ => NUL) }

  function Blanks(n: nat): seq<string> { seq(n, _ => "") }

  // What is put before s leaves its final run as it was, when that run is not all of s or when it adds a pair.
  lemma {:induction false} EndsOddAfter(p: string, s: string, c: char)
    requires (s != [] && s[0] != c) || p == [c, c] || (|p| == 1 && p[0] != c)
    ensures EndsOdd(p + s, c) == EndsOdd(s, c)
    decreases |s|
  {
    if s == [] {
      AppendNil(p);
      assert p == [c, c] ==> p[..1][..0] == [];
    } else {
      assert (p + s)[..|p + s| - 1] == p + s[..|s| - 1];
      if |s| > 1 || s[0] == c {
        EndsOddAfter(p, s[..|s| - 1], c);
      }
    }
  }

  // ---- operators across a boundary ---------------------------------------------------------------------------

  // The last character of a and the first of t are read as one operator.
  predicate Crosses(a: string, t: string) {
    (EndsOdd(a, '&') && Starts(t, '&')) || (EndsOdd(a, '|') && Starts(t, '|'))
  }

  // The number of characters read at once from the front of s.
  function Stride(s: string): (n: nat)
    requires s != []
    ensures 1 <= n <= |s|
  {
    if OperatorLength(s) > 0 then OperatorLength(s) else 1
  }

  lemma OperatorLengthIs(s: string)
    ensures OperatorLength(s) ==
      if |s| > 1 && s[0] == s[1] && (s[0] == '&' || s[0] == '|') then 2
      else if s != [] && (s[0] == ';' || s[0] == '|') then 1 else 0
  {
    assert HasPrefix(s, "&&") == (|s| > 1 && s[0] == '&' && s[1] == '&');
    assert HasPrefix(s, "||") == (|s| > 1 && s[0] == '|' && s[1] == '|');
    assert HasPrefix(s, ";") == (s != [] && s[0] == ';');
    assert HasPrefix(s, "|") == (s != [] && s[0] == '|');
  }

  // The first stride is the same with t behind, and what is left crosses as before.
  lemma StrideBefore(a: string, t: string)
    requires a != [] && !Crosses(a, t)
    ensures OperatorLength(a + t) == OperatorLength(a)
    ensures !Crosses(a[Stride(a)..], t)
  {
    OperatorLengthIs(a);
    OperatorLengthIs(a + t);
    hide OperatorLength;
    var n := Stride(a);
    var p, rest := a[..n], a[n..];
    assert a == p + rest;
    SingleEndsOdd(a[0]);
    if |a| > 1 {
      assert (a + t)[1] == a[1];
      assert n == 2 ==> p == [a[0], a[0]];
      assert n == 1 ==> p == [a[0]];
      StrideKeeps(p, rest, '&');
      StrideKeeps(p, rest, '|');
    } else {
      assert a == [a[0]] && rest == [];
      assert t != [] ==> (a + t)[1] == t[0];
    }
  }

  lemma SingleEndsOdd(c: char)
    ensures EndsOdd([c], c)
  {
    assert [c][..0] == [];
  }

  lemma StrideKeeps(p: string, rest: string, c: char)
    requires (|p| == 2 && p[0] == p[1]) || (|p| == 1 && (p[0] == c ==> rest != [] && rest[0] != c))
    ensures EndsOdd(rest, c) ==> EndsOdd(p + rest, c)
  {
    if |p| == 2 && p[0] != c {
      assert p + rest == [p[0]] + ([p[0]] + rest);
      EndsOddAfter([p[0]], rest, c);
      EndsOddAfter([p[0]], [p[0]] + rest, c);
    } else {
      assert |p| == 2 ==> p == [c, c];
      EndsOddAfter(p, rest, c);
    }
  }

  /** Operators are replaced in a and in t apart, unless one of them crosses the boundary. */
  lemma {:induction false} ReplaceAppend(a: string, t: string)
    requires !Crosses(a, t)
    ensures ReplaceOperators(a + t) == ReplaceOperators(a) + ReplaceOperators(t)
    decreases |a|
  {
    hide OperatorLength, Crosses;
    if a == [] {
      AppendNil(t);
      AppendNil(ReplaceOperators(t));
    } else {
      StrideBefore(a, t);
      var n := Stride(a);
      var c := if OperatorLength(a) > 0 then NUL else a[0];
      assert (a + t)[n..] == a[n..] + t;
      ReplaceAppend(a[n..], t);
      AppendAssoc([c], ReplaceOperators(a[n..]), ReplaceOperators(t));
    }
  }

  lemma ReplaceOperator(op: string, b: string)
    requires IsOperator(op) && !(op == "|" && Starts(b, '|'))
    ensures ReplaceOperators(op + b) == [NUL] + ReplaceOperators(b)
  {
    OperatorLengthIs(op + b);
    assert (op + b)[|op|..] == b;
    assert |op| == 1 && b != [] ==> (op + b)[1] == b[0];
    hide OperatorLength;
  }

  // A run of bars is read in pairs.
  lemma {:induction false} ReplaceBars(n: nat, b: string)
    requires !Starts(b, '|')
    ensures ReplaceOperators(Bars(n) + b) == Nuls((n + 1) / 2) + ReplaceOperators(b)
    decreases n
  {
    if n == 0 {
      AppendNil(b);
      AppendNil(ReplaceOperators(b));
    } else if n == 1 {
      assert Bars(1) == "|" && Nuls(1) == [NUL];
      ReplaceOperator("|", b);
    } else {
      assert Bars(n) + b == "||" + (Bars(n - 2) + b);
      ReplaceOperator("||", Bars(n - 2) + b);
      ReplaceBars(n - 2, b);
      assert Nuls((n + 1) / 2) == [NUL] + Nuls((n - 1) / 2);
      AppendAssoc([NUL], Nuls((n - 1) / 2), ReplaceOperators(b));
    }
  }

  lemma {:induction false} FinalBars(a: string) returns (front: string, n: nat)
    ensures a == front + Bars(n) && !EndsOdd(front, '|') && (n % 2 == 1 <==> EndsOdd(a, '|'))
    ensures front == [] || front[|front| - 1] != '|'
    decreases |a|
  {
    if a == [] || a[|a| - 1] != '|' {
      front, n := a, 0;
      assert a == a + Bars(0);
    } else {
      front, n := FinalBars(a[..|a| - 1]);
      assert front + Bars(n + 1) == (front + Bars(n)) + "|";
      n := n + 1;
    }
  }

  lemma {:induction false} LeadingBars(b: string) returns (n: nat, rest: string)
    ensures b == Bars(n) + rest && !Starts(rest, '|') && (n % 2 == 1 <==> StartsOdd(b, '|'))
    decreases |b|
  {
    if !Starts(b, '|') {
      n, rest := 0, b;
      assert b == Bars(0) + b;
    } else {
      n, rest := LeadingBars(b[1..]);
      assert Bars(n + 1) + rest == "|" + (Bars(n) + rest);
      n := n + 1;
    }
  }

  // ---- segments around a run of operators ------------------------------------------------------------------

  lemma {:induction false} TrimAllAppend(a: seq<string>, b: seq<string>)
    ensures TrimAll(a + b) == TrimAll(a) + TrimAll(b)
  {
    if a == [] {
      AppendNil(b);
    } else {
      assert (a + b)[1..] == a[1..] + b;
      TrimAllAppend(a[1..], b);
    }
  }

  lemma {:induction false} TrimAllSplitSnoc(x: string)
    ensures TrimAll(Split(x + " ", NUL)) == TrimAll(Split(x, NUL))
  {
    hide TrimSpace;
    if x == [] {
      assert x + " " == " " && " "[1..] == [];
      TrimSpaceOuter("", ' ');
      AppendNil(" ");
    } else {
      assert (x + " ")[1..] == x[1..] + " ";
      TrimAllSplitSnoc(x[1..]);
      var p, q := Split(x[1..] + " ", NUL), Split(x[1..], NUL);
      if x[0] == NUL {
        assert ([""] + p)[1..] == p && ([""] + q)[1..] == q;
      } else {
        SplitSnocHead(x[1..]);
        assert ([[x[0]] + p[0]] + p[1..])[1..] == p[1..];
        assert ([[x[0]] + q[0]] + q[1..])[1..] == q[1..];
        if p[0] != q[0] {
          AppendAssoc([x[0]], q[0], " ");
          TrimSpaceOuter([x[0]] + q[0], ' ');
        }
        assert TrimAll(p)[1..] == TrimAll(p[1..]) && TrimAll(q)[1..] == TrimAll(q[1..]);
      }
    }
  }

  lemma {:induction false} SplitSnocHead(x: string)
    ensures Split(x + " ", NUL)[0] == Split(x, NUL)[0] || Split(x + " ", NUL)[0] == Split(x, NUL)[0] + " "
  {
    if x == [] {
      assert x + " " == " " && " "[1..] == [];
    } else {
      assert (x + " ")[1..] == x[1..] + " ";
      SplitSnocHead(x[1..]);
    }
  }

  lemma TrimAllSplitCons(x: string)
    ensures TrimAll(Split(" " + x, NUL)) == TrimAll(Split(x, NUL))
  {
    assert (" " + x)[1..] == x;
    var q := Split(x, NUL);
    assert ([" " + q[0]] + q[1..])[1..] == q[1..];
    TrimSpaceOuter(q[0], ' ');
  }

  lemma CommandsSplit(u: string, v: string)
    ensures Commands(u + ([NUL] + v)) == Commands(u) + Commands(v)
  {
    AppendAssoc(u, [NUL], v);
    SplitAppend(u, NUL, v);
    TrimAllAppend(Split(u, NUL), Split(v, NUL));
  }

  // Each operator after the first adds an empty command.
  lemma {:induction false} CommandsNuls(u: string, n: nat, v: string)
    requires n >= 1
    ensures Commands(u + (Nuls(n) + v)) == Commands(u) + (Blanks(n - 1) + Commands(v))
    decreases n
  {
    hide Commands;
    if n == 1 {
      assert Nuls(1) == [NUL] && Blanks(0) == [];
      CommandsSplit(u, v);
      AppendNil(Commands(v));
    } else {
      assert Nuls(n) + v == [NUL] + (Nuls(n - 1) + v);
      assert "" + (Nuls(n - 1) + v) == Nuls(n - 1) + v;
      CommandsSplit(u, Nuls(n - 1) + v);
      CommandsNuls("", n - 1, v);
      assert Commands("") == [""] by { NoCommand(); }
      assert [""] + (Blanks(n - 2) + Commands(v)) == Blanks(n - 1) + Commands(v);
    }
  }

  lemma NoCommand()
    ensures Commands("") == [""]
  {
    assert TrimSpace("") == "" by { TrimSpacePad("", "", ""); }
    assert [""][1..] == [] && TrimAll([]) == [];
  }

  lemma {:induction false} TrimAllLength(x: seq<string>)
    ensures |TrimAll(x)| == |x|
  {
    if x != [] {
      TrimAllLength(x[1..]);
    }
  }

  // ---- compound commands -------------------------------------------------------------------------------------

  // The operator between a and b is read as it was written: no other operator runs into it, or two runs of
  // bars meet in such a way that as many operators are read as were written.
  predicate Separates(a: string, op: string, b: string) {
    if op == "&&" then !EndsOdd(a, '&')
    else if op == "||" then !(EndsOdd(a, '|') && StartsOdd(b, '|'))
    else if op == "|" then !EndsOdd(a, '|') && !StartsOdd(b, '|')
    else true
  }

  // The operators read in a run of n bars.
  function Pairs(n: nat): nat { (n + 1) / 2 }

  lemma AfterBars(front: string, n: nat)
    requires !EndsOdd(front, '|')
    ensures CommandsOf(front + Bars(n)) == CommandsOf(front) + Blanks(Pairs(n))
  {
    hide Commands, TrimAll;
    var u := ReplaceOperators(front);
    ReplaceAppend(front, Bars(n));
    assert ReplaceOperators(Bars(n)) == Nuls(Pairs(n)) by {
      ReplaceBars(n, "");
      AppendNil(Bars(n));
      AppendNil(Nuls(Pairs(n)));
    }
    IsCommands(front);
    IsCommands(front + Bars(n));
    if n == 0 {
      AppendNil(u);
      AppendNil(Commands(u));
      assert Blanks(0) == [] && Nuls(0) == [];
    } else {
      CommandsNuls(u, Pairs(n), "");
      AppendNil(Nuls(Pairs(n)));
      NoCommand();
      assert Blanks(Pairs(n) - 1) + [""] == Blanks(Pairs(n));
    }
  }

  lemma BeforeBars(n: nat, rest: string)
    requires !Starts(rest, '|')
    ensures CommandsOf(Bars(n) + rest) == Blanks(Pairs(n)) + CommandsOf(rest)
  {
    hide Commands, TrimAll;
    var v := ReplaceOperators(rest);
    ReplaceBars(n, rest);
    IsCommands(rest);
    IsCommands(Bars(n) + rest);
    if n == 0 {
      AppendNil(v);
      AppendNil(Commands(v));
      assert Blanks(0) == [] && Nuls(0) == [];
    } else {
      CommandsNuls("", Pairs(n), v);
      AppendNil(Nuls(Pairs(n)) + v);
      NoCommand();
      assert [""] + (Blanks(Pairs(n) - 1) + Commands(v)) == Blanks(Pairs(n)) + Commands(v);
    }
  }

  lemma BetweenBars(front: string, n: nat, rest: string)
    requires n >= 1 && !EndsOdd(front, '|') && !Starts(rest, '|')
    ensures CommandsOf(front + (Bars(n) + rest)) == CommandsOf(front) + (Blanks(Pairs(n) - 1) + CommandsOf(rest))
  {
    hide Commands, TrimAll;
    ReplaceAppend(front, Bars(n) + rest);
    ReplaceBars(n, rest);
    IsCommands(front);
    IsCommands(rest);
    IsCommands(front + (Bars(n) + rest));
    CommandsNuls(ReplaceOperators(front), Pairs(n), ReplaceOperators(rest));
  }

  lemma IsCommands(line: string)
    ensures CommandsOf(line) == Commands(ReplaceOperators(line))
  {
  }

  // Between the same commands, a compound at bars and its parts differ only in empty commands.
  lemma BarCompound(a: string, op: string, b: string) returns (x: seq<string>, m: nat, n: nat, y: seq<string>)
    requires op == "|" || op == "||"
    ensures CommandsOf(a + (op + b)) == x + (Blanks(m) + y)
    ensures CommandsOf(a) + CommandsOf(b) == x + (Blanks(n) + y)
    ensures m == n <==> Separates(a, op, b)
  {
    hide CommandsOf, EndsOdd, StartsOdd, Starts, Pairs;
    var front, p := FinalBars(a);
    var q, rest := LeadingBars(b);
    var o := |op|;
    PairsMeet(p, o, q);
    x, y := CommandsOf(front), CommandsOf(rest);
    m, n := Pairs(p + o + q) - 1, Pairs(p) + Pairs(q);
    AfterBars(front, p);
    BeforeBars(q, rest);
    BetweenBars(front, p + o + q, rest);
    assert a + (op + b) == front + (Bars(p + o + q) + rest) by {
      BarsAdd(p, op, q, front, rest);
    }
    BlanksAdd(x, Pairs(p), Pairs(q), y);
  }

  // When two runs of bars and an operator between them are read as they were written.
  lemma PairsMeet(p: nat, o: nat, q: nat)
    requires 1 <= o <= 2
    ensures Pairs(p + o + q) >= 1
    ensures Pairs(p + o + q) - 1 == Pairs(p) + Pairs(q)
      <==> if o == 2 then !(p % 2 == 1 && q % 2 == 1) else p % 2 == 0 && q % 2 == 0
  {
  }

  lemma BarsAdd(p: nat, op: string, q: nat, front: string, rest: string)
    requires op == "|" || op == "||"
    ensures (front + Bars(p)) + (op + (Bars(q) + rest)) == front + (Bars(p + |op| + q) + rest)
  {
    assert Bars(p + |op| + q) == Bars(p) + (op + Bars(q));
  }

  lemma BlanksAdd(x: seq<string>, m: nat, n: nat, y: seq<string>)
    ensures (x + Blanks(m)) + (Blanks(n) + y) == x + (Blanks(m + n) + y)
  {
    assert Blanks(m + n) == Blanks(m) + Blanks(n);
  }

  lemma BlanksCount(x: seq<string>, m: nat, n: nat, y: seq<string>)
    ensures x + (Blanks(m) + y) == x + (Blanks(n) + y) <==> m == n
  {
    assert |x + (Blanks(m) + y)| == |x| + m + |y| && |x + (Blanks(n) + y)| == |x| + n + |y|;
  }

  // An operator that nothing runs into.
  lemma PlainCompound(a: string, op: string, b: string)
    requires IsOperator(op) && !Crosses(a, op) && !(op == "|" && Starts(b, '|'))
    ensures CommandsOf(a + (op + b)) == CommandsOf(a) + CommandsOf(b)
  {
    assert !Crosses(a, op + b);
    hide Crosses, Commands;
    ReplaceAppend(a, op + b);
    ReplaceOperator(op, b);
    IsCommands(a);
    IsCommands(b);
    IsCommands(a + (op + b));
    CommandsSplit(ReplaceOperators(a), ReplaceOperators(b));
  }

  lemma {:induction false} SplitLastGrows(x: string, c: char)
    requires c != NUL
    ensures var s, t := Split(x, NUL), Split(x + [c], NUL);
      t == s[..|s| - 1] + [s[|s| - 1] + [c]]
  {
    if x == [] {
      assert x + [c] == [c] && [c][1..] == [];
      AppendNil([c]);
      assert Split([c], NUL) == [[c]];
    } else {
      assert (x + [c])[1..] == x[1..] + [c];
      SplitLastGrows(x[1..], c);
      var s := Split(x[1..], NUL);
      if |s| == 1 && x[0] != NUL {
        AppendAssoc([x[0]], s[0], [c]);
      }
    }
  }

  lemma {:induction false} TrimAllAt(x: seq<string>, i: nat)
    requires i < |x|
    ensures |TrimAll(x)| == |x| && TrimAll(x)[i] == TrimSpace(x[i])
  {
    hide TrimSpace;
    TrimAllLength(x);
    if i > 0 {
      TrimAllAt(x[1..], i - 1);
    }
  }

  lemma {:induction false} TrimLeftBefore(x: string, c: char)
    requires !IsSpace(c)
    ensures TrimLeft(x + [c], IsSpace) == TrimLeft(x, IsSpace) + [c]
  {
    if x == [] {
      assert x + [c] == [c];
      AppendNil([c]);
    } else {
      assert (x + [c])[1..] == x[1..] + [c];
      TrimLeftBefore(x[1..], c);
    }
  }

  lemma TrimSpaceGrows(x: string, c: char)
    requires !IsSpace(c)
    ensures TrimSpace(x + [c]) != TrimSpace(x)
  {
    TrimLeftBefore(x, c);
    TrimRightPrefix(TrimLeft(x, IsSpace), IsSpace);
  }

  lemma LastCommandGrows(x: string, c: char)
    requires c != NUL && !IsSpace(c)
    ensures var s, t := Commands(x), Commands(x + [c]);
      |t| == |s| >= 1 && t[|s| - 1] != s[|s| - 1]
  {
    var s := Split(x, NUL);
    SplitLastGrows(x, c);
    hide TrimSpace, Split;
    TrimAllAt(s, |s| - 1);
    TrimAllAt(Split(x + [c], NUL), |s| - 1);
    TrimSpaceGrows(s[|s| - 1], c);
  }

  lemma StripAmpersand(a: string) returns (front: string)
    requires EndsOdd(a, '&')
    ensures a == front + "&" && !EndsOdd(front, '&')
  {
    front := a[..|a| - 1];
  }

  // An unpaired ampersand in front of && is read with its first half.
  lemma AmpersandCompound(a: string, b: string)
    requires EndsOdd(a, '&')
    ensures CommandsOf(a + ("&&" + b)) != CommandsOf(a) + CommandsOf(b)
  {
    var front := StripAmpersand(a);
    assert a + ("&&" + b) == front + ("&&" + ("&" + b));
    PlainCompound(front, "&&", "&" + b);
    assert CommandsOf(a) == Commands(ReplaceOperators(front) + ['&']) by {
      ReplaceAppend(front, "&");
      OperatorLengthIs("&");
      assert ReplaceOperators("&") == "&" by {
        assert "&"[1..] == "" && ReplaceOperators("") == "";
      }
    }
    LastCommandGrows(ReplaceOperators(front), '&');
    hide CommandsOf, Commands, ReplaceOperators;
    IsCommands(front);
    var x, y := CommandsOf(front), CommandsOf(a);
    assert (x + CommandsOf("&" + b))[|x| - 1] == x[|x| - 1];
    assert (y + CommandsOf(b))[|x| - 1] == y[|x| - 1];
  }

  /** For all lines a and b and every operator, written with blanks around it or without: the commands of
      `a op b` are those of a followed by those of b if and only if the operator is read as it was written. */
  lemma CompoundCommands(a: string, op: string, b: string)
    requires IsOperator(op)
    ensures CommandsOf(a + (op + b)) == CommandsOf(a) + CommandsOf(b) <==> Separates(a, op, b)
  {
    hide CommandsOf;
    if op == "|" || op == "||" {
      var x, m, n, y := BarCompound(a, op, b);
      BlanksCount(x, m, n, y);
    } else if op == "&&" && EndsOdd(a, '&') {
      AmpersandCompound(a, b);
    } else {
      PlainCompound(a, op, b);
    }
  }

  lemma SpaceAround(a: string)
    ensures CommandsOf(a + " ") == CommandsOf(a) && CommandsOf(" " + a) == CommandsOf(a)
  {
    var x := ReplaceOperators(a);
    assert ReplaceOperators(" ") == " " by {
      OperatorLengthIs(" ");
      assert " "[1..] == "" && ReplaceOperators("") == "";
    }
    ReplaceAppend(a, " ");
    assert " "[..0] == "";
    ReplaceAppend(" ", a);
    hide ReplaceOperators, Split, TrimAll;
    TrimAllSplitSnoc(x);
    TrimAllSplitCons(x);
  }

  /** In particular with a blank on each side every operator is read as it was written. */
  lemma SpacedCompound(a: string, op: string, b: string)
    requires IsOperator(op)
    ensures Separates(a + " ", op, " " + b)
    ensures CommandsOf((a + " ") + (op + (" " + b))) == CommandsOf(a) + CommandsOf(b)
  {
    hide CommandsOf;
    CompoundCommands(a + " ", op, " " + b);
    SpaceAround(a);
    SpaceAround(b);
  }

  // ---- many commands ---------------------------------------------------------------------------------------------

  // Commands with operators between them.
  function PrintCommands(commands: seq<string>, operators: seq<string>): string
    requires |commands| == |operators| + 1
  {
    if operators == [] then commands[0]
    else commands[0] + (operators[0] + PrintCommands(commands[1..], operators[1..]))
  }

  // Every operator is read as it was written.
  predicate Apart(commands: seq<string>, operators: seq<string>)
    requires |commands| == |operators| + 1
    decreases |operators|
  {
    operators != [] ==>
      var rest := PrintCommands(commands[1..], operators[1..]);
      Separates(commands[0], operators[0], rest) && Apart(commands[1..], operators[1..])
  }

  /** Segmentation inverts printing: a line written as any commands with any operators between them, each
      read as it was written, splits into exactly those commands. */
  lemma {:induction false} SegmentationInvertsPrinting(commands: seq<string>, operators: seq<string>)
    requires |commands| == |operators| + 1 && Apart(commands, operators)
    requires forall i | 0 <= i < |operators| :: IsOperator(operators[i])
    requires forall i | 0 <= i < |commands| :: FreeOfOperators(commands[i]) && NUL !in commands[i]
    ensures CommandsOf(PrintCommands(commands, operators)) == TrimAll(commands)
    decreases |commands|
  {
    hide CommandsOf, TrimSpace, Separates;
    SingleCommand(commands[0]);
    if operators == [] {
      assert commands == [commands[0]];
      assert commands[1..] == [];
    } else {
      var rest, ops := commands[1..], operators[1..];
      assert forall i | 0 <= i < |rest| :: rest[i] == commands[i + 1];
      SegmentationInvertsPrinting(rest, ops);
      CompoundCommands(commands[0], operators[0], PrintCommands(rest, ops));
    }
  }

  /** It is enough that no command is empty, a blank being no empty command, and none ends with an ampersand. */
  lemma {:induction false} FullCommandsApart(commands: seq<string>, operators: seq<string>)
    requires |commands| == |operators| + 1
    requires forall i | 0 <= i < |operators| :: IsOperator(operators[i])
    requires forall i | 0 <= i < |commands| ::
      FreeOfOperators(commands[i]) && commands[i] != "" && commands[i][|commands[i]| - 1] != '&'
    ensures Apart(commands, operators)
    decreases |commands|
  {
    if operators != [] {
      assert forall i | 0 <= i < |commands[1..]| :: commands[1..][i] == commands[i + 1];
      FullCommandsApart(commands[1..], operators[1..]);
      var rest := PrintCommands(commands[1..], operators[1..]);
      var c := commands[0];
      assert rest[0] == commands[1][0] && commands[1][0] in commands[1];
      assert c[|c| - 1] in c;
    }
  }

  // ---- detectors --------------------------------------------------------------------------------------------------

  function Proper(commands: seq<string>): seq<string> {
    if commands == [] then []
    else (if commands[0] == "" then [] else [commands[0]]) + Proper(commands[1..])
  }

  lemma {:induction false} ProperAppend(a: seq<string>, b: seq<string>)
    ensures Proper(a + b) == Proper(a) + Proper(b)
    decreases |a|
  {
    if a == [] {
      AppendNil(b);
      AppendNil(Proper(b));
    } else {
      assert (a + b)[1..] == a[1..] + b;
      ProperAppend(a[1..], b);
      AppendAssoc(if a[0] == "" then [] else [a[0]], Proper(a[1..]), Proper(b));
    }
  }

  lemma {:induction false} NothingProper(n: nat)
    ensures Proper(Blanks(n)) == []
  {
    if n > 0 {
      assert Blanks(n)[1..] == Blanks(n - 1);
      NothingProper(n - 1);
    }
  }

  lemma {:induction false} ProperMembers(commands: seq<string>, s: string)
    ensures s in Proper(commands) <==> s != "" && s in commands
  {
    if commands != [] {
      ProperMembers(commands[1..], s);
      assert s in commands <==> s == commands[0] || s in commands[1..];
    }
  }

  // An unpaired ampersand stands before &&.
  predicate LeavesAmpersand(a: string, op: string) { op == "&&" && EndsOdd(a, '&') }

  /** Up to empty commands the commands of a compound are those of its parts, even where runs of bars meet,
      unless an unpaired ampersand stands before `&&`. */
  lemma ProperCommands(a: string, op: string, b: string)
    requires IsOperator(op) && !LeavesAmpersand(a, op)
    ensures Proper(CommandsOf(a + (op + b))) == Proper(CommandsOf(a)) + Proper(CommandsOf(b))
  {
    hide CommandsOf, Proper;
    ProperAppend(CommandsOf(a), CommandsOf(b));
    if op == "|" || op == "||" {
      var x, m, n, y := BarCompound(a, op, b);
      ProperAround(x, m, y);
      ProperAround(x, n, y);
    } else {
      CompoundCommands(a, op, b);
    }
  }

  lemma ProperAround(x: seq<string>, n: nat, y: seq<string>)
    ensures Proper(x + (Blanks(n) + y)) == Proper(x) + Proper(y)
  {
    ProperAppend(x, Blanks(n) + y);
    ProperAppend(Blanks(n), y);
    NothingProper(n);
    AppendNil(Proper(y));
  }

  // A property that no empty command has holds of some command of the compound iff of some one of a part.
  lemma AnyOfCompound(a: string, op: string, b: string, p: string -> bool)
    requires IsOperator(op) && !LeavesAmpersand(a, op) && !p("")
    ensures AnyCommand(a + (op + b), p) <==> AnyCommand(a, p) || AnyCommand(b, p)
  {
    var line := a + (op + b);
    ProperCommands(a, op, b);
    forall s | p(s)
      ensures s in CommandsOf(line) <==> s in CommandsOf(a) || s in CommandsOf(b)
    {
      ProperMembers(CommandsOf(line), s);
      ProperMembers(CommandsOf(a), s);
      ProperMembers(CommandsOf(b), s);
      hide CommandsOf, Proper;
      assert s in Proper(CommandsOf(a)) + Proper(CommandsOf(b))
        <==> s in Proper(CommandsOf(a)) || s in Proper(CommandsOf(b));
    }
    hide CommandsOf, Proper;
  }

  /** So the npm-install, npx, sudo and publish detectors of `a op b` are the disjunction of those of a and b,
      for each operator, written with blanks around it or without. */
  lemma DetectorsOfCompound(a: string, op: string, b: string)
    requires IsOperator(op) && !LeavesAmpersand(a, op)
    ensures var line := a + (op + b);
      && (IsNpmInstall(line) <==> IsNpmInstall(a) || IsNpmInstall(b))
      && (IsNpxUsage(line) <==> IsNpxUsage(a) || IsNpxUsage(b))
      && (IsSudo(line) <==> IsSudo(a) || IsSudo(b))
      && (IsPackagePublish(line) <==> IsPackagePublish(a) || IsPackagePublish(b))
  {
    hide AnyCommand;
    assert forall cmd | cmd in PUBLISH_COMMANDS :: cmd != "";
    AnyOfCompound(a, op, b, s => ContainsCmd(s, "npm install"));
    AnyOfCompound(a, op, b, s => StartsWithCmd(s, "npx"));
    AnyOfCompound(a, op, b, s => s == "sudo" || HasPrefix(s, "sudo "));
    AnyOfCompound(a, op, b, s => !Contains(s, "--dry-run") && HasCommand(s, PUBLISH_COMMANDS));
  }

  lemma EmptyIsNoCommand(commands: seq<string>)
    requires "" !in commands
    ensures !HasCommand("", commands)
  {
  }

  // Empty commands do not matter to commandMissingFlag.
  lemma {:induction false} MissingFlagProper(segments: seq<string>, commands: seq<string>, flag: string)
    requires "" !in commands
    ensures MissingFlag(Proper(segments), commands, flag) == MissingFlag(segments, commands, flag)
  {
    hide Contains, HasCommand;
    if segments != [] {
      EmptyIsNoCommand(commands);
      var head := if segments[0] == "" then [] else [segments[0]];
      MissingFlagProper(segments[1..], commands, flag);
      var tail := Proper(segments[1..]);
      if segments[0] == "" {
        AppendNil(tail);
      } else {
        assert (head + tail)[0] == segments[0] && (head + tail)[1..] == tail;
      }
    }
  }

  /** commandMissingFlag of a compound is that of the first part if it has a listed command, else that of
      the second. */
  lemma MissingFlagOfCompound(a: string, op: string, b: string, commands: seq<string>, flag: string)
    requires IsOperator(op) && !LeavesAmpersand(a, op) && "" !in commands
    ensures CommandMissingFlag(a + (op + b), commands, flag)
         == if exists s | s in CommandsOf(a) :: HasCommand(s, commands) then CommandMissingFlag(a, commands, flag)
            else CommandMissingFlag(b, commands, flag)
  {
    var x, y := CommandsOf(a), CommandsOf(b);
    ProperCommands(a, op, b);
    MissingFlagProper(CommandsOf(a + (op + b)), commands, flag);
    MissingFlagProper(x, commands, flag);
    MissingFlagProper(y, commands, flag);
    MissingFlagAppend(Proper(x), Proper(y), commands, flag);
    forall s | HasCommand(s, commands) ensures s in Proper(x) <==> s in x {
      ProperMembers(x, s);
    }
    hide CommandsOf, Proper, MissingFlag, HasCommand;
  }

  lemma {:induction false} MissingFlagAppend(a: seq<string>, b: seq<string>, commands: seq<string>, flag: string)
    ensures MissingFlag(a + b, commands, flag)
         == if exists s | s in a :: HasCommand(s, commands) then MissingFlag(a, commands, flag)
            else MissingFlag(b, commands, flag)
  {
    hide HasCommand, Contains;
    if a == [] {
      AppendNil(b);
    } else {
      assert (a + b)[1..] == a[1..] + b;
      MissingFlagAppend(a[1..], b, commands, flag);
      assert forall s :: s in a <==> s == a[0] || s in a[1..];
    }
  }

  /** An unpaired ampersand before `&&` is read with its first half, and the second half goes to the next
      command. */
  lemma AmpersandMovesOver(front: string, b: string)
    requires !EndsOdd(front, '&')
    ensures CommandsOf((front + "&") + ("&&" + b)) == CommandsOf(front) + CommandsOf("&" + b)
  {
    assert (front + "&") + ("&&" + b) == front + ("&&" + ("&" + b));
    PlainCompound(front, "&&", "&" + b);
  }

  lemma LoneCommand(s: string)
    requires FreeOfOperators(s) && NUL !in s && Trimmed(s)
    ensures CommandsOf(s) == [s]
  {
    SingleCommand(s);
    TrimSpacePad("", s, "");
    assert "" + s + "" == s;
  }

  lemma LoneX()
    ensures CommandsOf("x") == ["x"] && !ContainsCmd("x", "npm install") && LeavesAmpersand("x" + "&", "&&")
  {
    LoneCommand("x");
    var a := "x" + "&";
    assert a[..|a| - 1] == "x" && a[|a| - 1] == '&';
    assert !EndsOdd("x", '&');
    hide CommandsOf;
  }

  lemma LoneInstall()
    ensures CommandsOf("npm install") == ["npm install"] && ContainsCmd("npm install", "npm install")
  {
    var s := "npm install";
    assert '|' !in s && ';' !in s && '&' !in s && NUL !in s;
    assert s[0] == 'n' && s[10] == 'l' && |s| == 11;
    LoneCommand(s);
    hide CommandsOf;
  }

  lemma LoneHiddenInstall()
    ensures CommandsOf("&" + "npm install") == ["&" + "npm install"]
  {
    var t := "npm install";
    var s := "&" + t;
    assert '|' !in t && ';' !in t && '&' !in t && NUL !in t;
    assert s[0] == '&' && s[11] == 'l' && |s| == 12;
    assert FreeOfOperators(s) by {
      assert forall i | 1 <= i < |s| :: s[i] == t[i - 1] && t[i - 1] in t;
    }
    LoneCommand(s);
  }

  /** So a second command that a detector knows is missed: it is read as `&npm install`. */
  lemma AmpersandHidesInstall()
    ensures LeavesAmpersand("x" + "&", "&&") && IsNpmInstall("npm install")
    ensures !IsNpmInstall(("x" + "&") + ("&&" + "npm install"))
  {
    hide CommandsOf, ContainsCmd, EndsOdd;
    var cmd := "npm install";
    LoneX();
    LoneInstall();
    assert cmd in CommandsOf(cmd);
    LoneHiddenInstall();
    assert !EndsOdd("x", '&') by { LastIsX(); }
    AmpersandMovesOver("x", cmd);
    AppendNil("&" + cmd);
    GluedCommand('&', cmd, "");
  }

  lemma LastIsX()
    ensures !EndsOdd("x", '&')
  {
  }
}
