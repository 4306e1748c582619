/** Dockerfile line joining: `parseDockerInstructions` (internal/parser/dockerfileparser.go). */
module DockerInstructions {
  import opened Strings

  datatype Instruction = Instruction(keyword: string, value: string)

  predicate IsTrailing(c: char) { c == ' ' || c == '\t' || c == '\r' }

  // ---- what the line loop computes -------------------------------------------------------------------

  // The segments gathered for the current instruction, and the instructions complete so far.
  datatype Parse = Parse(current: seq<string>, out: seq<Instruction>)

  // The instruction that a joined logical line holds, if any.
  function Interpret(joined: string): seq<Instruction> {
    if Fields(joined) == [] then []
    else
      var first := Fields(joined)[0];
      FieldLength(joined);
      [Instruction(ToLower(first), TrimSpace(joined[|first|..]))]
  }

  lemma FieldLength(s: string)
    requires Fields(s) != []
    ensures |Fields(s)[0]| <= |s|
  {
    TrimLeftShorter(s, IsSpace);
    WordPrefix(TrimLeft(s, IsSpace));
  }

  function Flush(p: Parse): Parse {
    if p.current == [] then p else Parse([], p.out + Interpret(Join(p.current, " ")))
  }

  predicate Skipped(rawLine: string) {
    TrimSpace(rawLine) == "" || HasPrefix(TrimSpace(rawLine), "#")
  }

  function ReadLine(p: Parse, rawLine: string): Parse {
    if p.current == [] && Skipped(rawLine) then p
    else
      var line := TrimRight(rawLine, IsTrailing);
      var continuation := HasSuffix(line, "\\");
      var segment := TrimSpace(if continuation then line[..|line| - 1] else line);
      var p1 := if segment != "" then p.(current := p.current + [segment]) else p;
      if continuation then p1 else Flush(p1)
  }

  function ReadLines(p: Parse, lines: seq<string>): Parse
    decreases |lines|
  {
    if lines == [] then p else ReadLines(ReadLine(p, lines[0]), lines[1..])
  }

  const START := Parse([], [])

  function Instructions(content: string): seq<Instruction> {
    Flush(ReadLines(START, Split(content, '\n'))).out
  }

  method FlushCurrent(current: seq<string>, instructions: seq<Instruction>)
    returns (current': seq<string>, instructions': seq<Instruction>)
    ensures Parse(current', instructions') == Flush(Parse(current, instructions))
  {
    current', instructions' := current, instructions;
    if |current| == 0 {
      return;
    }
    var joined := Join(current, " ");
    current' := [];
    var fields := Fields(joined);
    if |fields| == 0 {
      return;
    }
    FieldLength(joined);
    var keyword := ToLower(fields[0]);
    var value := TrimSpace(joined[|fields[0]|..]);
    instructions' := instructions + [Instruction(keyword, value)];
  }

  method ParseDockerInstructions(content: string) returns (instructions: seq<Instruction>)
    ensures instructions == Instructions(content)
  {
    var lines := Split(content, '\n');
    instructions := [];
    var current: seq<string> := [];
    var i := 0;
    while i < |lines|
      invariant i <= |lines|
      invariant ReadLines(Parse(current, instructions), lines[i..]) == ReadLines(START, lines)
    {
      var rawLine := lines[i];
      assert lines[i..][1..] == lines[i + 1..];
      i := i + 1;
      var trimmedLine := TrimSpace(rawLine);
      if |current| == 0 && (trimmedLine == "" || HasPrefix(trimmedLine, "#")) {
        continue;
      }
      var line := TrimRight(rawLine, IsTrailing);
      var continuation := HasSuffix(line, "\\");
      var segment := TrimSpace(if continuation then line[..|line| - 1] else line);
      if segment != "" {
        current := current + [segment];
      }
      if continuation {
        continue;
      }
      current, instructions := FlushCurrent(current, instructions);
    }
    current, instructions := FlushCurrent(current, instructions);
  }

  // ---- printing a Dockerfile ---------------------------------------------------------------------------

  // One physical line of an instruction: indentation, text, blanks, and, unless it is the last, a
  // backslash with blanks after it.
  datatype Chunk = Chunk(indent: string, text: string, pad: string, trail: string)

  datatype Item =
    | Filler(line: string)                                       // an empty line or a comment
    | Print(instruction: Instruction, chunks: seq<Chunk>)

  // A continuation line may be empty, the first line not.
  predicate ChunkOk(c: Chunk) {
    IsPadding(c.indent) && IsPadding(c.pad)
    && (forall x | x in c.trail :: x == ' ' || x == '\t' || x == '\r')
    && (c.text == "" || Trimmed(c.text)) && Free(c.text, '\n')
  }

  function Texts(chunks: seq<Chunk>): seq<string> {
    if chunks == [] then []
    else (if chunks[0].text == "" then [] else [chunks[0].text]) + Texts(chunks[1..])
  }

  // The logical line that the chunks spell out, broken at single spaces.
  function Spelled(chunks: seq<Chunk>): string { Join(Texts(chunks), " ") }

  predicate WellFormed(x: Instruction) {
    x.keyword != "" && All(x.keyword, c => !IsSpace(c))
    && (x.value == "" || Trimmed(x.value))
  }

  // `spelled` writes the instruction with some capitalisation of its keyword.
  predicate Spells(spelled: string, x: Instruction) {
    var n := |x.keyword|;
    && n <= |spelled|
    && ToLower(spelled[..n]) == x.keyword
    && spelled[n..] == if x.value == "" then "" else " " + x.value
  }

  // White space alone, or before a `#`.
  predicate BlankOrComment(line: string) {
    exists i | 0 <= i <= |line| :: All(line[..i], IsSpace) && (i == |line| || line[i] == '#')
  }

  predicate ItemOk(item: Item) {
    match item
    case Filler(line) => Free(line, '\n') && BlankOrComment(line)
    case Print(x, chunks) =>
      && chunks != [] && (forall i | 0 <= i < |chunks| :: ChunkOk(chunks[i]))
      && chunks[0].text != "" && chunks[0].text[0] != '#'
      && !HasSuffix(chunks[|chunks| - 1].text, "\\")
      && WellFormed(x) && Spells(Spelled(chunks), x)
  }

  function ChunkLines(chunks: seq<Chunk>): seq<string> {
    if chunks == [] then []
    else if |chunks| == 1 then [chunks[0].indent + chunks[0].text + chunks[0].pad]
    else [chunks[0].indent + chunks[0].text + chunks[0].pad + "\\" + chunks[0].trail] + ChunkLines(chunks[1..])
  }

  function ItemLines(item: Item): seq<string> {
    match item
    case Filler(line) => [line]
    case Print(_, chunks) => ChunkLines(chunks)
  }

  function Lines(items: seq<Item>): seq<string> {
    if items == [] then [] else ItemLines(items[0]) + Lines(items[1..])
  }

  function Printed(items: seq<Item>): seq<Instruction> {
    if items == [] then []
    else (if items[0].Print? then [items[0].instruction] else []) + Printed(items[1..])
  }

  // ---- layout invariance -----------------------------------------------------------------------------------

  lemma {:induction false} ReadLinesAppend(p: Parse, a: seq<string>, b: seq<string>)
    ensures ReadLines(p, a + b) == ReadLines(ReadLines(p, a), b)
    decreases |a|
  {
    if a == [] {
      assert a + b == b;
    } else {
      assert (a + b)[1..] == a[1..] + b;
      ReadLinesAppend(ReadLine(p, a[0]), a[1..], b);
    }
  }

  lemma TrailIsTrailing(c: Chunk)
    requires ChunkOk(c)
    ensures All(c.trail, IsTrailing) && Free(c.trail, '\n')
  {
    forall i | 0 <= i < |c.trail| ensures IsTrailing(c.trail[i]) {
      assert c.trail[i] in c.trail;
    }
  }

  // Lines that hold no instruction are exactly the blank ones and the comments.
  lemma SkippedIs(line: string)
    ensures Skipped(line) <==> BlankOrComment(line)
  {
    IndentOf(line);
    var n := |line| - |TrimLeft(line, IsSpace)|;
    var t := TrimLeft(line, IsSpace);
    TrimFront(t);
    if Skipped(line) {
      assert All(line[..n], IsSpace) && (n == |line| || line[n] == '#');
    }
    if i :| 0 <= i <= |line| && All(line[..i], IsSpace) && (i == |line| || line[i] == '#') {
      assert forall j | 0 <= j < i :: line[..i][j] == line[j];
      assert i == n;
    }
  }

  // What TrimLeft cuts is white space, and what it leaves starts with none.
  lemma {:induction false} IndentOf(line: string)
    ensures var t := TrimLeft(line, IsSpace); var n := |line| - |t|;
      && 0 <= n && line[n..] == t && All(line[..n], IsSpace) && (t == [] || !IsSpace(t[0]))
  {
    if line != [] && IsSpace(line[0]) {
      IndentOf(line[1..]);
      var t := TrimLeft(line[1..], IsSpace);
      var n := |line| - |t|;
      assert line[n..] == line[1..][n - 1..];
      assert forall i | 1 <= i < n :: line[..n][i] == line[1..][..n - 1][i - 1];
    } else {
      assert line[0..] == line && line[..0] == [];
    }
  }

  lemma TrimFront(t: string)
    requires t == [] || !IsSpace(t[0])
    ensures var r := TrimRight(t, IsSpace);
      if t == [] then r == [] else r != [] && r[0] == t[0]
  {
    if t != [] {
      TrimRightKeeps(t, 0, IsSpace);
    }
  }

  // A continued line adds its text and goes on.
  lemma ReadContinued(p: Parse, c: Chunk)
    requires ChunkOk(c) && (p.current == [] ==> c.text != "" && c.text[0] != '#')
    ensures ReadLine(p, c.indent + c.text + c.pad + "\\" + c.trail)
         == p.(current := p.current + if c.text == "" then [] else [c.text])
  {
    var body := c.indent + c.text + c.pad;
    var raw := body + "\\" + c.trail;
    TrailIsTrailing(c);
    TrimRightPad(body + "\\", c.trail, IsTrailing);
    TrimRightAll(c.trail, IsTrailing);
    assert TrimRight(raw, IsTrailing) == body + "\\";
    assert (body + "\\")[..|body + "\\"| - 1] == body;
    TrimSpacePad(c.indent, c.text, c.pad);
    if p.current == [] {
      StartsWithText(c.indent, c.text, c.pad + "\\" + c.trail);
      assert raw == c.indent + c.text + (c.pad + "\\" + c.trail);
    }
    assert p.current + [] == p.current;
  }

  // An uncontinued line adds its text and completes the instruction.
  lemma ReadLast(p: Parse, c: Chunk)
    requires ChunkOk(c) && !HasSuffix(c.text, "\\")
    requires p.current == [] ==> c.text != "" && c.text[0] != '#'
    ensures ReadLine(p, c.indent + c.text + c.pad)
         == Flush(p.(current := p.current + if c.text == "" then [] else [c.text]))
  {
    var raw := c.indent + c.text + c.pad;
    var line := TrimRight(raw, IsTrailing);
    LastLine(c);
    if p.current == [] {
      StartsWithText(c.indent, c.text, c.pad);
    }
    assert p.current + [] == p.current;
  }

  lemma LastLine(c: Chunk)
    requires ChunkOk(c) && !HasSuffix(c.text, "\\")
    ensures var line := TrimRight(c.indent + c.text + c.pad, IsTrailing);
      !HasSuffix(line, "\\") && TrimSpace(line) == c.text
  {
    if c.text == "" {
      assert c.indent + c.text + c.pad == c.indent + c.pad;
      BlankLine(c.indent + c.pad);
    } else {
      TrimRightPad(c.indent + c.text, c.pad, IsTrailing);
      TrimRightPrefix(c.pad, IsTrailing);
      hide TrimRight, TrimSpace, TrimLeft;
      TextLine(c.indent, c.text, TrimRight(c.pad, IsTrailing));
    }
  }

  lemma BlankLine(blank: string)
    requires All(blank, IsSpace)
    ensures var line := TrimRight(blank, IsTrailing);
      !HasSuffix(line, "\\") && TrimSpace(line) == ""
  {
    var line := TrimRight(blank, IsTrailing);
    TrimRightPrefix(blank, IsTrailing);
    hide TrimRight, TrimSpace, TrimLeft;
    TrimSpacePad(line, "", "");
    assert line + "" + "" == line;
    if line != [] {
      assert line[|line| - 1..] == [line[|line| - 1]];
    }
  }

  lemma TextLine(indent: string, text: string, pad: string)
    requires All(indent, IsSpace) && All(pad, IsSpace) && Trimmed(text) && !HasSuffix(text, "\\")
    ensures !HasSuffix(indent + text + pad, "\\") && TrimSpace(indent + text + pad) == text
  {
    hide TrimSpace;
    TrimSpacePad(indent, text, pad);
    var line := indent + text + pad;
    assert line[|line| - 1] == if pad == "" then text[|text| - 1] else pad[|pad| - 1];
    assert text[|text| - 1..] == [text[|text| - 1]];
  }

  // A line that starts with text other than a comment is not skipped.
  lemma StartsWithText(indent: string, text: string, rest: string)
    requires IsPadding(indent) && Trimmed(text) && text[0] != '#'
    ensures !Skipped(indent + text + rest)
  {
    assert indent + text + rest == indent + (text + rest);
    TrimLeftPad(indent, text + rest, IsSpace);
    assert text + rest == [text[0]] + (text + rest)[1..];
    TrimRightPad([text[0]], (text + rest)[1..], IsSpace);
    var trimmed := TrimSpace(indent + text + rest);
    assert trimmed == [text[0]] + TrimRight((text + rest)[1..], IsSpace);
    assert trimmed[0] == text[0];
  }

  lemma {:induction false} ReadChunks(p: Parse, chunks: seq<Chunk>)
    requires chunks != [] && (forall i | 0 <= i < |chunks| :: ChunkOk(chunks[i]))
    requires p.current == [] ==> chunks[0].text != "" && chunks[0].text[0] != '#'
    requires !HasSuffix(chunks[|chunks| - 1].text, "\\")
    ensures ReadLines(p, ChunkLines(chunks)) == Flush(p.(current := p.current + Texts(chunks)))
    decreases |chunks|
  {
    var c, rest := chunks[0], chunks[1..];
    var piece := if c.text == "" then [] else [c.text];
    var body := c.indent + c.text + c.pad;
    if |chunks| == 1 {
      assert ReadLines(p, ChunkLines(chunks)) == ReadLine(p, body) by {
        ReadLinesCons(p, body, []);
        AppendNil([body]);
      }
      assert Texts(chunks) == piece by {
        AppendNil(piece);
      }
      hide Texts, ChunkLines, ReadLines;
      ReadLast(p, c);
    } else {
      hide ReadLines, Flush, HasSuffix;
      var p1 := p.(current := p.current + piece);
      assert ReadLines(p, ChunkLines(chunks)) == ReadLines(p1, ChunkLines(rest)) by {
        ReadContinued(p, c);
        ReadLinesCons(p, body + "\\" + c.trail, ChunkLines(rest));
      }
      assert p1.current + Texts(rest) == p.current + Texts(chunks) by {
        AppendAssoc(p.current, piece, Texts(rest));
      }
      hide Texts, ChunkLines, ReadLine;
      ReadChunks(p1, rest);
    }
  }

  lemma ReadLinesCons(p: Parse, line: string, rest: seq<string>)
    ensures ReadLines(p, [line] + rest) == ReadLines(ReadLine(p, line), rest)
  {
    assert ([line] + rest)[1..] == rest;
  }

  lemma {:induction false} WordOf(k: string, rest: string)
    requires All(k, c => !IsSpace(c)) && (rest == "" || IsSpace(rest[0]))
    ensures Word(k + rest) == k
  {
    if k == [] {
      assert k + rest == rest;
    } else {
      assert (k + rest)[1..] == k[1..] + rest;
      WordOf(k[1..], rest);
    }
  }

  // A line that starts with a word has it as its first field.
  lemma FirstField(k: string, rest: string)
    requires k != "" && All(k, c => !IsSpace(c)) && (rest == "" || IsSpace(rest[0]))
    ensures Fields(k + rest) != [] && Fields(k + rest)[0] == k
  {
    assert (k + rest)[0] == k[0] && !IsSpace(k[0]);
    WordOf(k, rest);
  }

  lemma SpelledKeyword(spelled: string, x: Instruction)
    requires WellFormed(x) && Spells(spelled, x)
    ensures All(spelled[..|x.keyword|], c => !IsSpace(c))
  {
    var k := spelled[..|x.keyword|];
    forall i | 0 <= i < |k| ensures !IsSpace(k[i]) {
      assert Lower(k[i]) == x.keyword[i];
    }
  }

  // The logical line reads as the instruction it spells.
  lemma InterpretSpelled(spelled: string, x: Instruction)
    requires WellFormed(x) && Spells(spelled, x)
    ensures Interpret(spelled) == [x]
  {
    var n := |x.keyword|;
    var k, rest := spelled[..n], spelled[n..];
    SpelledKeyword(spelled, x);
    assert spelled == k + rest;
    FirstField(k, rest);
    assert TrimSpace(rest) == x.value by {
      if x.value == "" {
        TrimSpacePad("", "", "");
        assert "" + "" + "" == "";
      } else {
        TrimSpacePad(" ", x.value, "");
        assert " " + x.value + "" == " " + x.value;
      }
    }
    hide Fields, TrimSpace;
  }

  // One item adds its instruction, if it prints one.
  lemma ReadItem(out: seq<Instruction>, item: Item)
    requires ItemOk(item)
    ensures ReadLines(Parse([], out), ItemLines(item))
         == Parse([], out + if item.Print? then [item.instruction] else [])
  {
    if item.Print? {
      ReadChunks(Parse([], out), item.chunks);
      hide ReadLine, ReadLines;
      InterpretSpelled(Spelled(item.chunks), item.instruction);
      assert [] + Texts(item.chunks) == Texts(item.chunks);
    } else {
      SkippedIs(item.line);
      ReadLinesCons(Parse([], out), item.line, []);
      assert [item.line] + [] == [item.line];
      assert out + [] == out;
    }
  }

  lemma {:induction false} ReadItems(out: seq<Instruction>, items: seq<Item>)
    requires forall i | 0 <= i < |items| :: ItemOk(items[i])
    ensures ReadLines(Parse([], out), Lines(items)) == Parse([], out + Printed(items))
    decreases |items|
  {
    if items == [] {
      assert out + [] == out;
    } else {
      hide ReadLines, ItemOk, ItemLines;
      var item, rest := items[0], items[1..];
      var out1 := out + if item.Print? then [item.instruction] else [];
      assert ReadLines(Parse([], out), Lines(items)) == ReadLines(Parse([], out1), Lines(rest)) by {
        ReadItem(out, item);
        ReadLinesAppend(Parse([], out), ItemLines(item), Lines(rest));
      }
      assert out + Printed(items) == out1 + Printed(rest) by {
        AppendAssoc(out, if item.Print? then [item.instruction] else [], Printed(rest));
      }
      hide Printed, Lines;
      ReadItems(out1, rest);
    }
  }

  lemma {:induction false} ChunkLinesFree(chunks: seq<Chunk>)
    requires forall i | 0 <= i < |chunks| :: ChunkOk(chunks[i])
    ensures forall i | 0 <= i < |ChunkLines(chunks)| :: Free(ChunkLines(chunks)[i], '\n')
  {
    if |chunks| > 1 {
      TrailIsTrailing(chunks[0]);
      ChunkLinesFree(chunks[1..]);
    }
  }

  lemma {:induction false} LinesFree(items: seq<Item>)
    requires forall i | 0 <= i < |items| :: ItemOk(items[i])
    ensures forall i | 0 <= i < |Lines(items)| :: Free(Lines(items)[i], '\n')
    ensures items != [] ==> Lines(items) != []
  {
    if items != [] {
      if items[0].Print? {
        ChunkLinesFree(items[0].chunks);
      }
      LinesFree(items[1..]);
    }
  }

  lemma NothingThere()
    ensures Instructions("") == []
  {
    assert Split("", '\n') == [""];
    assert Skipped("") by {
      assert TrimLeft("", IsSpace) == "";
    }
    assert ReadLines(START, [""]) == START by {
      assert [""][1..] == [];
    }
  }

  /** Layout invariance: however a list of instructions is laid out (lines broken at single spaces with
      backslashes, indentation, trailing blanks, any capitalisation of keywords, empty and comment lines
      between instructions), parsing the text gives exactly the list. */
  lemma LayoutInvariance(items: seq<Item>)
    requires forall i | 0 <= i < |items| :: ItemOk(items[i])
    ensures Instructions(Join(Lines(items), "\n")) == Printed(items)
  {
    if items == [] {
      NothingThere();
      return;
    }
    LinesFree(items);
    SplitJoin(Lines(items), '\n');
    ReadItems([], items);
    assert [] + Printed(items) == Printed(items);
  }

  // ---- joining two texts -----------------------------------------------------------------------------------

  // The segments of an instruction that the text leaves unfinished.
  function PendingSegments(content: string): seq<string> {
    ReadLines(START, Split(content, '\n')).current
  }

  lemma {:induction false} ReadLinesOut(current: seq<string>, out: seq<Instruction>, lines: seq<string>)
    ensures var q := ReadLines(Parse(current, []), lines);
      ReadLines(Parse(current, out), lines) == Parse(q.current, out + q.out)
    decreases |lines|
  {
    if lines == [] {
      assert out + [] == out;
    } else {
      var q := ReadLine(Parse(current, []), lines[0]);
      assert ReadLine(Parse(current, out), lines[0]) == Parse(q.current, out + q.out) by {
        assert out + [] == out;
        assert forall x: seq<Instruction> :: [] + x == x;
      }
      ReadLinesOut(q.current, out + q.out, lines[1..]);
      ReadLinesOut(q.current, q.out, lines[1..]);
      var r := ReadLines(Parse(q.current, []), lines[1..]);
      assert (out + q.out) + r.out == out + (q.out + r.out);
    }
  }

  /** Instruction lists concatenate when two texts are joined at a point where nothing is pending. */
  lemma TextsConcatenate(a: string, b: string)
    requires PendingSegments(a) == []
    ensures Instructions(a + "\n" + b) == Instructions(a) + Instructions(b)
  {
    SplitAppend(a, '\n', b);
    assert a + "\n" + b == a + ['\n'] + b;
    ReadLinesAppend(START, Split(a, '\n'), Split(b, '\n'));
    var p := ReadLines(START, Split(a, '\n'));
    ReadLinesOut([], p.out, Split(b, '\n'));
    var q := ReadLines(START, Split(b, '\n'));
    assert p.out + (q.out + Interpret(Join(q.current, " "))) == (p.out + q.out) + Interpret(Join(q.current, " "));
  }

  // ---- comments and empty lines -----------------------------------------------------------------------------

  // Stripping blanks and a trailing backslash from a comment leaves text.
  lemma CommentHasText(rawLine: string)
    requires HasPrefix(TrimSpace(rawLine), "#")
    ensures var line := TrimRight(rawLine, IsTrailing);
      && (HasSuffix(line, "\\") ==> TrimSpace(line[..|line| - 1]) != "")
      && TrimSpace(line) != ""
  {
    var line := TrimRight(rawLine, IsTrailing);
    assert '#' in rawLine by {
      TrimSpaceFrom(rawLine);
      assert TrimSpace(rawLine)[0] == '#';
    }
    var i :| 0 <= i < |rawLine| && rawLine[i] == '#';
    TrimRightKeeps(rawLine, i, IsTrailing);
    hide TrimRight, TrimSpace;
    NotBlank(line, '#');
    if HasSuffix(line, "\\") {
      assert line[|line| - 1] == line[|line| - 1..][0] == '\\';
      assert line[..|line| - 1][i] == '#';
      NotBlank(line[..|line| - 1], '#');
    }
  }

  lemma {:induction false} TrimLeftFrom(s: string, cut: char -> bool)
    ensures forall c | c in TrimLeft(s, cut) :: c in s
  {
    if s != [] && cut(s[0]) {
      TrimLeftFrom(s[1..], cut);
    }
  }

  // Trimming brings no character in.
  lemma TrimSpaceFrom(s: string)
    ensures forall c | c in TrimSpace(s) :: c in s
  {
    TrimLeftFrom(s, IsSpace);
    TrimRightPrefix(TrimLeft(s, IsSpace), IsSpace);
  }

  lemma BlankEndsNothing(rawLine: string)
    requires TrimSpace(rawLine) == ""
    ensures !HasSuffix(TrimRight(rawLine, IsTrailing), "\\")
  {
    var line := TrimRight(rawLine, IsTrailing);
    if HasSuffix(line, "\\") {
      assert line[|line| - 1] == line[|line| - 1..][0] == '\\';
      TrimRightPrefix(rawLine, IsTrailing);
      assert rawLine[|line| - 1] == '\\';
      NotBlank(rawLine, '\\');
    }
  }

  lemma {:induction false} TrimTrailing(rawLine: string)
    ensures TrimSpace(TrimRight(rawLine, IsTrailing)) == TrimSpace(rawLine)
    decreases |rawLine|
  {
    if rawLine != [] && IsTrailing(rawLine[|rawLine| - 1]) {
      var init, last := rawLine[..|rawLine| - 1], rawLine[|rawLine| - 1];
      assert rawLine == init + [last];
      TrimSpaceOuter(init, last);
      TrimTrailing(init);
    }
  }

  // What a comment adds to a pending instruction: its text, without a final backslash.
  function CommentText(rawLine: string): string {
    var line := TrimRight(rawLine, IsTrailing);
    if HasSuffix(line, "\\") then TrimSpace(line[..|line| - 1]) else TrimSpace(rawLine)
  }

  // The line is a comment, rather than blank.
  predicate IsComment(line: string) {
    exists i | 0 <= i < |line| :: All(line[..i], IsSpace) && line[i] == '#'
  }

  lemma CommentIs(line: string)
    ensures IsComment(line) <==> HasPrefix(TrimSpace(line), "#")
    ensures BlankOrComment(line) <==> IsComment(line) || TrimSpace(line) == ""
  {
    SkippedIs(line);
    IndentOf(line);
    var t := TrimLeft(line, IsSpace);
    var n := |line| - |t|;
    TrimFront(t);
    if i :| 0 <= i < |line| && All(line[..i], IsSpace) && line[i] == '#' {
      assert forall j | 0 <= j < i :: line[..i][j] == line[j];
      assert i == n;
    }
    if HasPrefix(TrimSpace(line), "#") {
      assert All(line[..n], IsSpace) && line[n] == '#';
    }
  }

  /** A comment or blank line is passed over if and only if no instruction is pending. After a continuation
      a comment adds its text, and ends the instruction unless it is continued itself; a blank line ends
      the instruction. */
  lemma SkippedExactly(p: Parse, rawLine: string)
    requires BlankOrComment(rawLine)
    ensures ReadLine(p, rawLine) == p <==> p.current == []
    ensures p.current != [] && IsComment(rawLine) ==>
      var p1 := p.(current := p.current + [CommentText(rawLine)]);
      CommentText(rawLine) != "" &&
      ReadLine(p, rawLine) == if HasSuffix(TrimRight(rawLine, IsTrailing), "\\") then p1 else Flush(p1)
    ensures p.current != [] && !IsComment(rawLine) ==> ReadLine(p, rawLine) == Flush(p)
  {
    SkippedIs(rawLine);
    CommentIs(rawLine);
    hide BlankOrComment, IsComment;
    if p.current != [] {
      TrimTrailing(rawLine);
      if TrimSpace(rawLine) == "" {
        BlankEndsNothing(rawLine);
      } else {
        CommentHasText(rawLine);
      }
      hide TrimRight, TrimSpace, Interpret;
    }
  }

  /** Blanks, tabs and carriage returns at the end of a line, after a backslash or not, change nothing. */
  lemma TrailingIgnored(p: Parse, line: string, c: char)
    requires c == ' ' || c == '\t' || c == '\r'
    ensures ReadLine(p, line + [c]) == ReadLine(p, line)
  {
    TrimSpaceOuter(line, c);
    assert (line + [c])[..|line|] == line;
  }

  /** A comment or empty line put in where nothing is pending changes no instruction. */
  lemma InsertSkipped(a: string, line: string, b: string)
    requires PendingSegments(a) == [] && BlankOrComment(line) && Free(line, '\n')
    ensures Instructions(a + "\n" + line + "\n" + b) == Instructions(a + "\n" + b)
  {
    var p := ReadLines(START, Split(a, '\n'));
    assert a + "\n" + line + "\n" + b == (a + "\n" + line) + ['\n'] + b;
    assert a + "\n" + line == a + ['\n'] + line && a + "\n" + b == a + ['\n'] + b;
    SplitAppend(a + "\n" + line, '\n', b);
    SplitAppend(a, '\n', line);
    SplitFree(line, '\n');
    SplitAppend(a, '\n', b);
    hide Split, Skipped;
    ReadLinesAppend(START, Split(a, '\n') + [line], Split(b, '\n'));
    ReadLinesAppend(START, Split(a, '\n'), [line]);
    ReadLinesAppend(START, Split(a, '\n'), Split(b, '\n'));
    ReadLinesCons(p, line, []);
    AppendNil([line]);
    SkippedExactly(p, line);
  }

  // One run instruction laid out on two lines.
  function TwoChunks(second: Chunk): seq<Chunk> { [Chunk("", "RUN a", " ", ""), second] }

  function RunValue(second: Chunk): string { if second.text == "" then "a" else "a" + " " + second.text }

  lemma TwoLinesSpell(second: Chunk)
    ensures Spelled(TwoChunks(second)) == "RUN " + RunValue(second)
  {
    hide Join;
    assert TwoChunks(second)[1..] == [second] && [second][1..] == [];
    assert Texts([second]) == if second.text == "" then [] else [second.text];
    assert Texts(TwoChunks(second)) == ["RUN a"] + if second.text == "" then [] else [second.text];
    hide Texts;
    JoinTwo("RUN a", second.text);
    assert "RUN " + "a" == "RUN a";
    AppendAssoc("RUN ", "a", " " + second.text);
    AppendAssoc("RUN a", " ", second.text);
    AppendAssoc("a", " ", second.text);
    AppendNil(["RUN a"]);
  }

  lemma JoinTwo(a: string, b: string)
    ensures Join([a], " ") == a && Join([a] + [b], " ") == a + " " + b
  {
    assert ([a] + [b])[1..] == [b];
  }

  lemma SpelledRun(value: string)
    requires value != ""
    ensures Spells("RUN " + value, Instruction("run", value))
  {
    var spelled := "RUN " + value;
    assert spelled[..3] == "RUN" && spelled[3..] == " " + value;
    assert ToLower("RUN") == "run";
  }

  lemma TwoLinesText(x: Instruction, second: Chunk)
    ensures Join(Lines([Print(x, TwoChunks(second))]), "\n")
         == "RUN a \\" + "\n" + (second.indent + second.text + second.pad)
  {
    var item := Print(x, TwoChunks(second));
    var lines := ["RUN a \\", second.indent + second.text + second.pad];
    assert TwoChunks(second)[1..] == [second] && [item][1..] == [] && lines[1..] == [lines[1]];
    assert "" + "RUN a" + " " + "\\" + "" == "RUN a \\";
    assert ChunkLines(TwoChunks(second)) == lines;
    AppendNil(lines);
  }

  lemma FirstChunkOk()
    ensures ChunkOk(Chunk("", "RUN a", " ", ""))
  {
  }

  lemma RunValueOk(second: Chunk)
    requires ChunkOk(second)
    ensures WellFormed(Instruction("run", RunValue(second)))
  {
    var value := RunValue(second);
    assert value[0] == 'a';
    assert value[|value| - 1] == if second.text == "" then 'a' else second.text[|second.text| - 1];
  }

  lemma TwoLinesOk(second: Chunk)
    requires ChunkOk(second) && !HasSuffix(second.text, "\\")
    ensures ItemOk(Print(Instruction("run", RunValue(second)), TwoChunks(second)))
  {
    hide ChunkOk, HasSuffix, RunValue, WellFormed, Spells, Spelled;
    FirstChunkOk();
    RunValueOk(second);
    TwoLinesSpell(second);
    assert RunValue(second) != "" by { RunValueStarts(second); }
    SpelledRun(RunValue(second));
  }

  lemma RunValueStarts(second: Chunk)
    ensures RunValue(second) != ""
  {
  }

  lemma TwoLines(second: Chunk)
    requires ChunkOk(second) && !HasSuffix(second.text, "\\")
    ensures Instructions("RUN a \\" + "\n" + (second.indent + second.text + second.pad))
         == [Instruction("run", RunValue(second))]
  {
    hide Instructions, Lines, Spelled, HasSuffix, ChunkOk, Join, RunValue, ItemOk;
    var x := Instruction("run", RunValue(second));
    TwoLinesText(x, second);
    TwoLinesOk(second);
    AppendNil([x]);
    assert [Print(x, TwoChunks(second))][1..] == [];
    LayoutInvariance([Print(x, TwoChunks(second))]);
  }

  /** A comment after a continuation does change the instruction: it becomes part of it. */
  lemma CommentBecomesContent()
    ensures Instructions("RUN a \\" + "\n" + "") == [Instruction("run", "a")]
    ensures Instructions("RUN a \\" + "\n" + "# b") == [Instruction("run", "a # b")]
  {
    TwoLines(Chunk("", "", "", ""));
    assert "" + "" + "" == "" && "" + "# b" + "" == "# b" && "a" + " " + "# b" == "a # b";
    TwoLines(Chunk("", "# b", "", ""));
  }
}
