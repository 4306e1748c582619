/** The shell lines of a GitHub Actions workflow: `extractRunLines` (internal/parser/ciparser.go). */
module RunLines {
  import opened Options
  import opened Strings

  predicate IsBlank(c: char) { c == ' ' || c == '\t' }

  // ---- what the line loop computes -------------------------------------------------------------------

  // The indentation of the block scalar being read, if any, and the lines extracted so far.
  datatype Scan = Scan(open: Option<nat>, out: seq<string>)

  lemma {:induction false} TrimLeftLength(s: string, cut: char -> bool)
    ensures |TrimLeft(s, cut)| <= |s|
  {
    if s != [] && cut(s[0]) {
      TrimLeftLength(s[1..], cut);
    }
  }

  function Indent(raw: string): nat {
    TrimLeftLength(raw, IsBlank);
    |raw| - |TrimLeft(raw, IsBlank)|
  }

  function Normalise(trimmed: string): string {
    if HasPrefix(trimmed, "- ") then trimmed[2..] else trimmed
  }

  predicate IsRunLine(normalised: string) {
    HasPrefix(ToLower(normalised), "run:")
  }

  predicate IsBlockHeader(rest: string) {
    rest == "" || rest == "|" || rest == ">"
    || HasPrefix(rest, "|-") || HasPrefix(rest, ">-") || HasPrefix(rest, "|2")
  }

  // A line outside any block scalar.
  function ReadKey(out: seq<string>, trimmed: string, indent: nat): Scan {
    var normalised := Normalise(trimmed);
    if !IsRunLine(normalised) then Scan(None, out)
    else
      var rest := TrimSpace(normalised[4..]);
      if IsBlockHeader(rest) then Scan(Some(indent), out)
      else Scan(None, out + [TrimMatchingQuotes(rest)])
  }

  function ReadLine(s: Scan, raw: string): Scan {
    var trimmed := TrimSpace(raw);
    if s.open.Some? && trimmed == "" then s
    else if s.open.Some? && Indent(raw) > s.open.value then s.(out := s.out + [trimmed])
    else ReadKey(s.out, trimmed, Indent(raw))
  }

  function ReadLines(s: Scan, lines: seq<string>): Scan
    decreases |lines|
  {
    if lines == [] then s else ReadLines(ReadLine(s, lines[0]), lines[1..])
  }

  function RunLinesOf(content: string): seq<string> {
    ReadLines(Scan(None, []), Split(content, '\n')).out
  }

  method ExtractRunLines(content: string) returns (result: seq<string>)
    ensures result == RunLinesOf(content)
  {
    var lines := Split(content, '\n');
    result := [];
    var inBlock := false;
    var blockIndent: nat := 0;
    var i := 0;
    while i < |lines|
      invariant i <= |lines|
      invariant ReadLines(Scan(if inBlock then Some(blockIndent) else None, result), lines[i..])
             == ReadLines(Scan(None, []), lines)
    {
      var raw := lines[i];
      assert lines[i..][1..] == lines[i + 1..];
      i := i + 1;
      var trimmed := TrimSpace(raw);
      var indent := Indent(raw);
      if inBlock {
        if trimmed == "" {
          continue;
        }
        if indent <= blockIndent {
          inBlock := false;
        } else {
          result := result + [trimmed];
          continue;
        }
      }
      var normalised := Normalise(trimmed);
      if !HasPrefix(ToLower(normalised), "run:") {
        continue;
      }
      var rest := TrimSpace(normalised[4..]);
      if IsBlockHeader(rest) {
        inBlock, blockIndent := true, indent;
        continue;
      }
      result := result + [TrimMatchingQuotes(rest)];
    }
  }

  // ---- printing a workflow ------------------------------------------------------------------------------

  // A line of a block scalar; an empty text makes it a blank line.
  datatype BodyLine = BodyLine(indent: string, text: string, tail: string)

  datatype Item =
    | Blank(line: string)
    | Other(indent: string, text: string, tail: string)                  // any line but a run key
    | Inline(indent: string, key: string, gap: string, command: string, quote: Option<char>, tail: string)
    | Block(indent: string, key: string, gap: string, header: string, tail: string, body: seq<BodyLine>)

  predicate IsIndent(s: string) { forall c | c in s :: c == ' ' || c == '\t' }

  // `run:` in any capitalisation, perhaps after a list marker.
  predicate IsRunKey(key: string) {
    || (|key| == 4 && ToLower(key) == "run:")
    || (|key| == 6 && key[..2] == "- " && ToLower(key[2..]) == "run:")
  }

  // The text does not start with such a key.
  predicate IsOtherText(text: string) {
    !HasPrefix(ToLower(text), "run:") && !HasPrefix(ToLower(text), "- run:")
  }

  function Written(command: string, quote: Option<char>): string {
    match quote
    case None => command
    case Some(q) => [q] + command + [q]
  }

  predicate CommandOk(command: string, quote: Option<char>) {
    Free(command, '\n') &&
    match quote
    case None => Trimmed(command) && !IsBlockHeader(command) && TrimMatchingQuotes(command) == command
    case Some(q) => q == '"' || q == '\''
  }

  predicate BodyOk(body: seq<BodyLine>, indent: nat) {
    forall i | 0 <= i < |body| ::
      var l := body[i];
      && IsIndent(l.indent) && IsPadding(l.tail) && Free(l.text, '\n')
      && (l.text == "" || (Trimmed(l.text) && |l.indent| > indent))
  }

  // How a block scalar may be introduced: by nothing, or by `|` or `>` and any indicators and comment.
  predicate IsHeaderText(header: string) {
    header == "" || (Trimmed(header) && (header[0] == '|' || header[0] == '>'))
  }

  // The code takes the line for the start of a block scalar.
  predicate Known(item: Item) { item.Block? ==> IsBlockHeader(item.header) }

  predicate ItemOk(item: Item) {
    match item
    case Blank(line) => IsPadding(line)
    case Other(indent, text, tail) =>
      IsIndent(indent) && IsPadding(tail) && Trimmed(text) && Free(text, '\n') && IsOtherText(text)
    case Inline(indent, key, gap, command, quote, tail) =>
      IsIndent(indent) && IsRunKey(key) && IsPadding(gap) && IsPadding(tail) && CommandOk(command, quote)
    case Block(indent, key, gap, header, tail, body) =>
      IsIndent(indent) && IsRunKey(key) && IsPadding(gap) && IsPadding(tail)
      && IsHeaderText(header) && Free(header, '\n')
      && BodyOk(body, |indent|)
  }

  // The item's line without indentation and trailing white space.
  function KeyText(item: Item): string {
    match item
    case Blank(_) => ""
    case Other(_, text, _) => text
    case Inline(_, key, gap, command, quote, _) => key + gap + Written(command, quote)
    case Block(_, key, gap, header, _, _) => if header == "" then key else key + gap + header
  }

  function KeyTail(item: Item): string {
    match item
    case Blank(line) => line
    case Block(_, _, gap, header, tail, _) => if header == "" then gap + tail else tail
    case _ => item.tail
  }

  function KeyIndent(item: Item): string {
    if item.Blank? then "" else item.indent
  }

  function KeyLine(item: Item): string { KeyIndent(item) + KeyText(item) + KeyTail(item) }

  function BodyLines(body: seq<BodyLine>): seq<string> {
    if body == [] then [] else [body[0].indent + body[0].text + body[0].tail] + BodyLines(body[1..])
  }

  function BodyTexts(body: seq<BodyLine>): seq<string> {
    if body == [] then []
    else (if body[0].text == "" then [] else [body[0].text]) + BodyTexts(body[1..])
  }

  function ItemLines(item: Item): seq<string> {
    [KeyLine(item)] + if item.Block? then BodyLines(item.body) else []
  }

  function Lines(items: seq<Item>): seq<string> {
    if items == [] then [] else ItemLines(items[0]) + Lines(items[1..])
  }

  // The commands the items hold.
  function ItemCommands(item: Item): seq<string> {
    match item
    case Inline(_, _, _, command, _, _) => [command]
    case Block(_, _, _, _, _, body) => BodyTexts(body)
    case _ => []
  }

  function Commands(items: seq<Item>): seq<string> {
    if items == [] then [] else ItemCommands(items[0]) + Commands(items[1..])
  }

  // The line stands deeper than the block scalar being read.
  predicate IsSwallowed(open: Option<nat>, item: Item) {
    open.Some? && !item.Blank? && |item.indent| > open.value
  }

  function OpenAfter(open: Option<nat>, item: Item): Option<nat> {
    match item
    case Blank(_) => open
    case Block(indent, _, _, _, _, _) => Some(|indent|)
    case _ => None
  }

  // No item is indented deeper than the run key whose block scalar it follows.
  predicate Fits(open: Option<nat>, items: seq<Item>)
    decreases |items|
  {
    items != [] ==> !IsSwallowed(open, items[0]) && Fits(OpenAfter(open, items[0]), items[1..])
  }

  // ---- reading printed lines ----------------------------------------------------------------------------

  lemma OtherIsNoRunLine(text: string)
    requires IsOtherText(text)
    ensures !IsRunLine(Normalise(text))
  {
    if HasPrefix(text, "- ") {
      assert text[0] == "- "[0] && text[1] == "- "[1];
      var lower, rest := ToLower(text), ToLower(text[2..]);
      assert lower == "- " + rest;
    }
  }

  lemma RunKeyIs(key: string)
    requires IsRunKey(key)
    ensures ToLower(Normalise(key)) == "run:" && (HasPrefix(key, "- ") || |key| == 4)
  {
    if |key| == 4 {
      assert ToLower(key)[0] == 'r';
      assert key[0] != '-';
    }
  }

  lemma IndentIsBlank(indent: string)
    requires IsIndent(indent)
    ensures All(indent, IsBlank) && All(indent, IsSpace)
  {
    forall i | 0 <= i < |indent| ensures IsBlank(indent[i]) {
      assert indent[i] in indent;
    }
  }

  lemma PaddedLine(indent: string, text: string, tail: string)
    requires IsIndent(indent) && All(tail, IsSpace) && Trimmed(text)
    ensures TrimSpace(indent + text + tail) == text && Indent(indent + text + tail) == |indent|
  {
    IndentIsBlank(indent);
    TrimSpacePad(indent, text, tail);
    AppendAssoc(indent, text, tail);
    TrimLeftPad(indent, text + tail, IsBlank);
  }

  lemma BlankLine(indent: string, tail: string)
    requires IsIndent(indent) && All(tail, IsSpace)
    ensures TrimSpace(indent + "" + tail) == ""
  {
    IndentIsBlank(indent);
    TrimSpacePad(indent, "", tail);
  }

  lemma {:induction false} ReadBody(b: nat, out: seq<string>, body: seq<BodyLine>, indent: nat)
    requires BodyOk(body, indent) && b <= indent
    ensures ReadLines(Scan(Some(b), out), BodyLines(body)) == Scan(Some(b), out + BodyTexts(body))
    decreases |body|
  {
    if body == [] {
      AppendNil(out);
    } else {
      var l, rest := body[0], body[1..];
      var piece := if l.text == "" then [] else [l.text];
      assert ReadLine(Scan(Some(b), out), l.indent + l.text + l.tail) == Scan(Some(b), out + piece) by {
        if l.text == "" {
          BlankLine(l.indent, l.tail);
          AppendNil(out);
        } else {
          PaddedLine(l.indent, l.text, l.tail);
        }
      }
      hide ReadLine, Trimmed;
      ReadLinesCons(Scan(Some(b), out), l.indent + l.text + l.tail, BodyLines(rest));
      ReadBody(b, out + piece, rest, indent);
      AppendAssoc(out, piece, BodyTexts(rest));
    }
  }

  lemma ReadLinesCons(s: Scan, line: string, rest: seq<string>)
    ensures ReadLines(s, [line] + rest) == ReadLines(ReadLine(s, line), rest)
  {
    assert ([line] + rest)[1..] == rest;
  }

  lemma {:induction false} ReadLinesAppend(s: Scan, a: seq<string>, b: seq<string>)
    ensures ReadLines(s, a + b) == ReadLines(ReadLines(s, a), b)
    decreases |a|
  {
    if a == [] {
      AppendNil(b);
    } else {
      assert (a + b)[1..] == a[1..] + b;
      hide ReadLine;
      ReadLinesAppend(ReadLine(s, a[0]), a[1..], b);
    }
  }

  // A run key and its value, as ReadKey sees them.
  lemma ReadRunKey(out: seq<string>, key: string, gap: string, value: string, indent: nat)
    requires IsRunKey(key) && All(gap, IsSpace) && (value == "" ==> gap == "") && (value == "" || Trimmed(value))
    ensures ReadKey(out, key + gap + value, indent)
         == if IsBlockHeader(value) then Scan(Some(indent), out) else Scan(None, out + [TrimMatchingQuotes(value)])
  {
    var text := key + gap + value;
    RunKeyIs(key);
    var k := Normalise(key);
    assert |k| == 4 by { assert |ToLower(k)| == |k|; }
    assert Normalise(text) == k + gap + value;
    assert ToLower(k + gap + value)[..4] == ToLower(k);
    assert (k + gap + value)[4..] == gap + value + "";
    TrimSpacePad(gap, value, "");
  }

  lemma RunKeyEnds(key: string)
    requires IsRunKey(key)
    ensures Trimmed(key)
  {
    RunKeyIs(key);
    var k := Normalise(key);
    assert |k| == 4 by { assert |ToLower(k)| == |k|; }
    assert ToLower(k)[0] == 'r' && ToLower(k)[3] == ':';
    assert key[|key| - 1] == k[3];
  }

  lemma WrittenTrimmed(command: string, quote: Option<char>)
    requires CommandOk(command, quote)
    ensures Trimmed(Written(command, quote)) && !IsBlockHeader(Written(command, quote))
    ensures TrimMatchingQuotes(Written(command, quote)) == command
  {
    var w := Written(command, quote);
    if quote.Some? {
      assert w[0] == quote.value && w[|w| - 1] == quote.value && w[1..|w| - 1] == command;
    }
  }

  lemma KeyTextTrimmed(item: Item)
    requires ItemOk(item) && !item.Blank?
    ensures Trimmed(KeyText(item)) && All(KeyTail(item), IsSpace)
  {
    match item
    case Other(_, _, _) =>
    case Inline(_, key, gap, command, quote, _) =>
      RunKeyEnds(key);
      WrittenTrimmed(command, quote);
      EndsOf(key, gap, Written(command, quote));
    case Block(_, key, gap, header, _, _) =>
      RunKeyEnds(key);
      if header != "" {
        EndsOf(key, gap, header);
      }
  }

  lemma EndsOf(a: string, b: string, c: string)
    requires Trimmed(a) && Trimmed(c)
    ensures Trimmed(a + b + c)
  {
    var s := a + b + c;
    assert s[0] == a[0] && s[|s| - 1] == c[|c| - 1];
  }

  // An item's first line, taken as a key.
  lemma ReadKeyText(out: seq<string>, item: Item)
    requires ItemOk(item) && !item.Blank?
    ensures ReadKey(out, KeyText(item), |item.indent|)
         == if Known(item) then Scan(OpenAfter(None, item), out + if item.Inline? then [item.command] else [])
            else Scan(None, out + [item.header])
  {
    AppendNil(out);
    match item
    case Other(_, text, _) => OtherIsNoRunLine(text);
    case Inline(indent, key, gap, command, quote, _) =>
      WrittenTrimmed(command, quote);
      ReadRunKey(out, key, gap, Written(command, quote), |indent|);
    case Block(indent, key, gap, header, _, _) =>
      if header == "" {
        AppendNil(key);
        AppendNil(key + "");
        ReadRunKey(out, key, "", "", |indent|);
      } else {
        ReadRunKey(out, key, gap, header, |indent|);
      }
  }

  // The lines an item really contributes, given the block scalar being read.
  function Contributed(open: Option<nat>, item: Item): seq<string> {
    if IsSwallowed(open, item) then [KeyText(item)] + (if item.Block? then BodyTexts(item.body) else [])
    else ItemCommands(item)
  }

  function OpenThen(open: Option<nat>, item: Item): Option<nat> {
    if IsSwallowed(open, item) then open else OpenAfter(open, item)
  }

  lemma ReadFirstLine(open: Option<nat>, out: seq<string>, item: Item)
    requires ItemOk(item) && (IsSwallowed(open, item) || Known(item))
    ensures ReadLine(Scan(open, out), KeyLine(item))
         == Scan(OpenThen(open, item),
                 out + if IsSwallowed(open, item) then [KeyText(item)]
                       else if item.Inline? then [item.command] else [])
  {
    AppendNil(out);
    if item.Blank? {
      BlankLine("", item.line);
      assert Normalise("") == "" && ToLower("") == "";
    } else {
      KeyTextTrimmed(item);
      PaddedLine(item.indent, KeyText(item), KeyTail(item));
      ReadKeyText(out, item);
      hide ReadKey, KeyText, KeyTail, ItemOk, Indent, TrimSpace;
    }
  }

  lemma ReadItem(open: Option<nat>, out: seq<string>, item: Item)
    requires ItemOk(item) && (IsSwallowed(open, item) || Known(item))
    ensures ReadLines(Scan(open, out), ItemLines(item))
         == Scan(OpenThen(open, item), out + Contributed(open, item))
  {
    var first := if IsSwallowed(open, item) then [KeyText(item)] else if item.Inline? then [item.command] else [];
    ReadFirstLine(open, out, item);
    hide ReadLine, KeyText, KeyLine;
    var body := if item.Block? then BodyLines(item.body) else [];
    ReadLinesCons(Scan(open, out), KeyLine(item), body);
    if item.Block? {
      ReadBody(OpenThen(open, item).value, out + first, item.body, |item.indent|);
      AppendAssoc(out, first, BodyTexts(item.body));
      AppendNil(BodyTexts(item.body));
    } else {
      AppendNil(first);
    }
  }

  function ContributedAll(open: Option<nat>, items: seq<Item>): seq<string>
    decreases |items|
  {
    if items == [] then []
    else Contributed(open, items[0]) + ContributedAll(OpenThen(open, items[0]), items[1..])
  }

  // Every block header that is met outside another block scalar is known.
  predicate Recognised(open: Option<nat>, items: seq<Item>)
    decreases |items|
  {
    items != [] ==>
      (IsSwallowed(open, items[0]) || Known(items[0])) && Recognised(OpenThen(open, items[0]), items[1..])
  }

  lemma {:induction false} ReadItems(open: Option<nat>, out: seq<string>, items: seq<Item>)
    requires Recognised(open, items)
    requires forall i | 0 <= i < |items| :: ItemOk(items[i])
    ensures ReadLines(Scan(open, out), Lines(items)).out == out + ContributedAll(open, items)
    decreases |items|
  {
    if items == [] {
      AppendNil(out);
    } else {
      hide ReadLines, ItemOk, Contributed, OpenThen;
      var item, rest := items[0], items[1..];
      ReadItem(open, out, item);
      ReadLinesAppend(Scan(open, out), ItemLines(item), Lines(rest));
      ReadItems(OpenThen(open, item), out + Contributed(open, item), rest);
      AppendAssoc(out, Contributed(open, item), ContributedAll(OpenThen(open, item), rest));
    }
  }

  lemma {:induction false} FitsContributes(open: Option<nat>, items: seq<Item>)
    requires Fits(open, items)
    ensures ContributedAll(open, items) == Commands(items)
    decreases |items|
  {
    if items != [] {
      FitsContributes(OpenAfter(open, items[0]), items[1..]);
    }
  }

  // Scanning only adds lines.
  lemma {:induction false} ReadLinesGrows(s: Scan, lines: seq<string>)
    ensures s.out <= ReadLines(s, lines).out
    decreases |lines|
  {
    if lines != [] {
      ReadLinesGrows(ReadLine(s, lines[0]), lines[1..]);
    }
  }

  // An unknown header outside a block scalar is taken for a command.
  lemma UnknownIsCommand(open: Option<nat>, out: seq<string>, item: Item)
    requires ItemOk(item) && !IsSwallowed(open, item) && !Known(item)
    ensures ReadLine(Scan(open, out), KeyLine(item)) == Scan(None, out + [item.header])
  {
    KeyTextTrimmed(item);
    PaddedLine(item.indent, KeyText(item), KeyTail(item));
    ReadKeyText(out, item);
    hide ReadKey, KeyText, KeyTail, ItemOk, Indent, TrimSpace;
  }

  lemma {:induction false} UnknownIsExtracted(open: Option<nat>, out: seq<string>, items: seq<Item>) returns (i: nat)
    requires !Recognised(open, items) && forall i | 0 <= i < |items| :: ItemOk(items[i])
    ensures i < |items| && !Known(items[i]) && items[i].header in ReadLines(Scan(open, out), Lines(items)).out
    decreases |items|
  {
    hide ReadLines, ItemOk, Known, ReadLine, ItemLines, KeyLine;
    var item, rest := items[0], items[1..];
    ReadLinesAppend(Scan(open, out), ItemLines(item), Lines(rest));
    if IsSwallowed(open, item) || Known(item) {
      ReadItem(open, out, item);
      var j := UnknownIsExtracted(OpenThen(open, item), out + Contributed(open, item), rest);
      i := j + 1;
    } else {
      i := 0;
      UnknownIsCommand(open, out, item);
      var s1 := ReadLine(Scan(open, out), KeyLine(item));
      assert item.Block? by { UnknownIsBlock(item); }
      var body := BodyLines(item.body);
      assert ItemLines(item) == [KeyLine(item)] + body by { UnknownIsBlock(item); }
      ReadLinesCons(Scan(open, out), KeyLine(item), body);
      ReadLinesGrows(s1, body);
      ReadLinesGrows(ReadLines(s1, body), Lines(rest));
      assert s1.out[|out|] == item.header;
      PrefixMember(s1.out, ReadLines(s1, body).out, ReadLines(ReadLines(s1, body), Lines(rest)).out, |out|);
    }
  }

  lemma UnknownIsBlock(item: Item)
    requires !Known(item)
    ensures item.Block? && ItemLines(item) == [KeyLine(item)] + BodyLines(item.body)
  {
  }

  lemma PrefixMember(a: seq<string>, b: seq<string>, c: seq<string>, k: nat)
    requires k < |a| && a <= b <= c
    ensures a[k] in c
  {
    assert a[k] == c[k];
  }

  lemma {:induction false} AllKnownRecognised(open: Option<nat>, items: seq<Item>)
    requires forall i | 0 <= i < |items| :: Known(items[i])
    ensures Recognised(open, items)
    decreases |items|
  {
    if items != [] {
      AllKnownRecognised(OpenThen(open, items[0]), items[1..]);
    }
  }

  lemma {:induction false} RecognisedKnown(open: Option<nat>, items: seq<Item>)
    requires Recognised(open, items) && Fits(open, items)
    ensures forall i | 0 <= i < |items| :: Known(items[i])
    decreases |items|
  {
    if items != [] {
      RecognisedKnown(OpenAfter(open, items[0]), items[1..]);
      assert forall i | 1 <= i < |items| :: items[i] == items[1..][i - 1];
    }
  }

  // The number of characters and lines.
  function Weight(lines: seq<string>): nat {
    if lines == [] then 0 else |lines[0]| + 1 + Weight(lines[1..])
  }

  lemma {:induction false} WeightAppend(a: seq<string>, b: seq<string>)
    ensures Weight(a + b) == Weight(a) + Weight(b)
  {
    if a == [] {
      AppendNil(b);
    } else {
      assert (a + b)[1..] == a[1..] + b;
      WeightAppend(a[1..], b);
    }
  }

  lemma SwallowedWeighsMore(open: Option<nat>, item: Item)
    requires ItemOk(item)
    ensures Weight(Contributed(open, item)) >= Weight(ItemCommands(item))
    ensures IsSwallowed(open, item) ==> Weight(Contributed(open, item)) > Weight(ItemCommands(item))
  {
    if IsSwallowed(open, item) {
      if item.Block? {
        WeightAppend([KeyText(item)], BodyTexts(item.body));
      } else {
        AppendNil([KeyText(item)]);
        if item.Inline? {
          RunKeyEnds(item.key);
        }
      }
      assert [KeyText(item)][1..] == [];
      assert item.Inline? ==> [item.command][1..] == [];
    }
  }

  lemma {:induction false} ContributedWeight(open: Option<nat>, items: seq<Item>)
    requires forall i | 0 <= i < |items| :: ItemOk(items[i])
    ensures Weight(ContributedAll(open, items)) >= Weight(Commands(items))
    ensures !Fits(open, items) ==> Weight(ContributedAll(open, items)) > Weight(Commands(items))
    decreases |items|
  {
    if items != [] {
      var item, rest := items[0], items[1..];
      SwallowedWeighsMore(open, item);
      ContributedWeight(OpenThen(open, item), rest);
      hide ItemOk, Contributed, ItemCommands, Weight;
      WeightAppend(Contributed(open, item), ContributedAll(OpenThen(open, item), rest));
      WeightAppend(ItemCommands(item), Commands(rest));
    }
  }

  lemma {:induction false} BodyLinesFree(body: seq<BodyLine>, indent: nat)
    requires BodyOk(body, indent)
    ensures forall i | 0 <= i < |BodyLines(body)| :: Free(BodyLines(body)[i], '\n')
  {
    if body != [] {
      BodyLinesFree(body[1..], indent);
    }
  }

  lemma KeyLineFree(item: Item)
    requires ItemOk(item)
    ensures Free(KeyLine(item), '\n')
  {
    if item.Inline? || item.Block? {
      RunKeyFree(item.key);
    }
  }

  lemma RunKeyFree(key: string)
    requires IsRunKey(key)
    ensures Free(key, '\n')
  {
    RunKeyIs(key);
    var k := Normalise(key);
    assert |k| == 4 by { assert |ToLower(k)| == |k|; }
    assert ToLower(k)[0] == 'r' && ToLower(k)[1] == 'u' && ToLower(k)[2] == 'n' && ToLower(k)[3] == ':';
    assert key == k || key == "- " + k;
  }

  lemma {:induction false} LinesFree(items: seq<Item>)
    requires forall i | 0 <= i < |items| :: ItemOk(items[i])
    ensures forall i | 0 <= i < |Lines(items)| :: Free(Lines(items)[i], '\n')
    ensures items != [] ==> Lines(items) != []
  {
    if items != [] {
      KeyLineFree(items[0]);
      if items[0].Block? {
        BodyLinesFree(items[0].body, |items[0].indent|);
      }
      LinesFree(items[1..]);
    }
  }

  lemma NothingThere()
    ensures RunLinesOf("") == []
  {
    assert Split("", '\n') == [""] && [""][1..] == [];
    assert ReadLine(Scan(None, []), "") == Scan(None, []) by {
      BlankLine("", "");
      assert "" + "" + "" == "" && ToLower("") == "";
    }
  }

  // What is extracted while every header is known or swallowed.
  lemma Extracted(items: seq<Item>)
    requires Recognised(None, items) && items != [] && forall i | 0 <= i < |items| :: ItemOk(items[i])
    ensures RunLinesOf(Join(Lines(items), "\n")) == ContributedAll(None, items)
  {
    hide ItemOk, Recognised;
    LinesFree(items);
    SplitJoin(Lines(items), '\n');
    ReadItems(None, [], items);
    AppendNil(ContributedAll(None, items));
  }

  /** Extraction inverts printing: for a workflow printed from inline, quoted and block-scalar run steps
      with any other lines between them, the extracted lines are exactly the commands in order, if and
      only if no line stands deeper than the run key of the block scalar that it follows and every block
      header is one that the code knows. (An unknown header is taken for a command; it is asked not to be
      one of the commands, for HeaderAsCommand shows how one mistake may then hide another.) */
  lemma ExtractionInvertsPrinting(items: seq<Item>)
    requires forall i | 0 <= i < |items| :: ItemOk(items[i])
    requires forall i | 0 <= i < |items| && !Known(items[i]) :: items[i].header !in Commands(items)
    ensures RunLinesOf(Join(Lines(items), "\n")) == Commands(items)
      <==> Fits(None, items) && forall i | 0 <= i < |items| :: Known(items[i])
  {
    if items == [] {
      NothingThere();
      return;
    }
    if Recognised(None, items) {
      Extracted(items);
      hide RunLinesOf;
      if Fits(None, items) {
        FitsContributes(None, items);
        RecognisedKnown(None, items);
      } else {
        ContributedWeight(None, items);
      }
    } else {
      LinesFree(items);
      SplitJoin(Lines(items), '\n');
      var i := UnknownIsExtracted(None, [], items);
      hide ReadLines, Lines, Join, Known, ItemOk, Fits;
      if forall i | 0 <= i < |items| :: Known(items[i]) {
        AllKnownRecognised(None, items);
      }
    }
  }

  /** In particular one common indentation is enough. */
  lemma {:induction false} CommonIndentFits(open: Option<nat>, items: seq<Item>, n: nat)
    requires forall i | 0 <= i < |items| :: items[i].Blank? || |items[i].indent| == n
    requires open.Some? ==> open.value == n
    ensures Fits(open, items)
    decreases |items|
  {
    if items != [] {
      CommonIndentFits(OpenAfter(open, items[0]), items[1..], n);
    }
  }

  // ---- where extraction goes wrong -------------------------------------------------------------------------

  // A run key with the header `|+` and one line of text.
  function KeepBlock(text: string): Item { Block("", "run:", " ", "|+", "", [BodyLine("  ", text, "")]) }

  /** Under the header `|+`, which the code does not know, a command is lost and the header is extracted. */
  lemma UnknownHeaderLosesCommand(text: string)
    requires Trimmed(text) && Free(text, '\n') && IsOtherText(text)
    ensures ItemOk(KeepBlock(text)) && Commands([KeepBlock(text)]) == [text]
    ensures RunLinesOf(Join(Lines([KeepBlock(text)]), "\n")) == ["|+"]
  {
    var item, other := KeepBlock(text), Other("  ", text, "");
    KeepBlockIs(text);
    hide KeyLine, ItemOk, ReadLine, Known;
    UnknownIsCommand(None, [], item);
    ReadFirstLine(None, ["|+"], other);
    AppendNil(["|+"]);
    AppendNil([KeyLine(other)]);
    ReadLinesCons(Scan(None, []), KeyLine(item), [KeyLine(other)]);
    ReadLinesCons(Scan(None, ["|+"]), KeyLine(other), []);
    LinesFree([item]);
    SplitJoin(Lines([item]), '\n');
  }

  lemma KeepBlockIs(text: string)
    requires Trimmed(text) && Free(text, '\n') && IsOtherText(text)
    ensures ItemOk(KeepBlock(text)) && !Known(KeepBlock(text)) && Commands([KeepBlock(text)]) == [text]
    ensures var other := Other("  ", text, "");
      && ItemOk(other) && Known(other)
      && Lines([KeepBlock(text)]) == [KeyLine(KeepBlock(text))] + [KeyLine(other)]
  {
    var item, l := KeepBlock(text), "  " + text + "";
    RunKeyIsOne("run:");
    assert item.body[1..] == [] && KeyLine(Other("  ", text, "")) == l;
    hide KeyLine;
    OneItem(item);
    OneLine(item.body);
  }

  lemma RunKeyIsOne(key: string)
    requires key == "run:" || key == "- run:"
    ensures IsRunKey(key)
  {
    assert HasPrefix("- run:", "- ") && "- run:"[2..] == "run:" && "run:"[0] != "- "[0];
    var lower := ToLower("run:");
    assert lower[0] == 'r' && lower[1] == 'u' && lower[2] == 'n' && lower[3] == ':';
    assert lower == "run:";
  }

  lemma OneItem(item: Item)
    ensures Commands([item]) == ItemCommands(item) && Lines([item]) == ItemLines(item)
  {
    assert [item][1..] == [];
    AppendNil(ItemCommands(item));
    AppendNil(ItemLines(item));
  }

  lemma OneLine(body: seq<BodyLine>)
    requires |body| == 1 && body[0].text != ""
    ensures BodyTexts(body) == [body[0].text]
    ensures BodyLines(body) == [body[0].indent + body[0].text + body[0].tail]
  {
    assert body[1..] == [];
    AppendNil([body[0].text]);
    AppendNil([body[0].indent + body[0].text + body[0].tail]);
  }

  /** `run: |+` with the command `a` gives the header alone. */
  lemma HeaderIsMissed()
    ensures Commands([KeepBlock("a")]) == ["a"] && RunLinesOf(Join(Lines([KeepBlock("a")]), "\n")) == ["|+"]
  {
    UnknownHeaderLosesCommand("a");
  }

  /** A header taken for a command, and a command lost that reads the same. */
  lemma HeaderAsCommand()
    ensures Commands([KeepBlock("|+")]) == ["|+"] && RunLinesOf(Join(Lines([KeepBlock("|+")]), "\n")) == ["|+"]
  {
    UnknownHeaderLosesCommand("|+");
  }

  // A run key with this header and one line of text.
  function HeadedBlock(header: string, text: string): Item {
    Block("", "run:", " ", header, "", [BodyLine("  ", text, "")])
  }

  lemma HeadedBlockOk(header: string, text: string)
    requires IsHeaderText(header) && Free(header, '\n') && Trimmed(text) && Free(text, '\n')
    ensures ItemOk(HeadedBlock(header, text)) && Commands([HeadedBlock(header, text)]) == [text]
    ensures Fits(None, [HeadedBlock(header, text)])
  {
    var item := HeadedBlock(header, text);
    RunKeyIsOne("run:");
    OneItem(item);
    OneLine(item.body);
    assert [item][1..] == [];
  }

  /** Which headers the code knows: whatever the text under one is, it is extracted if and only if the header is
      nothing, a lone bar or `>`, or starts with a bar or `>` and a minus, or with a bar and a 2. */
  lemma KnownHeaders(header: string, text: string)
    requires IsHeaderText(header) && Free(header, '\n') && Trimmed(text) && Free(text, '\n') && text != header
    ensures RunLinesOf(Join(Lines([HeadedBlock(header, text)]), "\n")) == [text]
      <==> header in ["", "|", ">"] || "|-" <= header || ">-" <= header || "|2" <= header
  {
    var item := HeadedBlock(header, text);
    HeadedBlockOk(header, text);
    assert [item][0] == item;
    hide ItemOk, Commands, Fits, RunLinesOf, Lines, Join;
    ExtractionInvertsPrinting([item]);
  }

  // A step that starts with its run key, and the step's next key.
  const STEP_RUN := Block("", "- run:", " ", "|", "", [BodyLine("    ", "a", "")])
  const STEP_SHELL := Other("  ", "shell: bash", "")

  lemma StepOk()
    ensures ItemOk(STEP_RUN) && ItemOk(STEP_SHELL) && Known(STEP_RUN) && Known(STEP_SHELL)
  {
    RunKeyIsOne("- run:");
    assert ToLower("shell: bash")[0] == 's';
  }

  lemma SwallowedLast(open: Option<nat>, item: Item)
    requires IsSwallowed(open, item) && item.Other?
    ensures Recognised(open, [item]) && ContributedAll(open, [item]) == [KeyText(item)]
  {
    assert [item][1..] == [];
    AppendNil([KeyText(item)]);
    AppendNil([KeyText(item)] + []);
  }

  lemma FirstOfTwo(open: Option<nat>, a: Item, b: Item)
    requires IsSwallowed(open, a) || Known(a)
    ensures Recognised(open, [a, b]) == Recognised(OpenThen(open, a), [b])
    ensures ContributedAll(open, [a, b]) == Contributed(open, a) + ContributedAll(OpenThen(open, a), [b])
    ensures Commands([a, b]) == ItemCommands(a) + Commands([b])
  {
    hide IsSwallowed, Known, Contributed, OpenThen, ItemCommands;
    assert [a, b][1..] == [b];
  }

  /** The next key of a `- run: |` step is taken for a command. */
  lemma SiblingIsSwallowed()
    ensures Commands([STEP_RUN, STEP_SHELL]) == ["a"]
    ensures RunLinesOf(Join(Lines([STEP_RUN, STEP_SHELL]), "\n")) == ["a", "shell: bash"]
  {
    hide Lines, ItemOk, BodyTexts, Recognised, ContributedAll, Commands;
    StepOk();
    OneLine(STEP_RUN.body);
    OneItem(STEP_SHELL);
    FirstOfTwo(None, STEP_RUN, STEP_SHELL);
    SwallowedLast(Some(0), STEP_SHELL);
    AppendNil(["a"]);
    assert ["a"] + ["shell: bash"] == ["a", "shell: bash"];
    Extracted([STEP_RUN, STEP_SHELL]);
  }
}
