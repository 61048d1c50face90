/**
  `CodeBlockWriter` (mod.ts) as an immutable value. Every public operation is a function from
  the writer before to the writer after; one that may throw after it has already changed the
  writer returns an `Outcome` carrying both. The operations that take a callback (blocks,
  indented blocks, hanging indents) are split here into the part before and the part after
  the callback; the `Commands` module runs the callback in between.
 */
module Writer {
  import opened Results
  import opened StringUtils
  import opened TextBuffer
  import Scanner
  import Indentation

  /** The two newline sequences the `newLine` option allows. */
  datatype NewLineKind = LF | CRLF

  function NewLineChars(k: NewLineKind): (r: string)
    ensures |r| > 0 && r[|r| - 1] == '\n'
    ensures forall i :: 0 <= i < |r| ==> r[i] == '\r' || r[i] == '\n'
  {
    match k
    case LF => "\n"
    case CRLF => "\r\n"
  }

  datatype Options = Options(newLine: NewLineKind, indentNumberOfSpaces: nat, useTabs: bool, useSingleQuote: bool)

  /** The constructor's `Partial<Options>`: each option may be left out. */
  datatype PartialOptions = PartialOptions(
    newLine: Option<NewLineKind>,
    indentNumberOfSpaces: Option<nat>,
    useTabs: Option<bool>,
    useSingleQuote: Option<bool>)

  /** The constructor's defaults: `||` treats a missing option and a zero or `false` one alike. */
  function ResolveOptions(p: PartialOptions): (o: Options)
    ensures o.indentNumberOfSpaces > 0
  {
    Options(
      if p.newLine.Some? then p.newLine.value else LF,
      if p.indentNumberOfSpaces.Some? && p.indentNumberOfSpaces.value > 0 then p.indentNumberOfSpaces.value else 4,
      p.useTabs == Some(true),
      p.useSingleQuote == Some(true))
  }

  /** Options given in full. */
  function Full(o: Options): PartialOptions
  {
    PartialOptions(Some(o.newLine), Some(o.indentNumberOfSpaces), Some(o.useTabs), Some(o.useSingleQuote))
  }

  datatype Writer = Writer(
    opts: Options,
    buf: Buffer,
    scan: Scanner.ScanState,
    ind: Indentation.IndentState,
    newLineOnNextWrite: bool,
    onFirstLineOfBlock: bool)

  /** What a writer that may throw part-way leaves behind, and what it threw. */
  datatype Outcome = Outcome(writer: Writer, thrown: Option<Error>)

  /** `_indentationText`: the text of one level. */
  function IndentationUnit(w: Writer): string
  {
    Indentation.IndentationText(w.opts.useTabs, w.opts.indentNumberOfSpaces)
  }

  /** `_quoteChar`. */
  function QuoteChar(w: Writer): char
  {
    if w.opts.useSingleQuote then '\'' else '"'
  }

  function NewLineText(w: Writer): string
  {
    NewLineChars(w.opts.newLine)
  }

  /** The indentation a line written now would start with. */
  function CurrentIndentation(w: Writer): string
    requires w.ind.current >= 0.0
  {
    Indentation.Render(w.ind.current, IndentationUnit(w), w.opts.useTabs)
  }

  /** What every writer keeps true. */
  predicate Inv(w: Writer)
  {
    && w.opts.indentNumberOfSpaces > 0
    && Valid(w.buf)
    && Scanner.StackShape(w.scan.stack)
    && Scanner.RegExOutsideComments(w.scan)
    && Indentation.NonNegative(w.ind)
  }

  /** The indentation moves only when a queued level lands: with nothing queued it stays as it was. */
  predicate KeepsLevel(w: Writer, r: Writer)
  {
    w.ind.queued == None ==> r.ind == w.ind
  }

  /** `r` came from `w` by writing only: the options are kept and the old text is a prefix of the new. */
  predicate Grows(w: Writer, r: Writer)
  {
    r.opts == w.opts && Text(w.buf) <= Text(r.buf)
  }

  lemma GrowsTransitive(a: Writer, b: Writer, c: Writer)
    requires Grows(a, b) && Grows(b, c)
    ensures Grows(a, c)
  {
    assert Text(a.buf) == Text(b.buf)[..|Text(a.buf)|] == Text(c.buf)[..|Text(a.buf)|];
  }

  /** The constructor. */
  function New(p: PartialOptions): (w: Writer)
    ensures Inv(w)
    ensures Text(w.buf) == "" && w.opts == ResolveOptions(p)
    ensures w.ind == Indentation.Initial && w.scan == Scanner.Initial
    ensures w.onFirstLineOfBlock && !w.newLineOnNextWrite
  {
    Writer(ResolveOptions(p), Empty, Scanner.Initial, Indentation.Initial, false, true)
  }

  /** `getOptions`. */
  function GetOptions(w: Writer): Options
  {
    w.opts
  }

  /** Options given in full come back unchanged; a writer made with no options uses LF, four spaces and double quotes. */
  lemma OptionsRoundTrip(o: Options)
    requires o.indentNumberOfSpaces > 0
    ensures GetOptions(New(Full(o))) == o
    ensures GetOptions(New(PartialOptions(None, None, None, None))) == Options(LF, 4, false, false)
    ensures GetOptions(New(PartialOptions(None, Some(0), None, None))).indentNumberOfSpaces == 4
  {
  }

  /** The buffer is at the start of a line: it is empty or ends in CR or LF. */
  predicate AtLineStart(b: Buffer)
  {
    IsLastNewLine(b) || LastChar(b).None?
  }

  lemma LastCharOfText(b: Buffer)
    requires Valid(b)
    ensures |Text(b)| == 0 ==> LastChar(b) == None
    ensures |Text(b)| > 0 ==> LastChar(b) == Some(Text(b)[|Text(b)| - 1])
  {
  }

  /** `_writeIndentation`: the whole levels, then the fraction, as two fragments. */
  function WriteIndentation(w: Writer): (r: Writer)
    requires Inv(w)
    ensures Inv(r) && r == w.(buf := r.buf)
    ensures Text(r.buf) == Text(w.buf) + CurrentIndentation(w)
  {
    var level := w.ind.current;
    var unit := IndentationUnit(w);
    var whole := Indentation.WholeUnits(level, unit);
    var part := Indentation.PartialUnit(level, unit, w.opts.useTabs);
    w.(buf := Append(Append(w.buf, whole), part))
  }

  /** Text made only of characters the scanner ignores. */
  predicate Inert(s: string)
  {
    forall i :: 0 <= i < |s| ==> !Scanner.IsCharToHandle(s[i])
  }

  /** Whether `writeIndividual` would indent before writing now. */
  predicate IndentsNext(w: Writer)
  {
    !Scanner.InString(w.scan) && AtLineStart(w.buf)
  }

  /**
    `writeIndividual`: indents when at the start of a line and not inside a string, runs the
    scanner over the segment (its first characters see the end of the buffer, indentation
    included, as their predecessors), then appends the segment.
   */
  function WriteIndividual(w: Writer, s: string): (r: Writer)
    requires Inv(w)
    ensures Inv(r) && Grows(w, r)
    ensures r.ind == w.ind && r.newLineOnNextWrite == w.newLineOnNextWrite
    ensures r.onFirstLineOfBlock == w.onFirstLineOfBlock
    ensures Text(r.buf) == Text(w.buf) + (if IndentsNext(w) then CurrentIndentation(w) else "") + s
    ensures Inert(s) ==> r.scan == w.scan
    ensures !Scanner.InString(w.scan) && Scanner.KeepsStack(w.scan.stack, s) ==> r.scan.stack == w.scan.stack
  {
    var w1 := if IndentsNext(w) then WriteIndentation(w) else w;
    var scan := Scanner.Scan(w1.scan, s, LastCharWithOffset(w1.buf, 0), LastCharWithOffset(w1.buf, 1));
    assert Inert(s) ==> scan == w1.scan by {
      if Inert(s) {
        Scanner.ScanInert(w1.scan, s, LastCharWithOffset(w1.buf, 0), LastCharWithOffset(w1.buf, 1));
      }
    }
    assert !Scanner.InString(w.scan) && Scanner.KeepsStack(w.scan.stack, s) ==> scan.stack == w1.scan.stack by {
      if !Scanner.InString(w.scan) && Scanner.KeepsStack(w.scan.stack, s) {
        Scanner.ScanKeepsStack(w1.scan, s, LastCharWithOffset(w1.buf, 0), LastCharWithOffset(w1.buf, 1));
      }
    }
    w1.(scan := scan, buf := Append(w1.buf, s))
  }

  /**
    `_baseWriteNewline`: a line comment ends, an unescaped `"`/`'` string is dropped, the
    newline is appended, the writer leaves the first line of its block, and a queued level is
    applied (tested against the text including the new newline).
   */
  function BaseWriteNewline(w: Writer): (r: Writer)
    requires Inv(w)
    ensures KeepsLevel(w, r)
    ensures Inv(r) && Grows(w, r)
    ensures Text(r.buf) == Text(w.buf) + NewLineText(w)
    ensures IsLastNewLine(r.buf) && AtLineStart(r.buf)
    ensures !r.onFirstLineOfBlock && r.newLineOnNextWrite == w.newLineOnNextWrite
    ensures r.scan == Scanner.AtNewLine(w.scan, LastChar(w.buf))
    ensures r.ind == Indentation.Dequeue(w.ind, WasLastBlock(r.buf))
  {
    var scan := Scanner.AtNewLine(w.scan, LastChar(w.buf));
    var buf := Append(w.buf, NewLineText(w));
    LastCharOfText(buf);
    w.(scan := scan, buf := buf, onFirstLineOfBlock := false, ind := Indentation.Dequeue(w.ind, WasLastBlock(buf)))
  }

  /** `text.split(/\r?\n/)`: the lines of `s`, a CR just before an LF belonging to the separator. */
  function SplitLines(s: string): (r: seq<string>)
    ensures |r| >= 1
    ensures forall j, k :: 0 <= j < |r| && 0 <= k < |r[j]| ==> r[j][k] != '\n' && r[j][k] in s
    decreases |s|
  {
    if |s| == 0 then [""]
    else if s[0] == '\n' then [""] + SplitLines(s[1..])
    else if s[0] == '\r' && |s| > 1 && s[1] == '\n' then [""] + SplitLines(s[2..])
    else
      var rest := SplitLines(s[1..]);
      [[s[0]] + rest[0]] + rest[1..]
  }

  /** `items.join(sep)`. */
  function Join(items: seq<string>, sep: string): string
    decreases |items|
  {
    if |items| == 0 then ""
    else if |items| == 1 then items[0]
    else items[0] + sep + Join(items[1..], sep)
  }

  /** `s` with every CR LF pair replaced by a lone LF. */
  function NormalizeNewLines(s: string): string
    decreases |s|
  {
    if |s| == 0 then ""
    else if s[0] == '\r' && |s| > 1 && s[1] == '\n' then "\n" + NormalizeNewLines(s[2..])
    else [s[0]] + NormalizeNewLines(s[1..])
  }

  /** Splitting loses only the CRs of CR LF pairs: joining the lines with LF gives the text back, normalised. */
  lemma {:induction false} SplitLinesJoin(s: string)
    ensures Join(SplitLines(s), "\n") == NormalizeNewLines(s)
    decreases |s|
  {
    if |s| > 0 {
      if s[0] == '\n' {
        SplitLinesJoin(s[1..]);
        JoinAfterEmpty(SplitLines(s[1..]));
      } else if s[0] == '\r' && |s| > 1 && s[1] == '\n' {
        SplitLinesJoin(s[2..]);
        JoinAfterEmpty(SplitLines(s[2..]));
      } else {
        SplitLinesJoin(s[1..]);
        JoinOntoFirst(s[0], SplitLines(s[1..]));
      }
    }
  }

  /** An empty first line contributes only its separator. */
  lemma JoinAfterEmpty(items: seq<string>)
    requires |items| >= 1
    ensures Join([""] + items, "\n") == "\n" + Join(items, "\n")
  {
    assert ([""] + items)[1..] == items;
  }

  /** A character put in front of the first line is put in front of the join. */
  lemma JoinOntoFirst(c: char, items: seq<string>)
    requires |items| >= 1
    ensures Join([[c] + items[0]] + items[1..], "\n") == [c] + Join(items, "\n")
  {
    var l := [[c] + items[0]] + items[1..];
    assert |l| == |items| && l[0] == [c] + items[0];
    if |items| > 1 {
      assert l[1..] == items[1..];
      var j := Join(items[1..], "\n");
      assert Join(l, "\n") == [c] + items[0] + "\n" + j;
      assert Join(items, "\n") == items[0] + "\n" + j;
      AppendAssociative([c], items[0], "\n");
      AppendAssociative([c], items[0] + "\n", j);
    }
  }

  /** A line the splitter would keep whole: no LF in it. */
  predicate IsLine(s: string)
  {
    forall k :: 0 <= k < |s| ==> s[k] != '\n'
  }

  /** A text without LF is one line. */
  lemma {:induction false} SplitLinesOfLine(a: string)
    requires IsLine(a)
    ensures SplitLines(a) == [a]
    decreases |a|
  {
    if |a| > 0 {
      SplitLinesOfLine(a[1..]);
      assert |a| > 1 ==> a[1] != '\n';
      assert [a[0]] + a[1..] == a;
    }
  }

  /** An LF after a line that does not end in CR separates that line from the rest. */
  lemma {:induction false} SplitLinesAfterLine(a: string, b: string)
    requires IsLine(a) && (|a| == 0 || a[|a| - 1] != '\r')
    ensures SplitLines(a + "\n" + b) == [a] + SplitLines(b)
    decreases |a|
  {
    var s := a + "\n" + b;
    if |a| == 0 {
      assert s == "\n" + b && s[1..] == b;
    } else {
      assert s[1..] == a[1..] + "\n" + b;
      SplitLinesAfterLine(a[1..], b);
      assert s[0] == a[0];
      assert !(s[0] == '\r' && |s| > 1 && s[1] == '\n') by {
        if |a| > 1 {
          assert s[1] == a[1];
        }
      }
      assert [a[0]] + a[1..] == a;
    }
  }

  /** Lines joined with LF split back into the same lines, provided no line but the last ends in CR. */
  lemma {:induction false} JoinSplitLines(items: seq<string>)
    requires |items| >= 1
    requires forall j :: 0 <= j < |items| ==> IsLine(items[j])
    requires forall j :: 0 <= j < |items| - 1 ==> |items[j]| == 0 || items[j][|items[j]| - 1] != '\r'
    ensures SplitLines(Join(items, "\n")) == items
    decreases |items|
  {
    if |items| == 1 {
      SplitLinesOfLine(items[0]);
    } else {
      JoinSplitLines(items[1..]);
      SplitLinesAfterLine(items[0], Join(items[1..], "\n"));
      assert items == [items[0]] + items[1..];
    }
  }

  /**
    The loop of `_writeIndentingNewLines` over the split lines: a newline before every line but
    the first, and empty lines skipped.
   */
  function WriteItems(w: Writer, items: seq<string>, first: bool): (r: Writer)
    requires Inv(w)
    ensures KeepsLevel(w, r)
    ensures Inv(r) && Grows(w, r)
    ensures r.newLineOnNextWrite == w.newLineOnNextWrite
    decreases |items|
  {
    if |items| == 0 then w
    else
      var w2 := ItemStep(w, items[0], first);
      var r := WriteItems(w2, items[1..], false);
      GrowsTransitive(w, w2, r);
      r
  }

  /** One round of that loop: the newline unless it is the first line, then the line unless it is empty. */
  function ItemStep(w: Writer, item: string, first: bool): (r: Writer)
    requires Inv(w)
    ensures KeepsLevel(w, r)
    ensures Inv(r) && Grows(w, r)
    ensures r.newLineOnNextWrite == w.newLineOnNextWrite
  {
    var w1 := if first then w else BaseWriteNewline(w);
    var w2 := if |item| == 0 then w1 else WriteIndividual(w1, item);
    GrowsTransitive(w, w1, w2);
    w2
  }

  /**
    `_writeIndentingNewLines`: an empty text is still one (empty) write, so it may indent;
    otherwise each line is written, separated by the writer's newline.
   */
  function WriteIndentingNewLines(w: Writer, text: string): (r: Writer)
    requires Inv(w)
    ensures KeepsLevel(w, r)
    ensures Inv(r) && Grows(w, r)
    ensures r.newLineOnNextWrite == w.newLineOnNextWrite
    // an empty text adds the indentation when a line is due, and nothing else
    ensures |text| == 0 ==> Text(r.buf) == Text(w.buf) + (if IndentsNext(w) then CurrentIndentation(w) else "")
    // text that opens and closes no string adds exactly the layout of its lines
    ensures |text| > 0 && w.ind.queued == None && !Scanner.InString(w.scan) && Scanner.KeepsStack(w.scan.stack, text) ==>
      && Text(r.buf) == Text(w.buf) + Layout(SplitLines(text), CurrentIndentation(w), NewLineText(w), true, AtLineStart(w.buf))
      && r.ind == w.ind && r.scan.stack == w.scan.stack
  {
    if |text| == 0 then WriteIndividual(w, "")
    else
      TextLayout(w, text);
      WriteItems(w, SplitLines(text), true)
  }

  /** The loop over the lines of such a text writes their layout. */
  lemma TextLayout(w: Writer, text: string)
    requires Inv(w)
    ensures w.ind.queued == None && !Scanner.InString(w.scan) && Scanner.KeepsStack(w.scan.stack, text) ==>
      var r := WriteItems(w, SplitLines(text), true);
      && Text(r.buf) == Text(w.buf) + Layout(SplitLines(text), CurrentIndentation(w), NewLineText(w), true, AtLineStart(w.buf))
      && r.ind == w.ind && r.scan.stack == w.scan.stack
  {
    if w.ind.queued == None && !Scanner.InString(w.scan) && Scanner.KeepsStack(w.scan.stack, text) {
      SplitLinesKeepStack(w.scan.stack, text);
      AllKeepStackOfEach(w.scan.stack, SplitLines(text));
      WriteItemsLayout(w, SplitLines(text), true);
    }
  }

  /** The lines of a text that opens and closes no string open and close none either. */
  lemma SplitLinesKeepStack(stack: seq<char>, text: string)
    requires Scanner.KeepsStack(stack, text)
    ensures forall j :: 0 <= j < |SplitLines(text)| ==> Scanner.KeepsStack(stack, SplitLines(text)[j])
  {
    var items := SplitLines(text);
    forall j, k | 0 <= j < |items| && 0 <= k < |items[j]|
      ensures !Scanner.IsQuote(items[j][k]) && (items[j][k] == '}' ==> |stack| == 0)
    {
      assert items[j][k] in text;
      var i :| 0 <= i < |text| && text[i] == items[j][k];
    }
  }

  /** `newLine`. */
  function NewLine(w: Writer): (r: Writer)
    requires Inv(w)
    ensures KeepsLevel(w, r)
    ensures Inv(r) && Grows(w, r)
    ensures Text(r.buf) == Text(w.buf) + NewLineText(w)
    ensures IsLastNewLine(r.buf) && !r.newLineOnNextWrite && !r.onFirstLineOfBlock
    ensures w.scan.comment != Some(Scanner.Line) ==> r.scan.comment == w.scan.comment
  {
    BaseWriteNewline(w.(newLineOnNextWrite := false))
  }

  /** `_newLineIfNewLineOnNextWrite`: the newline a finished block left pending. */
  function NewLineIfNewLineOnNextWrite(w: Writer): (r: Writer)
    requires Inv(w)
    ensures KeepsLevel(w, r)
    ensures Inv(r) && Grows(w, r) && !r.newLineOnNextWrite
    ensures !w.newLineOnNextWrite ==> r == w
    ensures w.newLineOnNextWrite ==> Text(r.buf) == Text(w.buf) + NewLineText(w)
    ensures w.scan.comment != Some(Scanner.Line) ==> r.scan.comment == w.scan.comment
  {
    if !w.newLineOnNextWrite then w else NewLine(w)
  }

  /** `write`. */
  function Write(w: Writer, text: string): (r: Writer)
    requires Inv(w)
    ensures KeepsLevel(w, r)
    ensures Inv(r) && Grows(w, r) && !r.newLineOnNextWrite
  {
    var w1 := NewLineIfNewLineOnNextWrite(w);
    var r := WriteIndentingNewLines(w1, text);
    GrowsTransitive(w, w1, r);
    r
  }

  /** `conditionalWrite`: a false or missing condition writes nothing. */
  function ConditionalWrite(w: Writer, condition: bool, text: string): (r: Writer)
    requires Inv(w)
    ensures KeepsLevel(w, r)
    ensures Inv(r) && Grows(w, r)
    ensures !condition ==> r == w
    ensures condition ==> r == Write(w, text)
  {
    if condition then Write(w, text) else w
  }

  /** `newLineIfLastNot`. */
  function NewLineIfLastNot(w: Writer): (r: Writer)
    requires Inv(w)
    ensures KeepsLevel(w, r)
    ensures Inv(r) && Grows(w, r)
    ensures IsLastNewLine(r.buf) && !r.newLineOnNextWrite
    ensures !w.newLineOnNextWrite && IsLastNewLine(w.buf) ==> r == w
    ensures !w.newLineOnNextWrite && !IsLastNewLine(w.buf) ==> Text(r.buf) == Text(w.buf) + NewLineText(w)
    ensures w.newLineOnNextWrite ==> Text(r.buf) == Text(w.buf) + NewLineText(w)
  {
    var w1 := NewLineIfNewLineOnNextWrite(w);
    if !IsLastNewLine(w1.buf) then
      var r := NewLine(w1);
      GrowsTransitive(w, w1, r);
      r
    else w1
  }

  /** Asking twice for a newline at the end gives one. */
  lemma NewLineIfLastNotIdempotent(w: Writer)
    requires Inv(w)
    ensures NewLineIfLastNot(NewLineIfLastNot(w)) == NewLineIfLastNot(w)
  {
  }

  /** `writeLine`: starts on a fresh line unless the writer is empty, writes the text, ends the line. */
  function WriteLine(w: Writer, text: string): (r: Writer)
    requires Inv(w)
    ensures KeepsLevel(w, r)
    ensures Inv(r) && Grows(w, r)
    ensures IsLastNewLine(r.buf) && !r.newLineOnNextWrite
  {
    var w1 := NewLineIfNewLineOnNextWrite(w);
    var w2 := if LastChar(w1.buf).Some? then NewLineIfLastNot(w1) else w1;
    var w3 := WriteIndentingNewLines(w2, text);
    var r := NewLine(w3);
    GrowsTransitive(w, w1, w2);
    GrowsTransitive(w, w2, w3);
    GrowsTransitive(w, w3, r);
    r
  }

  /**
    What `writeLine` writes for text that opens and closes no string, outside a string with
    nothing queued: a newline first unless the writer is at the start of a line with no newline
    pending, then the text laid out from a line start (an empty text still gets the
    indentation), then a newline.
   */
  lemma WriteLineText(w: Writer, text: string)
    requires Inv(w) && w.ind.queued == None && !Scanner.InString(w.scan)
    requires Scanner.KeepsStack(w.scan.stack, text)
    ensures Text(WriteLine(w, text).buf) == Text(w.buf)
      + (if w.newLineOnNextWrite || !AtLineStart(w.buf) then NewLineText(w) else "")
      + (if |text| == 0 then CurrentIndentation(w) else Layout(SplitLines(text), CurrentIndentation(w), NewLineText(w), true, true))
      + NewLineText(w)
  {
    var w1 := NewLineIfNewLineOnNextWrite(w);
    var w2 := if LastChar(w1.buf).Some? then NewLineIfLastNot(w1) else w1;
    var lead := if w.newLineOnNextWrite || !AtLineStart(w.buf) then NewLineText(w) else "";
    var body := if |text| == 0 then CurrentIndentation(w) else Layout(SplitLines(text), CurrentIndentation(w), NewLineText(w), true, true);
    var w3 := WriteIndentingNewLines(w2, text);
    LineStartBeforeWriteLine(w, w2);
    assert Text(w3.buf) == Text(w2.buf) + body by {
      LinesFromLineStart(w2, text);
      assert CurrentIndentation(w2) == CurrentIndentation(w) && NewLineText(w2) == NewLineText(w);
    }
    assert WriteLine(w, text) == NewLine(w3);
    AppendAssociative(Text(w.buf), lead, body);
  }

  /** From a line start, outside a string with nothing queued, the text is laid out with its first line indented. */
  lemma LinesFromLineStart(w: Writer, text: string)
    requires Inv(w) && w.ind.queued == None && !Scanner.InString(w.scan) && AtLineStart(w.buf)
    requires Scanner.KeepsStack(w.scan.stack, text)
    ensures Text(WriteIndentingNewLines(w, text).buf) == Text(w.buf)
      + (if |text| == 0 then CurrentIndentation(w) else Layout(SplitLines(text), CurrentIndentation(w), NewLineText(w), true, true))
  {
  }

  /** Before `writeLine` writes its text, the writer is at a line start with the level and string stack it had. */
  lemma LineStartBeforeWriteLine(w: Writer, w2: Writer)
    requires Inv(w) && w.ind.queued == None && !Scanner.InString(w.scan)
    requires var w1 := NewLineIfNewLineOnNextWrite(w);
      w2 == if LastChar(w1.buf).Some? then NewLineIfLastNot(w1) else w1
    ensures && Inv(w2) && w2.opts == w.opts && w2.ind == w.ind && w2.scan.stack == w.scan.stack
      && !Scanner.InString(w2.scan) && AtLineStart(w2.buf) && !w2.newLineOnNextWrite
      && Text(w2.buf) == Text(w.buf) + (if w.newLineOnNextWrite || !AtLineStart(w.buf) then NewLineText(w) else "")
  {
    var w1 := NewLineIfNewLineOnNextWrite(w);
    if w.newLineOnNextWrite {
      Scanner.NewLineKeepsStack(w.scan, LastChar(w.buf));
      assert IsLastNewLine(w1.buf);
    }
    if LastChar(w1.buf).Some? && !IsLastNewLine(w1.buf) {
      Scanner.NewLineKeepsStack(w1.scan, LastChar(w1.buf));
      assert NewLineIfLastNot(w1) == NewLine(w1);
    }
  }

  /** `conditionalWriteLine`. */
  function ConditionalWriteLine(w: Writer, condition: bool, text: string): (r: Writer)
    requires Inv(w)
    ensures KeepsLevel(w, r)
    ensures Inv(r) && Grows(w, r)
    ensures !condition ==> r == w
    ensures condition ==> IsLastNewLine(r.buf) && r == WriteLine(w, text)
  {
    if condition then WriteLine(w, text) else w
  }

  /** `blankLine`. */
  function BlankLine(w: Writer): (r: Writer)
    requires Inv(w)
    ensures KeepsLevel(w, r)
    ensures Inv(r) && Grows(w, r)
    ensures !r.newLineOnNextWrite
    ensures w.newLineOnNextWrite || LastChar(w.buf) != Some('\r') ==> IsLastBlankLine(r.buf)
  {
    var w1 := NewLineIfLastNot(w);
    var r := NewLine(w1);
    GrowsTransitive(w, w1, r);
    assert w.newLineOnNextWrite || LastChar(w.buf) != Some('\r') ==> IsLastBlankLine(r.buf) by {
      if w.newLineOnNextWrite || LastChar(w.buf) != Some('\r') {
        LastCharOfText(w1.buf);
        EndsWithTwoNewLines(w1, r);
      }
    }
    r
  }

  /** A newline written after a newline leaves a blank line at the end. */
  lemma EndsWithTwoNewLines(w: Writer, r: Writer)
    requires Inv(w) && LastChar(w.buf) == Some('\n')
    requires Text(r.buf) == Text(w.buf) + NewLineText(w)
    ensures IsLastBlankLine(r.buf)
  {
    var t := Text(r.buf);
    var nl := NewLineText(w);
    LastCharOfText(w.buf);
    var k := |Text(w.buf)| - 1;
    var tail := t[k..];
    assert tail == "\n" + nl;
    assert OnlyLineBreaks(tail);
    assert NewLineCount(tail) >= 2 by {
      TailNewLines(nl);
    }
    IsLastBlankLineSpec(r.buf);
  }

  lemma TailNewLines(nl: string)
    requires nl == "\n" || nl == "\r\n"
    ensures NewLineCount("\n" + nl) == 2
  {
    var s := "\n" + nl;
    assert NewLineCount("") == 0;
    assert NewLineCount("\n") == 1 by { assert "\n"[..0] == ""; }
    if nl == "\r\n" {
      assert s[..2] == "\n\r" && s[..2][..1] == "\n";
      assert NewLineCount("\n\r") == 1;
    } else {
      assert s[..1] == "\n";
    }
  }

  /** `blankLineIfLastNot`. */
  function BlankLineIfLastNot(w: Writer): (r: Writer)
    requires Inv(w)
    ensures KeepsLevel(w, r)
    ensures Inv(r) && Grows(w, r)
    ensures w.newLineOnNextWrite || LastChar(w.buf) != Some('\r') ==> IsLastBlankLine(r.buf)
    ensures IsLastBlankLine(w.buf) ==> r == w
  {
    if !IsLastBlankLine(w.buf) then BlankLine(w) else w
  }

  /** `conditionalBlankLine`. */
  function ConditionalBlankLine(w: Writer, condition: bool): (r: Writer)
    requires Inv(w)
    ensures KeepsLevel(w, r)
    ensures Inv(r) && Grows(w, r)
    ensures !condition ==> r == w
    ensures condition && (w.newLineOnNextWrite || LastChar(w.buf) != Some('\r')) ==> IsLastBlankLine(r.buf)
  {
    if condition then BlankLine(w) else w
  }

  /** `conditionalNewLine`. */
  function ConditionalNewLine(w: Writer, condition: bool): (r: Writer)
    requires Inv(w)
    ensures KeepsLevel(w, r)
    ensures Inv(r) && Grows(w, r)
    ensures !condition ==> r == w
    ensures condition ==> Text(r.buf) == Text(w.buf) + NewLineText(w)
  {
    if condition then NewLine(w) else w
  }

  /** The text `quote` writes: the quote character alone, or the escaped text between two of them. */
  function QuotedText(w: Writer, text: Option<string>): string
  {
    match text
    case None => [QuoteChar(w)]
    case Some(t) => [QuoteChar(w)] + EscapeForWithinString(t, [QuoteChar(w)]) + [QuoteChar(w)]
  }

  /** The quoted text opens and closes with the writer's quote, and its inside reads back as the original. */
  lemma QuotedTextRoundTrip(w: Writer, t: string)
    ensures var q := QuotedText(w, Some(t));
      |q| >= 2 && q[0] == QuoteChar(w) && q[|q| - 1] == QuoteChar(w)
      && Unescape(q[1..|q| - 1]) == t
  {
    var q := QuotedText(w, Some(t));
    assert q[1..|q| - 1] == EscapeForWithinString(t, [QuoteChar(w)]);
    EscapeRoundTrip(t, [QuoteChar(w)]);
  }

  /** `quote`. */
  function Quote(w: Writer, text: Option<string>): (r: Writer)
    requires Inv(w)
    ensures KeepsLevel(w, r)
    ensures Inv(r) && Grows(w, r) && !r.newLineOnNextWrite
  {
    var w1 := NewLineIfNewLineOnNextWrite(w);
    var r := WriteIndentingNewLines(w1, QuotedText(w, text));
    GrowsTransitive(w, w1, r);
    r
  }

  /** A single-line text, written when the last line is not empty, is what the buffer then ends with. */
  lemma WriteEndsWithText(w: Writer, text: string)
    requires Inv(w) && |text| > 0 && IsLine(text)
    ensures EndsWith(WriteIndentingNewLines(w, text).buf, text)
    ensures Inert(text) ==> WriteIndentingNewLines(w, text).scan == w.scan
  {
    SplitLinesOfLine(text);
    var r := WriteIndividual(w, text);
    assert WriteIndentingNewLines(w, text) == WriteItems(r, [], false);
  }

  /** A text with no line feed is one write: the indentation when a line is due, then the text. */
  lemma WriteOneLine(w: Writer, text: string)
    requires Inv(w) && IsLine(text)
    ensures Text(WriteIndentingNewLines(w, text).buf) == Text(w.buf) + (if IndentsNext(w) then CurrentIndentation(w) else "") + text
  {
    if |text| > 0 {
      SplitLinesOfLine(text);
      var r := WriteIndividual(w, text);
      assert WriteIndentingNewLines(w, text) == WriteItems(r, [], false);
    }
  }

  /**
    One line written at the start of a line, outside a string, with no newline pending: the
    current indentation, then the line, and the indentation state untouched.
   */
  lemma WriteAtLineStart(w: Writer, text: string)
    requires Inv(w) && !w.newLineOnNextWrite && AtLineStart(w.buf) && !Scanner.InString(w.scan)
    requires |text| > 0 && IsLine(text)
    ensures var r := Write(w, text);
      && Text(r.buf) == Text(w.buf) + CurrentIndentation(w) + text
      && r.ind == w.ind && !r.newLineOnNextWrite && r.onFirstLineOfBlock == w.onFirstLineOfBlock
      && LastChar(r.buf) == Some(text[|text| - 1])
      && (Scanner.KeepsStack(w.scan.stack, text) ==> r.scan.stack == w.scan.stack)
  {
    SplitLinesOfLine(text);
    var r := WriteIndividual(w, text);
    assert WriteIndentingNewLines(w, text) == WriteItems(r, [], false);
    LastCharOfText(r.buf);
  }

  /** `spaceIfLastNot`. */
  function SpaceIfLastNot(w: Writer): (r: Writer)
    requires Inv(w)
    ensures KeepsLevel(w, r)
    ensures Inv(r) && Grows(w, r) && !r.newLineOnNextWrite
    ensures IsLastSpace(r.buf)
    ensures !w.newLineOnNextWrite && IsLastSpace(w.buf) ==> r == w
    ensures w.scan.comment != Some(Scanner.Line) ==> r.scan.comment == w.scan.comment
  {
    var w1 := NewLineIfNewLineOnNextWrite(w);
    if !IsLastSpace(w1.buf) then
      var r := WriteIndentingNewLines(w1, " ");
      GrowsTransitive(w, w1, r);
      WriteEndsWithText(w1, " ");
      LastCharOfText(r.buf);
      r
    else w1
  }

  /** `space(times)`: the count is checked by `repeat` only after a pending newline was written. */
  function Space(w: Writer, times: int): (r: Outcome)
    requires Inv(w)
    ensures KeepsLevel(w, r.writer)
    ensures Inv(r.writer) && Grows(w, r.writer)
    ensures r.thrown.Some? <==> times < 0
    ensures r.thrown.Some? ==> r.writer == NewLineIfNewLineOnNextWrite(w) && r.thrown == Some(InvalidCount)
    ensures times > 0 ==> EndsWith(r.writer.buf, Repeat(" ", times))
    // exactly `times` spaces after the pending newline, indented when a line is due (even for none)
    ensures times >= 0 ==> var w1 := NewLineIfNewLineOnNextWrite(w);
      Text(r.writer.buf) == Text(w1.buf) + (if IndentsNext(w1) then CurrentIndentation(w1) else "") + Repeat(" ", times)
  {
    var w1 := NewLineIfNewLineOnNextWrite(w);
    match NativeRepeat(" ", times)
    case Err(e) => Outcome(w1, Some(e))
    case Ok(spaces) =>
      var r := WriteIndentingNewLines(w1, spaces);
      GrowsTransitive(w, w1, r);
      RepeatUniform(" ", times, ' ');
      WriteOneLine(w1, spaces);
      assert times > 0 ==> EndsWith(r.buf, spaces) by {
        if times > 0 {
          RepeatUniform(" ", times, ' ');
          WriteEndsWithText(w1, spaces);
        }
      }
      Outcome(r, None)
  }

  /** `tabIfLastNot`. */
  function TabIfLastNot(w: Writer): (r: Writer)
    requires Inv(w)
    ensures KeepsLevel(w, r)
    ensures Inv(r) && Grows(w, r) && !r.newLineOnNextWrite
    ensures IsLastTab(r.buf)
    ensures !w.newLineOnNextWrite && IsLastTab(w.buf) ==> r == w
  {
    var w1 := NewLineIfNewLineOnNextWrite(w);
    if !IsLastTab(w1.buf) then
      var r := WriteIndentingNewLines(w1, "\t");
      GrowsTransitive(w, w1, r);
      WriteEndsWithText(w1, "\t");
      LastCharOfText(r.buf);
      r
    else w1
  }

  /** `tab(times)`. */
  function Tab(w: Writer, times: int): (r: Outcome)
    requires Inv(w)
    ensures KeepsLevel(w, r.writer)
    ensures Inv(r.writer) && Grows(w, r.writer)
    ensures r.thrown.Some? <==> times < 0
    ensures r.thrown.Some? ==> r.writer == NewLineIfNewLineOnNextWrite(w) && r.thrown == Some(InvalidCount)
    ensures times > 0 ==> EndsWith(r.writer.buf, Repeat("\t", times))
    // exactly `times` tabs after the pending newline, indented when a line is due (even for none)
    ensures times >= 0 ==> var w1 := NewLineIfNewLineOnNextWrite(w);
      Text(r.writer.buf) == Text(w1.buf) + (if IndentsNext(w1) then CurrentIndentation(w1) else "") + Repeat("\t", times)
  {
    var w1 := NewLineIfNewLineOnNextWrite(w);
    match NativeRepeat("\t", times)
    case Err(e) => Outcome(w1, Some(e))
    case Ok(tabs) =>
      var r := WriteIndentingNewLines(w1, tabs);
      GrowsTransitive(w, w1, r);
      RepeatUniform("\t", times, '\t');
      WriteOneLine(w1, tabs);
      assert times > 0 ==> EndsWith(r.buf, tabs) by {
        if times > 0 {
          RepeatUniform("\t", times, '\t');
          WriteEndsWithText(w1, tabs);
        }
      }
      Outcome(r, None)
  }

  /** `indent(times)`: writes `times` levels of indentation text in the line. */
  function IndentTimes(w: Writer, times: int): (r: Outcome)
    requires Inv(w)
    ensures KeepsLevel(w, r.writer)
    ensures Inv(r.writer) && Grows(w, r.writer)
    ensures r.thrown.Some? <==> times < 0
    ensures r.thrown.Some? ==> r.writer == NewLineIfNewLineOnNextWrite(w) && r.thrown == Some(InvalidCount)
    ensures times > 0 ==> EndsWith(r.writer.buf, Repeat(IndentationUnit(w), times))
    // exactly `times` units after the pending newline, indented when a line is due (even for none)
    ensures times >= 0 ==> var w1 := NewLineIfNewLineOnNextWrite(w);
      Text(r.writer.buf) == Text(w1.buf) + (if IndentsNext(w1) then CurrentIndentation(w1) else "") + Repeat(IndentationUnit(w), times)
  {
    var w1 := NewLineIfNewLineOnNextWrite(w);
    match NativeRepeat(IndentationUnit(w), times)
    case Err(e) => Outcome(w1, Some(e))
    case Ok(text) =>
      var r := Write(w1, text);
      GrowsTransitive(w, w1, r);
      assert r == WriteIndentingNewLines(w1, text) && IsLine(text) by {
        var c := if w.opts.useTabs then '\t' else ' ';
        RepeatUniform(IndentationUnit(w), times, c);
      }
      WriteOneLine(w1, text);
      assert times > 0 ==> EndsWith(r.buf, text) by {
        if times > 0 {
          var c := if w.opts.useTabs then '\t' else ' ';
          RepeatUniform(IndentationUnit(w), times, c);
          assert IsLine(text);
          assert |IndentationUnit(w)| > 0;
          WriteEndsWithText(w1, text);
        }
      }
      Outcome(r, None)
  }

  /** `closeComment`: ends a line comment with a newline and a star comment with `*` `/`. */
  function CloseComment(w: Writer): (r: Writer)
    requires Inv(w)
    ensures KeepsLevel(w, r)
    ensures Inv(r) && Grows(w, r)
    ensures !Scanner.InComment(r.scan)
    ensures w.scan.comment == None ==> r == w
  {
    match w.scan.comment
    case None => w
    case Some(Line) => NewLine(w)
    case Some(Star) =>
      var w1 := if !IsLastNewLine(w.buf) then SpaceIfLastNot(w) else w;
      var r := Write(w1, "*/");
      GrowsTransitive(w, w1, r);
      StarCommentWriteEnds(w1);
      r
  }

  lemma StarCommentWriteEnds(w: Writer)
    requires Inv(w) && w.scan.comment == Some(Scanner.Star)
    ensures Write(w, "*/").scan.comment == None
  {
    var w1 := NewLineIfNewLineOnNextWrite(w);
    assert w1.scan.comment == Some(Scanner.Star);
    SplitLinesOfLine("*/");
    var w2 := if IndentsNext(w1) then WriteIndentation(w1) else w1;
    assert w2.scan == w1.scan;
    Scanner.StarCommentCloser(w2.scan, LastCharWithOffset(w2.buf, 0), LastCharWithOffset(w2.buf, 1));
    assert WriteIndentingNewLines(w1, "*/") == WriteItems(WriteIndividual(w1, "*/"), [], false);
  }

  /**
    `unsafeInsert`: positions outside the text throw, the end position is an ordinary write, and
    any other position splices the text in without touching the rest of the writer's state.
   */
  function UnsafeInsert(w: Writer, pos: int, text: string): (r: Outcome)
    requires Inv(w)
    ensures KeepsLevel(w, r.writer)
    ensures Inv(r.writer)
    ensures pos < 0 ==> r == Outcome(w, Some(PositionBelowZero))
    ensures pos > |Text(w.buf)| ==> r == Outcome(w, Some(PositionAboveLength))
    ensures pos == |Text(w.buf)| ==> r == Outcome(Write(w, text), None)
    ensures 0 <= pos < |Text(w.buf)| ==>
      && r.thrown == None
      && Text(r.writer.buf) == Text(w.buf)[..pos] + text + Text(w.buf)[pos..]
      && r.writer == w.(buf := r.writer.buf)
  {
    if pos < 0 then Outcome(w, Some(PositionBelowZero))
    else if pos > w.buf.length then Outcome(w, Some(PositionAboveLength))
    else if pos == w.buf.length then Outcome(Write(w, text), None)
    else
      match InsertWithin(w.buf, pos, text)
      case Err(e) => Outcome(w, Some(e))
      case Ok(buf) => Outcome(w.(buf := buf), None)
  }

  /** `getLength`: the cached length, which is the length of the text. */
  function GetLength(w: Writer): (r: int)
    requires Inv(w)
    ensures r == |Text(w.buf)|
  {
    w.buf.length
  }

  /** `toString`: the text, with the fragments joined into one. */
  function WriterToString(w: Writer): (r: (Writer, string))
    requires Inv(w)
    ensures Inv(r.0) && r.0 == w.(buf := r.0.buf)
    ensures r.1 == Text(w.buf) && Text(r.0.buf) == Text(w.buf)
    ensures GetLength(r.0) == |r.1|
  {
    var (buf, text) := ToString(w.buf);
    (w.(buf := buf), text)
  }

  /** `isInComment`. */
  predicate IsInComment(w: Writer)
  {
    Scanner.InComment(w.scan)
  }

  /** `isInString`. */
  predicate IsInString(w: Writer)
  {
    Scanner.InString(w.scan)
  }

  /** `isOnFirstLineOfBlock`. */
  predicate IsOnFirstLineOfBlock(w: Writer)
  {
    w.onFirstLineOfBlock
  }

  /** `isAtStartOfFirstLineOfBlock`. */
  predicate IsAtStartOfFirstLineOfBlock(w: Writer)
  {
    w.onFirstLineOfBlock && AtLineStart(w.buf)
  }

  /** `getIndentationLevel`. */
  function GetIndentationLevel(w: Writer): real
  {
    w.ind.current
  }

  /** A fresh writer is at the start of the first line of its (top-level) block; any newline ends that. */
  lemma FirstLineOfBlock(p: PartialOptions, w: Writer)
    requires Inv(w)
    ensures IsAtStartOfFirstLineOfBlock(New(p))
    ensures !IsOnFirstLineOfBlock(NewLine(w))
  {
  }

  /** `setIndentationLevel`: throws before changing anything, or sets the current level. */
  function SetIndentationLevel(w: Writer, arg: Indentation.IndentArg): (r: Result<Writer, Error>)
    requires Inv(w)
    ensures r.Err? <==> Indentation.LevelFromArg(arg, w.opts.indentNumberOfSpaces).Err?
    ensures r.Ok? ==> Inv(r.value)
    ensures r.Ok? ==> r.value == w.(ind := r.value.ind)
    ensures r.Ok? ==> GetIndentationLevel(r.value) == Indentation.LevelFromArg(arg, w.opts.indentNumberOfSpaces).value
    ensures r.Ok? ==> r.value.ind.queued == w.ind.queued
  {
    var ind :- Indentation.SetLevel(w.ind, arg, w.opts.indentNumberOfSpaces);
    Ok(w.(ind := ind))
  }

  /** `queueIndentationLevel`: throws before changing anything, or queues the level for after the next newline. */
  function QueueIndentationLevel(w: Writer, arg: Indentation.IndentArg): (r: Result<Writer, Error>)
    requires Inv(w)
    ensures r.Err? <==> Indentation.LevelFromArg(arg, w.opts.indentNumberOfSpaces).Err?
    ensures r.Ok? ==> Inv(r.value)
    ensures r.Ok? ==> r.value == w.(ind := r.value.ind)
    ensures r.Ok? ==> GetIndentationLevel(r.value) == GetIndentationLevel(w)
    ensures r.Ok? ==> r.value.ind.queued == Some(Indentation.LevelFromArg(arg, w.opts.indentNumberOfSpaces).value)
  {
    var ind :- Indentation.QueueLevel(w.ind, arg, w.opts.indentNumberOfSpaces);
    Ok(w.(ind := ind))
  }

  /** A queued level is the current one once the next newline has been written (unless it was for non-blocks and a block opened). */
  lemma QueuedLevelAfterNewLine(w: Writer, arg: Indentation.IndentArg)
    requires Inv(w)
    requires QueueIndentationLevel(w, arg).Ok?
    ensures GetIndentationLevel(NewLine(QueueIndentationLevel(w, arg).value))
      == Indentation.LevelFromArg(arg, w.opts.indentNumberOfSpaces).value
    ensures NewLine(QueueIndentationLevel(w, arg).value).ind.queued == None
  {
  }

  /** The set-up of `hangingIndent` / `hangingIndentUnlessBlock`: queue one level deeper. */
  function QueueHangingIndent(w: Writer, unlessBlock: bool): (r: Writer)
    requires Inv(w)
    ensures Inv(r) && r == w.(ind := r.ind)
    ensures r.ind.current == w.ind.current && r.ind.queued == Some(w.ind.current + 1.0)
    ensures r.ind.queuedOnlyIfNotBlock == unlessBlock
  {
    var ind := Indentation.QueueHanging(w.ind, unlessBlock, w.opts.indentNumberOfSpaces);
    w.(ind := ind.value)
  }

  /** `_setIndentationState`: the `finally` of `_withResetIndentation`. */
  function RestoreIndentation(w: Writer, saved: Indentation.IndentState): (r: Writer)
    requires Inv(w) && Indentation.NonNegative(saved)
    ensures Inv(r) && r == w.(ind := saved) && GetIndentationLevel(r) == saved.current
  {
    w.(ind := saved)
  }

  /** `_indentBlockInternal` up to the callback: a fresh line unless the writer is empty, then one level deeper. */
  function IndentBlockOpen(w: Writer): (r: Writer)
    requires Inv(w)
    ensures Inv(r) && Grows(w, r)
    ensures r.onFirstLineOfBlock
    ensures LastChar(w.buf).Some? ==> IsLastNewLine(r.buf)
    ensures w.ind.queued == None ==> r.ind == w.ind.(current := w.ind.current + 1.0)
  {
    var w1 := if LastChar(w.buf).Some? then NewLineIfLastNot(w) else w;
    w1.(ind := w1.ind.(current := w1.ind.current + 1.0), onFirstLineOfBlock := true)
  }

  /** `_indentBlockInternal` after the callback: off the first line, and one level back (never below zero). */
  function IndentBlockClose(w: Writer): (r: Writer)
    requires Inv(w)
    ensures Inv(r) && r == w.(ind := r.ind, onFirstLineOfBlock := false)
    ensures r.ind == w.ind.(current := if w.ind.current >= 1.0 then w.ind.current - 1.0 else 0.0)
  {
    var level := w.ind.current - 1.0;
    w.(ind := w.ind.(current := if level >= 0.0 then level else 0.0), onFirstLineOfBlock := false)
  }

  /** `inlineBlock` up to the callback: `{` and an indented block. */
  function InlineBlockOpen(w: Writer): (r: Writer)
    requires Inv(w)
    ensures Inv(r) && Grows(w, r)
    ensures r.onFirstLineOfBlock && IsLastNewLine(r.buf)
    ensures w.ind.queued == None ==> r.ind == w.ind.(current := w.ind.current + 1.0)
  {
    var w1 := NewLineIfNewLineOnNextWrite(w);
    var w2 := Write(w1, "{");
    WriteEndsWithText(w1, "{");
    var r := IndentBlockOpen(w2);
    GrowsTransitive(w, w1, w2);
    GrowsTransitive(w, w2, r);
    r
  }

  /** `inlineBlock` after the callback: back out a level, close the line, write `}`. */
  function InlineBlockClose(w: Writer): (r: Writer)
    requires Inv(w)
    ensures w.ind.queued == None ==> r.ind == w.ind.(current := if w.ind.current >= 1.0 then w.ind.current - 1.0 else 0.0)
    ensures Inv(r) && Grows(w, r)
    ensures LastChar(r.buf) == Some('}')
  {
    var w1 := IndentBlockClose(w);
    var w2 := NewLineIfLastNot(w1);
    var r := Write(w2, "}");
    WriteEndsWithText(w2, "}");
    LastCharOfText(r.buf);
    GrowsTransitive(w, w2, r);
    r
  }

  /** `block` up to the callback: a separating space when the line already has text, then the inline block. */
  function BlockOpen(w: Writer): (r: Writer)
    requires Inv(w)
    ensures Inv(r) && Grows(w, r)
    ensures r.onFirstLineOfBlock && IsLastNewLine(r.buf)
    ensures w.ind.queued == None ==> r.ind == w.ind.(current := w.ind.current + 1.0)
  {
    var w1 := BlockSeparator(w);
    var r := InlineBlockOpen(w1);
    GrowsTransitive(w, w1, r);
    r
  }

  /** The space `block` puts before its brace when the line already has text. */
  function BlockSeparator(w: Writer): (r: Writer)
    requires Inv(w)
    ensures Inv(r) && Grows(w, r) && KeepsLevel(w, r) && !r.newLineOnNextWrite
    ensures GetLength(r) > 0 && !IsLastNewLine(r.buf) ==> IsLastSpace(r.buf)
  {
    var w1 := NewLineIfNewLineOnNextWrite(w);
    if GetLength(w1) > 0 && !IsLastNewLine(w1.buf) then
      var w2 := SpaceIfLastNot(w1);
      GrowsTransitive(w, w1, w2);
      w2
    else w1
  }

  /** `block` after the callback: the inline block is closed and a newline is left pending. */
  function BlockClose(w: Writer): (r: Writer)
    requires Inv(w)
    ensures w.ind.queued == None ==> r.ind == w.ind.(current := if w.ind.current >= 1.0 then w.ind.current - 1.0 else 0.0)
    ensures Inv(r) && Grows(w, r)
    ensures LastChar(r.buf) == Some('}') && r.newLineOnNextWrite
  {
    InlineBlockClose(w).(newLineOnNextWrite := true)
  }

  /** `indent(block)` after the callback: a newline is left pending when the block did not end one. */
  function IndentClose(w: Writer): (r: Writer)
    requires Inv(w)
    ensures Inv(r) && r.buf == w.buf
    ensures r.newLineOnNextWrite <==> w.newLineOnNextWrite || !IsLastNewLine(w.buf)
  {
    var w1 := IndentBlockClose(w);
    if !IsLastNewLine(w1.buf) then w1.(newLineOnNextWrite := true) else w1
  }

  /** `block` opened at the start of a line: the indented `{`, a newline, and one level deeper. */
  lemma BlockOpenAtLineStart(w: Writer)
    requires Inv(w) && w.ind.queued == None && !w.newLineOnNextWrite && AtLineStart(w.buf) && !Scanner.InString(w.scan)
    ensures var r := BlockOpen(w);
      && Text(r.buf) == Text(w.buf) + CurrentIndentation(w) + "{" + NewLineText(w)
      && r.ind == w.ind.(current := w.ind.current + 1.0) && r.opts == w.opts
      && !r.newLineOnNextWrite && AtLineStart(r.buf) && !Scanner.InString(r.scan)
  {
    LastCharOfText(w.buf);
    assert !(GetLength(w) > 0 && !IsLastNewLine(w.buf));
    assert BlockOpen(w) == InlineBlockOpen(w);
    InlineBlockOpenAtLineStart(w);
  }

  lemma InlineBlockOpenAtLineStart(w: Writer)
    requires Inv(w) && w.ind.queued == None && !w.newLineOnNextWrite && AtLineStart(w.buf) && !Scanner.InString(w.scan)
    ensures var r := InlineBlockOpen(w);
      && Text(r.buf) == Text(w.buf) + CurrentIndentation(w) + "{" + NewLineText(w)
      && r.ind == w.ind.(current := w.ind.current + 1.0) && r.opts == w.opts
      && !r.newLineOnNextWrite && AtLineStart(r.buf) && !Scanner.InString(r.scan)
  {
    var wa := Write(w, "{");
    WriteAtLineStart(w, "{");
    Scanner.InertKeepsStack(w.scan.stack, "{");
    assert wa.scan.stack == w.scan.stack && wa.ind == w.ind && LastChar(wa.buf) == Some('{');
    assert NewLineIfNewLineOnNextWrite(w) == w;
    assert InlineBlockOpen(w) == IndentBlockOpen(wa);
    NewLineAfterBrace(wa);
    assert NewLineText(wa) == NewLineText(w);
  }

  lemma NewLineAfterBrace(w: Writer)
    requires Inv(w) && w.ind.queued == None && !w.newLineOnNextWrite && !Scanner.InString(w.scan)
    requires LastChar(w.buf) == Some('{')
    ensures var r := IndentBlockOpen(w);
      && Text(r.buf) == Text(w.buf) + NewLineText(w)
      && r.ind == w.ind.(current := w.ind.current + 1.0) && r.opts == w.opts
      && !r.newLineOnNextWrite && AtLineStart(r.buf) && !Scanner.InString(r.scan)
  {
    var wb := NewLine(w);
    assert NewLineIfLastNot(w) == wb;
    Scanner.NewLineKeepsStack(w.scan, LastChar(w.buf));
  }

  /** `block` closed after a line of text: a newline, then `}` at the level outside the block. */
  lemma BlockCloseAfterText(w: Writer)
    requires Inv(w) && w.ind.queued == None && !w.newLineOnNextWrite && !Scanner.InString(w.scan)
    requires w.ind.current >= 1.0 && LastChar(w.buf).Some? && !IsLastNewLine(w.buf)
    ensures var r := BlockClose(w);
      && Text(r.buf) == Text(w.buf) + NewLineText(w) + CurrentIndentation(w.(ind := w.ind.(current := w.ind.current - 1.0))) + "}"
      && r.ind == w.ind.(current := w.ind.current - 1.0) && r.newLineOnNextWrite
  {
    InlineBlockCloseAfterText(w);
  }

  lemma InlineBlockCloseAfterText(w: Writer)
    requires Inv(w) && w.ind.queued == None && !w.newLineOnNextWrite && !Scanner.InString(w.scan)
    requires w.ind.current >= 1.0 && LastChar(w.buf).Some? && !IsLastNewLine(w.buf)
    ensures var r := InlineBlockClose(w);
      && Text(r.buf) == Text(w.buf) + NewLineText(w) + CurrentIndentation(w.(ind := w.ind.(current := w.ind.current - 1.0))) + "}"
      && r.ind == w.ind.(current := w.ind.current - 1.0)
  {
    var w1 := IndentBlockClose(w);
    var w2 := NewLine(w1);
    assert NewLineIfLastNot(w1) == w2;
    Scanner.NewLineKeepsStack(w1.scan, LastChar(w1.buf));
    assert w2.ind == w1.ind && w1.ind == w.ind.(current := w.ind.current - 1.0);
    WriteAtLineStart(w2, "}");
  }

  /**
    What writing the lines `items` adds when nothing in them moves the scanner: lines after the
    first start on a new line, and every non-empty line that starts a line is indented.
   */
  function Layout(items: seq<string>, indent: string, nl: string, first: bool, atLineStart: bool): string
    decreases |items|
  {
    if |items| == 0 then ""
    else LineLayout(items[0], indent, nl, first, atLineStart) + Layout(items[1..], indent, nl, false, true)
  }

  /** One line of that layout: the newline unless it is the first, the indentation if the line is not empty and starts a line. */
  function LineLayout(item: string, indent: string, nl: string, first: bool, atLineStart: bool): string
  {
    (if first then "" else nl) + (if |item| > 0 && (atLineStart || !first) then indent else "") + item
  }

  /** One round of the loop on a line that keeps the string stack: the separator, the indentation if due, the line. */
  lemma WriteItemStep(w: Writer, item: string, first: bool)
    requires Inv(w) && w.ind.queued == None && !Scanner.InString(w.scan) && Scanner.KeepsStack(w.scan.stack, item)
    ensures var w2 := ItemStep(w, item, first);
      && w2.ind == w.ind && w2.scan.stack == w.scan.stack
      && Text(w2.buf) == Text(w.buf) + LineLayout(item, CurrentIndentation(w), NewLineText(w), first, AtLineStart(w.buf))
  {
    var w1 := if first then w else BaseWriteNewline(w);
    var sep := if first then "" else NewLineText(w);
    assert Text(w1.buf) == Text(w.buf) + sep;
    assert w1.ind == w.ind && w1.opts == w.opts;
    assert w1.scan.stack == w.scan.stack by {
      if !first { Scanner.NewLineKeepsStack(w.scan, LastChar(w.buf)); }
    }
    assert IndentsNext(w1) <==> (first && AtLineStart(w.buf)) || !first;
    var pad := if |item| > 0 && IndentsNext(w1) then CurrentIndentation(w) else "";
    var w2 := ItemStep(w, item, first);
    assert Text(w2.buf) == Text(w1.buf) + pad + item;
    AppendAssociative(Text(w.buf), sep, pad);
    AppendAssociative(Text(w.buf), sep + pad, item);
  }

  lemma AppendAssociative(a: string, b: string, c: string)
    ensures (a + b) + c == a + (b + c)
  {
  }

  /** After the first line, whether the text started at a line start no longer matters. */
  lemma LayoutAfterFirst(items: seq<string>, indent: string, nl: string, atLineStart: bool)
    ensures Layout(items, indent, nl, false, atLineStart) == Layout(items, indent, nl, false, true)
  {
  }

  lemma LayoutUnfold(items: seq<string>, indent: string, nl: string, first: bool, atLineStart: bool)
    requires |items| > 0
    ensures Layout(items, indent, nl, first, atLineStart)
      == LineLayout(items[0], indent, nl, first, atLineStart) + Layout(items[1..], indent, nl, false, true)
  {
  }

  /** Every line keeps the string stack, stated line by line from the first. */
  predicate AllKeepStack(stack: seq<char>, items: seq<string>)
    decreases |items|
  {
    |items| == 0 || (Scanner.KeepsStack(stack, items[0]) && AllKeepStack(stack, items[1..]))
  }

  lemma {:induction false} AllKeepStackOfEach(stack: seq<char>, items: seq<string>)
    requires forall j :: 0 <= j < |items| ==> Scanner.KeepsStack(stack, items[j])
    ensures AllKeepStack(stack, items)
    decreases |items|
  {
    if |items| > 0 {
      assert forall j :: 0 <= j < |items[1..]| ==> items[1..][j] == items[j + 1];
      AllKeepStackOfEach(stack, items[1..]);
    }
  }

  lemma {:induction false} WriteItemsLayout(w: Writer, items: seq<string>, first: bool)
    requires Inv(w) && w.ind.queued == None && !Scanner.InString(w.scan)
    requires AllKeepStack(w.scan.stack, items)
    ensures var r := WriteItems(w, items, first);
      && Text(r.buf) == Text(w.buf) + Layout(items, CurrentIndentation(w), NewLineText(w), first, AtLineStart(w.buf))
      && r.ind == w.ind && r.scan.stack == w.scan.stack
    decreases |items|
  {
    if |items| > 0 {
      var w2 := ItemStep(w, items[0], first);
      WriteItemStep(w, items[0], first);
      assert w2.scan.stack == w.scan.stack && !Scanner.InString(w2.scan);
      WriteItemsLayout(w2, items[1..], false);
      ItemsLayoutStep(w, items, first);
    }
  }

  /** The first line's layout, then the rest's, make the layout of all the lines. */
  lemma ItemsLayoutStep(w: Writer, items: seq<string>, first: bool)
    requires Inv(w) && |items| > 0
    requires var w2 := ItemStep(w, items[0], first);
      && w2.ind == w.ind && w2.opts == w.opts && w2.scan.stack == w.scan.stack
      && Text(w2.buf) == Text(w.buf) + LineLayout(items[0], CurrentIndentation(w), NewLineText(w), first, AtLineStart(w.buf))
      && var r := WriteItems(w2, items[1..], false);
      && Text(r.buf) == Text(w2.buf) + Layout(items[1..], CurrentIndentation(w2), NewLineText(w2), false, AtLineStart(w2.buf))
      && r.ind == w2.ind && r.scan.stack == w2.scan.stack
    ensures var r := WriteItems(w, items, first);
      && Text(r.buf) == Text(w.buf) + Layout(items, CurrentIndentation(w), NewLineText(w), first, AtLineStart(w.buf))
      && r.ind == w.ind && r.scan.stack == w.scan.stack
  {
    var w2 := ItemStep(w, items[0], first);
    var indent, nl := CurrentIndentation(w), NewLineText(w);
    var x := LineLayout(items[0], indent, nl, first, AtLineStart(w.buf));
    var rest := Layout(items[1..], indent, nl, false, true);
    assert CurrentIndentation(w2) == indent && NewLineText(w2) == nl;
    LayoutAfterFirst(items[1..], indent, nl, AtLineStart(w2.buf));
    LayoutUnfold(items, indent, nl, first, AtLineStart(w.buf));
    AppendAssociative(Text(w.buf), x, rest);
    assert WriteItems(w, items, first) == WriteItems(w2, items[1..], false);
  }

  /**
    Writing text that opens and closes no string, outside a string, with no level queued and
    no newline pending: every non-empty line that starts a line gets the current indentation,
    empty lines get none, and each `\r?\n` becomes the writer's newline.
   */
  lemma WriteTextLayout(w: Writer, text: string)
    requires Inv(w) && !w.newLineOnNextWrite && w.ind.queued == None && !Scanner.InString(w.scan)
    requires |text| > 0 && Scanner.KeepsStack(w.scan.stack, text)
    ensures Text(Write(w, text).buf)
      == Text(w.buf) + Layout(SplitLines(text), CurrentIndentation(w), NewLineText(w), true, AtLineStart(w.buf))
  {
    assert NewLineIfNewLineOnNextWrite(w) == w;
  }

  /** An empty write at the start of a line still writes the indentation. */
  lemma EmptyWriteIndents(w: Writer)
    requires Inv(w) && !w.newLineOnNextWrite && IndentsNext(w)
    ensures Text(Write(w, "").buf) == Text(w.buf) + CurrentIndentation(w)
  {
  }

  /** Without indentation the layout is the lines joined by the newline. */
  lemma {:induction false} LayoutWithoutIndent(items: seq<string>, nl: string, first: bool, atLineStart: bool)
    requires |items| >= 1
    ensures Layout(items, "", nl, first, atLineStart) == (if first then "" else nl) + Join(items, nl)
    decreases |items|
  {
    if |items| > 1 {
      LayoutWithoutIndent(items[1..], nl, false, true);
    }
  }

  lemma RenderZero(unit: string, useTabs: bool)
    ensures Indentation.Render(0.0, unit, useTabs) == ""
  {
    assert (0.0).Floor == 0;
    assert Indentation.Overflow(0.0) == 0.0;
  }

  /** At level zero, with LF newlines, plain text without CRs is written exactly as given. */
  lemma WriteAtLevelZero(w: Writer, text: string)
    requires Inv(w) && !w.newLineOnNextWrite && w.ind == Indentation.Initial && !Scanner.InString(w.scan)
    requires w.opts.newLine == LF
    requires |text| > 0 && Scanner.KeepsStack(w.scan.stack, text) && '\r' !in text
    ensures Text(Write(w, text).buf) == Text(w.buf) + text
  {
    WriteTextLayout(w, text);
    RenderZero(IndentationUnit(w), w.opts.useTabs);
    assert CurrentIndentation(w) == "";
    assert NewLineText(w) == "\n";
    LayoutWithoutIndent(SplitLines(text), "\n", true, AtLineStart(w.buf));
    SplitLinesJoin(text);
    NormalizeWithoutCarriageReturn(text);
    assert Layout(SplitLines(text), "", "\n", true, AtLineStart(w.buf)) == text;
  }

  lemma {:induction false} NormalizeWithoutCarriageReturn(s: string)
    requires '\r' !in s
    ensures NormalizeNewLines(s) == s
    decreases |s|
  {
    if |s| > 0 {
      assert s[0] != '\r';
      assert '\r' !in s[1..] by {
        assert forall i :: 0 <= i < |s[1..]| ==> s[1..][i] == s[i + 1];
      }
      NormalizeWithoutCarriageReturn(s[1..]);
      assert s == [s[0]] + s[1..];
    }
  }
}
