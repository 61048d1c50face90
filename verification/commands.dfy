/**
  The writer's callback-taking methods (`block`, `inlineBlock`, `indent(block)`,
  `withIndentationLevel`, `hangingIndent`, `hangingIndentUnlessBlock`) take a JavaScript closure
  that writes with the same writer. Here a closure is a list of commands, and running a command
  is a function from writer to outcome: the first thrown error stops the list, exactly as an
  exception leaves the closure.
 */
module Commands {
  import opened Results
  import opened TextBuffer
  import Scanner
  import Indentation
  import W = Writer

  /** One call on the writer that takes no closure. */
  datatype Call =
    | Write(text: string)
    | WriteLine(text: string)
    | ConditionalWrite(condition: bool, text: string)
    | ConditionalWriteLine(condition: bool, text: string)
    | NewLine
    | NewLineIfLastNot
    | ConditionalNewLine(condition: bool)
    | BlankLine
    | BlankLineIfLastNot
    | ConditionalBlankLine(condition: bool)
    | Quote(quoted: Option<string>)
    | Space(times: int)
    | SpaceIfLastNot
    | Tab(times: int)
    | TabIfLastNot
    | IndentTimes(times: int)
    | CloseComment
    | UnsafeInsert(pos: int, text: string)
    | SetIndentationLevel(arg: Indentation.IndentArg)
    | QueueIndentationLevel(arg: Indentation.IndentArg)

  /** A plain call, or one of the scope methods with its closure as a command list. */
  datatype Command =
    | Do(call: Call)
    | Block(body: seq<Command>)
    | InlineBlock(body: seq<Command>)
    | IndentBlock(body: seq<Command>)
    | WithIndentationLevel(arg: Indentation.IndentArg, body: seq<Command>)
    | HangingIndent(body: seq<Command>)
    | HangingIndentUnlessBlock(body: seq<Command>)

  /** No `unsafeInsert` anywhere: such a program only ever appends. */
  predicate AppendOnly(c: Command)
  {
    if c.Do? then !c.call.UnsafeInsert? else AppendOnlyAll(c.body)
  }

  predicate AppendOnlyAll(cs: seq<Command>)
  {
    forall i :: 0 <= i < |cs| ==> AppendOnly(cs[i])
  }

  /** A call that cannot move the indentation level unless a queued level lands. */
  predicate SteadyCall(call: Call)
  {
    !call.SetIndentationLevel? && !call.QueueIndentationLevel?
  }

  /**
    No level set or queued outside a scope that restores it: such a program, run with nothing
    queued, ends at the level it started at.
   */
  predicate Steady(c: Command)
  {
    match c
    case Do(call) => SteadyCall(call)
    case Block(body) => SteadyAll(body)
    case InlineBlock(body) => SteadyAll(body)
    case IndentBlock(body) => SteadyAll(body)
    case _ => true
  }

  predicate SteadyAll(cs: seq<Command>)
  {
    forall i :: 0 <= i < |cs| ==> Steady(cs[i])
  }

  /** The scopes that save the indentation state and put it back in a `finally`. */
  predicate Restores(c: Command)
  {
    c.WithIndentationLevel? || c.HangingIndent? || c.HangingIndentUnlessBlock?
  }

  /** The calls that can throw: the counted writes, the level setters and `unsafeInsert`. */
  predicate MayThrow(call: Call)
  {
    call.Space? || call.Tab? || call.IndentTimes? || call.UnsafeInsert? || call.SetIndentationLevel? || call.QueueIndentationLevel?
  }

  /** Runs one command. */
  function Exec(w: W.Writer, c: Command): (r: W.Outcome)
    requires W.Inv(w)
    ensures W.Inv(r.writer)
    ensures AppendOnly(c) ==> W.Grows(w, r.writer)
    ensures Steady(c) && r.thrown == None ==> W.KeepsLevel(w, r.writer)
    // the `finally` of `_withResetIndentation`: the indentation state is back, thrown or not
    ensures Restores(c) ==> r.writer.ind == w.ind
    ensures (c.Block? || c.InlineBlock?) && r.thrown == None ==> LastChar(r.writer.buf) == Some('}')
    ensures c.Block? && r.thrown == None ==> r.writer.newLineOnNextWrite
    decreases c, 1
  {
    if c.Do? then ExecCall(w, c.call)
    else if Restores(c) then ExecRestoring(w, c)
    else ExecNested(w, c)
  }

  /** The scopes that indent their closure one level and leave the level as they found it. */
  function ExecNested(w: W.Writer, c: Command): (r: W.Outcome)
    requires W.Inv(w) && (c.Block? || c.InlineBlock? || c.IndentBlock?)
    ensures W.Inv(r.writer)
    ensures AppendOnly(c) ==> W.Grows(w, r.writer)
    ensures Steady(c) && r.thrown == None ==> W.KeepsLevel(w, r.writer)
    ensures (c.Block? || c.InlineBlock?) && r.thrown == None ==> LastChar(r.writer.buf) == Some('}')
    ensures c.Block? && r.thrown == None ==> r.writer.newLineOnNextWrite
    decreases c, 0
  {
    if c.Block? then ExecBlock(w, c.body)
    else if c.InlineBlock? then ExecInlineBlock(w, c.body)
    else ExecIndentBlock(w, c.body)
  }

  /** The scopes built on `_withResetIndentation`. */
  function ExecRestoring(w: W.Writer, c: Command): (r: W.Outcome)
    requires W.Inv(w) && Restores(c)
    ensures W.Inv(r.writer)
    ensures AppendOnly(c) ==> W.Grows(w, r.writer)
    ensures r.writer.ind == w.ind
    decreases c, 0
  {
    if c.WithIndentationLevel? then ExecWithIndentationLevel(w, c.arg, c.body)
    else ExecHanging(w, c.HangingIndentUnlessBlock?, c.body)
  }

  /** The methods without a closure, each as the writer defines it. */
  function ExecCall(w: W.Writer, call: Call): (r: W.Outcome)
    requires W.Inv(w)
    ensures W.Inv(r.writer)
    ensures !call.UnsafeInsert? ==> W.Grows(w, r.writer)
    ensures SteadyCall(call) ==> W.KeepsLevel(w, r.writer)
    ensures r.thrown.Some? ==> MayThrow(call)
  {
    match call
    case Write(text) => W.Outcome(W.Write(w, text), None)
    case WriteLine(text) => W.Outcome(W.WriteLine(w, text), None)
    case ConditionalWrite(condition, text) => W.Outcome(W.ConditionalWrite(w, condition, text), None)
    case ConditionalWriteLine(condition, text) => W.Outcome(W.ConditionalWriteLine(w, condition, text), None)
    case NewLine => W.Outcome(W.NewLine(w), None)
    case NewLineIfLastNot => W.Outcome(W.NewLineIfLastNot(w), None)
    case ConditionalNewLine(condition) => W.Outcome(W.ConditionalNewLine(w, condition), None)
    case BlankLine => W.Outcome(W.BlankLine(w), None)
    case BlankLineIfLastNot => W.Outcome(W.BlankLineIfLastNot(w), None)
    case ConditionalBlankLine(condition) => W.Outcome(W.ConditionalBlankLine(w, condition), None)
    case Quote(quoted) => W.Outcome(W.Quote(w, quoted), None)
    case Space(times) => W.Space(w, times)
    case SpaceIfLastNot => W.Outcome(W.SpaceIfLastNot(w), None)
    case Tab(times) => W.Tab(w, times)
    case TabIfLastNot => W.Outcome(W.TabIfLastNot(w), None)
    case IndentTimes(times) => W.IndentTimes(w, times)
    case CloseComment => W.Outcome(W.CloseComment(w), None)
    case UnsafeInsert(pos, text) => W.UnsafeInsert(w, pos, text)
    case SetIndentationLevel(arg) =>
      (match W.SetIndentationLevel(w, arg)
       case Err(e) => W.Outcome(w, Some(e))
       case Ok(w1) => W.Outcome(w1, None))
    case QueueIndentationLevel(arg) =>
      (match W.QueueIndentationLevel(w, arg)
       case Err(e) => W.Outcome(w, Some(e))
       case Ok(w1) => W.Outcome(w1, None))
  }

  /**
    `block`: the opening brace (after a space when the line has text), the indented body, and
    the closing brace on its own line; a newline is left pending. An exception in the body leaves
    the writer where the body left it.
   */
  function ExecBlock(w: W.Writer, body: seq<Command>): (r: W.Outcome)
    requires W.Inv(w)
    ensures W.Inv(r.writer)
    ensures AppendOnlyAll(body) ==> W.Grows(w, r.writer)
    ensures SteadyAll(body) && r.thrown == None ==> W.KeepsLevel(w, r.writer)
    ensures r.thrown == None ==> LastChar(r.writer.buf) == Some('}') && r.writer.newLineOnNextWrite
    ensures r.thrown == ExecAll(W.BlockOpen(w), body).thrown
    decreases body, 2
  {
    var w1 := W.BlockOpen(w);
    var o := ExecAll(w1, body);
    if o.thrown.Some? then
      assert AppendOnlyAll(body) ==> W.Grows(w, o.writer) by {
        if AppendOnlyAll(body) {
          W.GrowsTransitive(w, w1, o.writer);
        }
      }
      o
    else
      var r := W.BlockClose(o.writer);
      assert AppendOnlyAll(body) ==> W.Grows(w, r) by {
        if AppendOnlyAll(body) {
          W.GrowsTransitive(w, w1, o.writer);
          W.GrowsTransitive(w, o.writer, r);
        }
      }
      W.Outcome(r, None)
  }

  /** `inlineBlock`: `block` without the separating space and the pending newline. */
  function ExecInlineBlock(w: W.Writer, body: seq<Command>): (r: W.Outcome)
    requires W.Inv(w)
    ensures W.Inv(r.writer)
    ensures AppendOnlyAll(body) ==> W.Grows(w, r.writer)
    ensures SteadyAll(body) && r.thrown == None ==> W.KeepsLevel(w, r.writer)
    ensures r.thrown == None ==> LastChar(r.writer.buf) == Some('}')
    ensures r.thrown == ExecAll(W.InlineBlockOpen(w), body).thrown
    decreases body, 2
  {
    var w1 := W.InlineBlockOpen(w);
    var o := ExecAll(w1, body);
    if o.thrown.Some? then
      assert AppendOnlyAll(body) ==> W.Grows(w, o.writer) by {
        if AppendOnlyAll(body) {
          W.GrowsTransitive(w, w1, o.writer);
        }
      }
      o
    else
      var r := W.InlineBlockClose(o.writer);
      assert AppendOnlyAll(body) ==> W.Grows(w, r) by {
        if AppendOnlyAll(body) {
          W.GrowsTransitive(w, w1, o.writer);
          W.GrowsTransitive(w, o.writer, r);
        }
      }
      W.Outcome(r, None)
  }

  /** `indent(block)`: the body one level deeper, with a newline pending if it did not end one. */
  function ExecIndentBlock(w: W.Writer, body: seq<Command>): (r: W.Outcome)
    requires W.Inv(w)
    ensures W.Inv(r.writer)
    ensures AppendOnlyAll(body) ==> W.Grows(w, r.writer)
    ensures SteadyAll(body) && r.thrown == None ==> W.KeepsLevel(w, r.writer)
    ensures r.thrown == None ==> W.AtLineStart(r.writer.buf) || r.writer.newLineOnNextWrite
    decreases body, 2
  {
    var w1 := W.IndentBlockOpen(w);
    var o := ExecAll(w1, body);
    assert AppendOnlyAll(body) ==> W.Grows(w, o.writer) by {
      if AppendOnlyAll(body) {
        W.GrowsTransitive(w, w1, o.writer);
      }
    }
    if o.thrown.Some? then o
    else W.Outcome(W.IndentClose(o.writer), None)
  }

  /**
    `withIndentationLevel`: a bad level throws before anything happens; otherwise the body runs
    at that level and the saved indentation state comes back whether or not the body throws.
   */
  function ExecWithIndentationLevel(w: W.Writer, arg: Indentation.IndentArg, body: seq<Command>): (r: W.Outcome)
    requires W.Inv(w)
    ensures W.Inv(r.writer)
    ensures AppendOnlyAll(body) ==> W.Grows(w, r.writer)
    ensures r.writer.ind == w.ind
    ensures Indentation.LevelFromArg(arg, w.opts.indentNumberOfSpaces).Err? ==> r == W.Outcome(w, Some(Indentation.LevelFromArg(arg, w.opts.indentNumberOfSpaces).error))
    decreases body, 2
  {
    match W.SetIndentationLevel(w, arg)
    case Err(e) => W.Outcome(w, Some(e))
    case Ok(w1) =>
      var o := ExecAll(w1, body);
      W.Outcome(W.RestoreIndentation(o.writer, w.ind), o.thrown)
  }

  /** `hangingIndent` and `hangingIndentUnlessBlock`: one level deeper from the next line on, for the body only. */
  function ExecHanging(w: W.Writer, unlessBlock: bool, body: seq<Command>): (r: W.Outcome)
    requires W.Inv(w)
    ensures W.Inv(r.writer)
    ensures AppendOnlyAll(body) ==> W.Grows(w, r.writer)
    ensures r.writer.ind == w.ind
    ensures r.thrown == ExecAll(W.QueueHangingIndent(w, unlessBlock), body).thrown
    decreases body, 2
  {
    var o := ExecAll(W.QueueHangingIndent(w, unlessBlock), body);
    W.Outcome(W.RestoreIndentation(o.writer, w.ind), o.thrown)
  }

  /** Runs a closure body: the commands in order, stopping at the first that throws. */
  function ExecAll(w: W.Writer, cs: seq<Command>): (r: W.Outcome)
    requires W.Inv(w)
    ensures W.Inv(r.writer)
    ensures AppendOnlyAll(cs) ==> W.Grows(w, r.writer)
    ensures SteadyAll(cs) && r.thrown == None ==> W.KeepsLevel(w, r.writer)
    decreases cs, 1
  {
    if |cs| == 0 then W.Outcome(w, None)
    else
      var o := Exec(w, cs[0]);
      if o.thrown.Some? then o
      else
        var r := ExecAll(o.writer, cs[1..]);
        assert AppendOnlyAll(cs) ==> W.Grows(w, r.writer) by {
          if AppendOnlyAll(cs) {
            assert AppendOnly(cs[0]);
            assert forall i :: 0 <= i < |cs[1..]| ==> cs[1..][i] == cs[i + 1];
            W.GrowsTransitive(w, o.writer, r.writer);
          }
        }
        assert SteadyAll(cs) ==> SteadyAll(cs[1..]) by {
          assert forall i :: 0 <= i < |cs[1..]| ==> cs[1..][i] == cs[i + 1];
        }
        r
  }

  /** What is left to run after `a` ran to `o`: nothing if `a` threw, `b` otherwise. */
  function Then(o: W.Outcome, b: seq<Command>): (r: W.Outcome)
    requires W.Inv(o.writer)
    ensures o.thrown.Some? ==> r == o
  {
    if o.thrown.Some? then o else ExecAll(o.writer, b)
  }

  /** A closure body can be cut anywhere: running `a + b` is running `a`, then `b` unless `a` threw. */
  lemma {:induction false} ExecAllAppend(w: W.Writer, a: seq<Command>, b: seq<Command>)
    requires W.Inv(w)
    ensures ExecAll(w, a + b) == Then(ExecAll(w, a), b)
    decreases |a|
  {
    if |a| == 0 {
      assert a + b == b;
    } else {
      assert (a + b)[0] == a[0] && (a + b)[1..] == a[1..] + b;
      var o := Exec(w, a[0]);
      if o.thrown.None? {
        ExecAllAppend(o.writer, a[1..], b);
      }
    }
  }

  /** The first command that throws ends the body: nothing after it runs. */
  lemma ThrowStops(w: W.Writer, a: seq<Command>, b: seq<Command>)
    requires W.Inv(w) && ExecAll(w, a).thrown.Some?
    ensures ExecAll(w, a + b) == ExecAll(w, a)
  {
    ExecAllAppend(w, a, b);
  }

  /**
    A block around one line of plain text, opened at the start of a line: `{` at the current
    indentation, the line one level deeper, `}` back at the current indentation, with a newline
    pending and the indentation as it was.
   */
  lemma BlockOfOneLine(w: W.Writer, text: string)
    requires W.Inv(w) && w.ind.queued == None && !w.newLineOnNextWrite
    requires W.AtLineStart(w.buf) && !Scanner.InString(w.scan)
    requires |text| > 0 && W.Inert(text)
    ensures var r := Exec(w, Block([Do(Write(text))]));
      var outer := W.CurrentIndentation(w);
      var inner := Indentation.Render(w.ind.current + 1.0, W.IndentationUnit(w), w.opts.useTabs);
      var nl := W.NewLineText(w);
      && r.thrown == None
      && Text(r.writer.buf) == Text(w.buf) + outer + "{" + nl + inner + text + nl + outer + "}"
      && r.writer.ind == w.ind && r.writer.newLineOnNextWrite
  {
    var w1 := W.BlockOpen(w);
    W.BlockOpenAtLineStart(w);
    var w2 := BlockBodyLine(w1, text);
    W.BlockCloseAfterText(w2);
    var r := W.BlockClose(w2);
    BlockOfOneLineRuns(w, text);
    var outer := W.CurrentIndentation(w);
    assert W.CurrentIndentation(w1) == Indentation.Render(w.ind.current + 1.0, W.IndentationUnit(w), w.opts.useTabs);
    assert w2.ind.(current := w2.ind.current - 1.0) == w.ind;
    assert W.CurrentIndentation(w2.(ind := w2.ind.(current := w2.ind.current - 1.0))) == outer;
  }

  /** The block in that lemma runs as open, body line, close, and throws nothing. */
  lemma BlockOfOneLineRuns(w: W.Writer, text: string)
    requires W.Inv(w) && w.ind.queued == None && !w.newLineOnNextWrite
    requires W.AtLineStart(w.buf) && !Scanner.InString(w.scan)
    requires |text| > 0 && W.Inert(text)
    ensures W.Inv(W.BlockOpen(w)) && !W.BlockOpen(w).newLineOnNextWrite
    ensures W.AtLineStart(W.BlockOpen(w).buf) && !Scanner.InString(W.BlockOpen(w).scan)
    ensures Exec(w, Block([Do(Write(text))])) == W.Outcome(W.BlockClose(BlockBodyLine(W.BlockOpen(w), text)), None)
  {
    var body := [Do(Write(text))];
    var w1 := W.BlockOpen(w);
    W.BlockOpenAtLineStart(w);
    var w2 := BlockBodyLine(w1, text);
    assert ExecAll(w1, body) == W.Outcome(w2, None);
    assert ExecBlock(w, body) == W.Outcome(W.BlockClose(w2), None);
    ExecOfBlock(w, body);
  }

  /** `Exec` hands a block to `ExecBlock`. */
  lemma ExecOfBlock(w: W.Writer, body: seq<Command>)
    requires W.Inv(w)
    ensures Exec(w, Block(body)) == ExecBlock(w, body)
  {
    var c := Block(body);
    assert !c.Do? && !Restores(c);
    assert ExecNested(w, c) == ExecBlock(w, body);
  }

  /** The body of that block: the line, written at the start of the block's first line. */
  function BlockBodyLine(w: W.Writer, text: string): (r: W.Writer)
    requires W.Inv(w) && !w.newLineOnNextWrite && W.AtLineStart(w.buf) && !Scanner.InString(w.scan)
    requires |text| > 0 && W.Inert(text)
    ensures r == ExecAll(w, [Do(Write(text))]).writer && ExecAll(w, [Do(Write(text))]).thrown == None
    ensures W.Inv(r) && r.ind == w.ind && r.opts == w.opts && !r.newLineOnNextWrite && !Scanner.InString(r.scan)
    ensures Text(r.buf) == Text(w.buf) + W.CurrentIndentation(w) + text
    ensures LastChar(r.buf).Some? && !IsLastNewLine(r.buf)
  {
    InertLine(w, text);
    ExecAllOneCall(w, Write(text));
    W.Write(w, text)
  }

  /** Running a one-command body is running that call. */
  lemma ExecAllOneCall(w: W.Writer, call: Call)
    requires W.Inv(w)
    ensures ExecAll(w, [Do(call)]) == ExecCall(w, call)
  {
    var cs := [Do(call)];
    assert cs[1..] == [];
    assert Exec(w, cs[0]) == ExecCall(w, call);
  }

  /** An inert line written at the start of a line: indented, and the scanner is left alone. */
  lemma InertLine(w: W.Writer, text: string)
    requires W.Inv(w) && !w.newLineOnNextWrite && W.AtLineStart(w.buf) && !Scanner.InString(w.scan)
    requires |text| > 0 && W.Inert(text)
    ensures var r := W.Write(w, text);
      && W.Inv(r) && r.ind == w.ind && r.opts == w.opts && !r.newLineOnNextWrite && !Scanner.InString(r.scan)
      && Text(r.buf) == Text(w.buf) + W.CurrentIndentation(w) + text
      && LastChar(r.buf).Some? && !IsLastNewLine(r.buf)
  {
    var r := W.Write(w, text);
    W.WriteAtLineStart(w, text);
    assert r.scan.stack == w.scan.stack by {
      Scanner.InertKeepsStack(w.scan.stack, text);
    }
    assert !IsLastNewLine(r.buf) by {
      W.LastCharOfText(r.buf);
      assert !Scanner.IsCharToHandle(text[|text| - 1]);
    }
  }
}
